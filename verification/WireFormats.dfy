/** The commands and replies on the wire byte by byte, as the documentation writes them. */
module WireFormats {
  import opened Bytes
  import opened Utf8
  import opened Wire
  import Replies

  /** Three commands as the documentation writes them, and what they are read as. */
  lemma CommandLayout(rest: Bytes)
    ensures Print(Get(Ascii("key"))) == Ascii("GET:3:key")
    ensures Print(Set(Ascii("key"), Ascii("value"))) == Ascii("SET:3:key:5:value")
    ensures Print(Echo(Ascii("message"))) == Ascii("ECHO:7:message")
    ensures Parse(Ascii("GET:3:key") + rest) == Complete(Get(Ascii("key")), rest)
    ensures Parse(Ascii("SET:3:key:5:value") + rest) == Complete(Set(Ascii("key"), Ascii("value")), rest)
    ensures Parse(Ascii("ECHO:7:message") + rest) == Complete(Echo(Ascii("message")), rest)
  {
    hide Parse, ValidUtf8;
    PrintLayout();
    KeyIsText();
    ParsePrint(Get(Ascii("key")), rest);
    ParsePrint(Set(Ascii("key"), Ascii("value")), rest);
    ParsePrint(Echo(Ascii("message")), rest);
  }

  /** A lookup of a key of one character that takes three bytes: the length counts bytes. */
  lemma EuroLayout(rest: Bytes)
    ensures Print(Get([0xE2, 0x82, 0xAC])) == Ascii("GET:3:") + [0xE2, 0x82, 0xAC]
    ensures Parse(Ascii("GET:3:") + [0xE2, 0x82, 0xAC] + rest) == Complete(Get([0xE2, 0x82, 0xAC]), rest)
  {
    hide Parse, ValidUtf8, Field;
    var key: Bytes := [0xE2, 0x82, 0xAC];
    EuroSign();
    FieldOf(key, 51);
    assert Print(Get(key)) == GET_WORD + ([58, 51, 58] + key) == Ascii("GET:3:") + key;
    ParsePrint(Get(key), rest);
  }

  lemma KeyIsText()
    ensures ValidUtf8(Ascii("key"))
  {
    var k := Ascii("key");
    assert k[1..][1..][1..] == [];
    assert ValidUtf8(k[1..][1..]);
    assert ValidUtf8(k[1..]);
  }

  lemma PrintLayout()
    ensures Print(Get(Ascii("key"))) == Ascii("GET:3:key")
    ensures Print(Set(Ascii("key"), Ascii("value"))) == Ascii("SET:3:key:5:value")
    ensures Print(Echo(Ascii("message"))) == Ascii("ECHO:7:message")
  {
    PrintLookup();
    PrintUpdate();
    PrintEcho();
  }

  lemma PrintLookup()
    ensures Print(Get(Ascii("key"))) == Ascii("GET:3:key")
  {
    hide Field;
    FieldOf(Ascii("key"), 51);
    assert Print(Get(Ascii("key"))) == GET_WORD + ([58, 51, 58] + Ascii("key"));
  }

  lemma PrintUpdate()
    ensures Print(Set(Ascii("key"), Ascii("value"))) == Ascii("SET:3:key:5:value")
  {
    hide Field, Ascii;
    FieldTexts();
    FieldsText();
    SetText();
    CommandText();
  }

  lemma FieldsText()
    ensures Ascii(":3:key") + Ascii(":5:value") == Ascii(":3:key:5:value")
  {
    hide Ascii;
    AsciiJoin(":3:key", ":5:value");
    assert ":3:key" + ":5:value" == ":3:key:5:value";
  }

  lemma CommandText()
    ensures Ascii("SET") + Ascii(":3:key:5:value") == Ascii("SET:3:key:5:value")
  {
    hide Ascii;
    AsciiJoin("SET", ":3:key:5:value");
    assert "SET" + ":3:key:5:value" == "SET:3:key:5:value";
  }

  lemma SetText()
    ensures SET_WORD == Ascii("SET")
  {
  }

  lemma FieldTexts()
    ensures Field(Ascii("key")) == Ascii(":3:key") && Field(Ascii("value")) == Ascii(":5:value")
  {
    hide Field;
    FieldOf(Ascii("key"), 51);
    FieldOf(Ascii("value"), 53);
  }

  lemma AsciiJoin(a: string, b: string)
    requires forall i :: 0 <= i < |a| ==> a[i] as int < 128
    requires forall i :: 0 <= i < |b| ==> b[i] as int < 128
    ensures Ascii(a + b) == Ascii(a) + Ascii(b)
  {
  }

  lemma PrintEcho()
    ensures Print(Echo(Ascii("message"))) == Ascii("ECHO:7:message")
  {
    hide Field;
    FieldOf(Ascii("message"), 55);
    assert Print(Echo(Ascii("message"))) == ECHO_WORD + ([58, 55, 58] + Ascii("message"));
  }

  /** A field of fewer than ten bytes: one digit between colons. */
  lemma FieldOf(data: Bytes, digit: byte)
    requires |data| < 10 && digit == 48 + |data|
    ensures Field(data) == [58, digit, 58] + data
  {
    hide Decimal;
    Digit(|data|);
  }

  /** Nothing found. */
  lemma NullLayout()
    ensures Replies.Encode(Replies.Null) == Ascii("null\n")
  {
  }

  /** Bytes found or echoed, behind their length in decimal. */
  lemma PayloadLayout(data: Bytes)
    ensures |data| == 5 ==> Replies.Encode(Replies.Payload(data)) == [53] + ([58] + (data + [10]))
    ensures |data| == 120 ==> Replies.Encode(Replies.Payload(data)) == Ascii("120") + ([58] + (data + [10]))
  {
    hide Decimal, Ascii;
    NumberLayout();
    Digit(5);
  }

  /** The length of a saved value, itself behind its length. */
  lemma SavedLayout()
    ensures Replies.Encode(Replies.Saved(5)) == Ascii("1:5\n")
    ensures Replies.Encode(Replies.Saved(120)) == Ascii("3:120\n")
  {
    hide Decimal;
    NumberLayout();
    Digit(5);
    Digit(1);
    Digit(3);
    SavedBytes(5, [53], [49]);
    SavedBytes(120, Ascii("120"), [51]);
    assert Ascii("1:5\n") == [49] + ([58] + ([53] + [10]));
    assert Ascii("3:120\n") == [51] + ([58] + (Ascii("120") + [10]));
  }

  lemma SavedBytes(n: nat, number: Bytes, length: Bytes)
    requires Decimal(n) == number && Decimal(|number|) == length
    ensures Replies.Encode(Replies.Saved(n)) == length + ([58] + (number + [10]))
  {
    hide Decimal;
  }

  lemma Digit(n: nat)
    requires n < 10
    ensures Decimal(n) == [48 + n]
  {
  }
}
