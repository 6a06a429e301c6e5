/** The replies the server writes, and a reader that recovers them from their lengths. */
module Replies {
  import opened Bytes
  import opened Wire

  /** `Payload` answers an echo or a lookup, `Saved` a set of that many bytes. */
  datatype Reply = Null | Payload(bytes: Bytes) | Saved(n: nat)

  const NULL_LINE: Bytes := [110, 117, 108, 108, 10]

  function Framed(data: Bytes): Bytes {
    Decimal(|data|) + ([COLON] + (data + [NEWLINE]))
  }

  /** `write_null`, `write_echo`, `write_get_result`, `write_set_result` */
  function Encode(r: Reply): Bytes {
    match r
    case Null => NULL_LINE
    case Payload(bytes) => Framed(bytes)
    case Saved(n) => Framed(Decimal(n))
  }

  function EncodeAll(rs: seq<Reply>): Bytes {
    if rs == [] then [] else Encode(rs[0]) + EncodeAll(rs[1..])
  }

  lemma EncodeNone()
    ensures EncodeAll([]) == []
  {
  }

  lemma {:induction false} EncodePush(rs: seq<Reply>, r: Reply)
    ensures EncodeAll(rs + [r]) == EncodeAll(rs) + Encode(r)
  {
    hide Encode;
    if rs == [] {
      assert rs + [r] == [r] && [r][1..] == [];
      assert EncodeAll([r]) == Encode(r) + EncodeAll([]);
    } else {
      EncodePush(rs[1..], r);
      assert (rs + [r])[1..] == rs[1..] + [r];
    }
  }

  /** The bytes are the length of the data in decimal, a colon, the data and a newline. */
  ghost predicate IsFrame(b: Bytes, data: Bytes) {
    exists digits :: Denotes(digits, |data|) && b == digits + [58] + data + [10]
  }

  /** The bytes of a reply, exactly: `null` and a newline, or a frame around the payload, or a frame around the number
      of bytes saved. Digits hold no colon, so the length is what stands before the first one. */
  lemma EncodeExact(r: Reply, b: Bytes)
    ensures b == Encode(r) <==>
            match r
            case Null => b == [110, 117, 108, 108, 10]
            case Payload(bytes) => IsFrame(b, bytes)
            case Saved(n) => exists digits :: Denotes(digits, n) && IsFrame(b, digits)
  {
    hide Decimal, Denotes, IsFrame;
    match r
    case Null =>
    case Payload(bytes) => FramedExact(bytes, b);
    case Saved(n) =>
      DecimalExact(Decimal(n), n);
      forall digits | Denotes(digits, n) ensures IsFrame(b, digits) <==> b == Framed(Decimal(n)) {
        DecimalExact(digits, n);
        FramedExact(digits, b);
      }
  }

  lemma FramedExact(data: Bytes, b: Bytes)
    ensures b == Framed(data) <==> IsFrame(b, data)
  {
    hide Decimal, Denotes;
    var d := Decimal(|data|);
    DecimalExact(d, |data|);
    assert Framed(data) == d + [58] + data + [10];
    forall digits | Denotes(digits, |data|) ensures digits == d { DecimalExact(digits, |data|); }
  }

  // ---------------------------------------------------------------- a length-first reader

  /** What a client can tell from the bytes alone: no value, or some bytes. */
  function Frame(r: Reply): Option<Bytes> {
    match r
    case Null => None
    case Payload(bytes) => Some(bytes)
    case Saved(n) => Some(Decimal(n))
  }

  function Frames(rs: seq<Reply>): seq<Option<Bytes>> {
    seq(|rs|, i requires 0 <= i < |rs| => Frame(rs[i]))
  }

  datatype Decoded = Decoded(frame: Option<Bytes>, rest: Bytes) | Undecodable

  function ReadDigits(b: Bytes): (n: nat)
    ensures n <= |b| && AllDigits(b[..n])
    ensures n < |b| ==> !IsDigit(b[n])
    decreases |b|
  {
    if b == [] || !IsDigit(b[0]) then 0 else 1 + ReadDigits(b[1..])
  }

  function DecodeOne(b: Bytes): (r: Decoded)
    ensures r.Decoded? ==> |r.rest| < |b|
  {
    if |b| >= 5 && b[..5] == NULL_LINE then Decoded(None, b[5..])
    else
      var d := ReadDigits(b);
      if d == 0 || d == |b| || b[d] != COLON then Undecodable
      else
        var n, data := Numeral(b[..d]), b[d + 1..];
        if |data| <= n || data[n] != NEWLINE then Undecodable
        else Decoded(Some(data[..n]), data[n + 1..])
  }

  function DecodeAll(b: Bytes): Option<seq<Option<Bytes>>>
    decreases |b|
  {
    if b == [] then Some([])
    else match DecodeOne(b)
      case Undecodable => None
      case Decoded(frame, rest) =>
        match DecodeAll(rest)
        case None => None
        case Some(frames) => Some([frame] + frames)
  }

  lemma {:induction false} ReadDigitsExact(digits: Bytes, rest: Bytes)
    requires AllDigits(digits) && rest != [] && !IsDigit(rest[0])
    ensures ReadDigits(digits + rest) == |digits|
    decreases |digits|
  {
    var b := digits + rest;
    if digits == [] {
      assert b == rest;
    } else {
      assert IsDigit(digits[0]) && b[1..] == digits[1..] + rest;
      ReadDigitsExact(digits[1..], rest);
    }
  }

  lemma DecodeFramed(data: Bytes, rest: Bytes)
    ensures DecodeOne(Framed(data) + rest) == Decoded(Some(data), rest)
  {
    hide Decimal, Numeral;
    var digits := Decimal(|data|);
    var tail := [COLON] + (data + ([NEWLINE] + rest));
    var b := Framed(data) + rest;
    assert b == digits + tail;
    ReadDigitsExact(digits, tail);
    DecimalRoundTrip(|data|);
    assert b[..|digits|] == digits;
    assert IsDigit(b[0]) by { assert IsDigit(digits[0]); }
    assert b[0] != NULL_LINE[0];
    assert b[|digits| + 1..] == data + ([NEWLINE] + rest);
    assert (data + ([NEWLINE] + rest))[|data| + 1..] == rest;
  }

  lemma DecodeEncode(r: Reply, rest: Bytes)
    ensures DecodeOne(Encode(r) + rest) == Decoded(Frame(r), rest)
    ensures Encode(r) != []
  {
    hide Decimal, Framed, ReadDigits;
    match r
    case Null => assert (NULL_LINE + rest)[..5] == NULL_LINE;
    case Payload(bytes) => DecodeFramed(bytes, rest); FramedSome(bytes);
    case Saved(n) => DecodeFramed(Decimal(n), rest); FramedSome(Decimal(n));
  }

  lemma FramedSome(data: Bytes)
    ensures Framed(data) != []
  {
  }

  /** However many replies, and whatever colons and newlines their payloads hold, the concatenated output
      decodes to exactly those replies. */
  lemma {:induction false} RepliesDecode(rs: seq<Reply>)
    ensures DecodeAll(EncodeAll(rs)) == Some(Frames(rs))
  {
    hide Encode, DecodeOne, Frame;
    if rs == [] {
      assert Frames(rs) == [];
    } else {
      var rest := EncodeAll(rs[1..]);
      DecodeEncode(rs[0], rest);
      RepliesDecode(rs[1..]);
      assert Frames(rs) == [Frame(rs[0])] + Frames(rs[1..]);
    }
  }

  /** The client knows which requests were sets. */
  predicate SameKinds(rs: seq<Reply>, rs': seq<Reply>) {
    |rs| == |rs'| && forall i :: 0 <= i < |rs| ==> (rs[i].Saved? <==> rs'[i].Saved?)
  }

  /** Two different sequences of replies to the same requests never produce the same bytes. */
  lemma RepliesAreUnique(rs: seq<Reply>, rs': seq<Reply>)
    requires SameKinds(rs, rs') && EncodeAll(rs) == EncodeAll(rs')
    ensures rs == rs'
  {
    hide EncodeAll, DecodeAll, Decimal, Numeral;
    RepliesDecode(rs);
    RepliesDecode(rs');
    forall i | 0 <= i < |rs| ensures rs[i] == rs'[i] {
      assert Frames(rs)[i] == Frames(rs')[i];
      if rs[i].Saved? {
        DecimalRoundTrip(rs[i].n);
        DecimalRoundTrip(rs'[i].n);
      }
    }
  }
}
