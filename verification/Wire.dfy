/** The wire grammar: printing commands, and parsing a byte stream as `Proto::read` does, byte by byte. */
module Wire {
  import opened Bytes

  datatype ProtoOp =
    | Get(key: Bytes)
    | Set(key: Bytes, value: Bytes)
    | Echo(msg: Bytes)
    | SysClose
    | Cancelled

  datatype OpWord = GetWord | SetWord | EchoWord

  datatype ProtoError =
    | ShortOp          // fewer than four bytes where an operation should start
    | UnknownOp
    | ExpectedColon
    | LengthNotUtf8
    | BadLength
    | KeyNotUtf8
    | SocketError

  const COLON: byte := 58
  const NEWLINE: byte := 10
  const MIN_BUF_SIZE := 4
  const BUF_SIZE := 256
  const GET_WORD: Bytes := [71, 69, 84]
  const SET_WORD: Bytes := [83, 69, 84]
  const ECHO_WORD: Bytes := [69, 67, 72, 79]

  // ---------------------------------------------------------------- printing

  /** A length between colons, then the bytes. */
  function Spelled(digits: Bytes, data: Bytes): Bytes {
    [COLON] + digits + [COLON] + data
  }

  function Field(data: Bytes): Bytes {
    Spelled(Decimal(|data|), data)
  }

  /** A command as a client writes it, up to the filler and the newline. */
  function Print(op: ProtoOp): Bytes {
    match op
    case Get(key) => GET_WORD + Field(key)
    case Set(key, value) => SET_WORD + (Field(key) + Field(value))
    case Echo(msg) => ECHO_WORD + Field(msg)
    case _ => []
  }

  predicate IsCommandKind(op: ProtoOp) {
    op.Get? || op.Set? || op.Echo?
  }

  predicate IsCommand(op: ProtoOp) {
    match op
    case Get(key) => ValidUtf8(key) && |key| < U64_LIMIT
    case Set(key, value) => ValidUtf8(key) && |key| < U64_LIMIT && |value| < U64_LIMIT
    case Echo(msg) => |msg| < U64_LIMIT
    case _ => false
  }

  // ---------------------------------------------------------------- parsing

  datatype Outcome = Complete(op: ProtoOp, rest: Bytes) | Fail(error: ProtoError) | Incomplete

  datatype Length = Length(n: nat) | Rejected(error: ProtoError)

  function ParseLength(digits: Bytes): Length {
    if !ValidUtf8(digits) then Rejected(LengthNotUtf8)
    else match ParseUsize(digits)
      case None => Rejected(BadLength)
      case Some(n) => Length(n)
  }

  function MatchWord(b: Bytes): Option<OpWord>
    requires |b| == 4
  {
    if b == GET_WORD + [COLON] then Some(GetWord)
    else if b == SET_WORD + [COLON] then Some(SetWord)
    else if b == ECHO_WORD then Some(EchoWord)
    else None
  }

  /** Where reading goes on after the word: an absolute position in the buffer. */
  function WordEnd(w: OpWord): nat {
    if w == EchoWord then 4 else 3
  }

  function KeyLen(w: OpWord, between: bool, digits: Bytes, b: Bytes): Outcome
    decreases |b|
  {
    if b == [] then Incomplete
    else if !between then
      if b[0] != COLON then Fail(ExpectedColon) else KeyLen(w, true, digits, b[1..])
    else if b[0] == COLON then
      match ParseLength(digits)
      case Rejected(e) => Fail(e)
      case Length(n) => if w == EchoWord then EchoBody(n, [], b[1..]) else KeyBody(w, n, [], b[1..])
    else KeyLen(w, true, digits + [b[0]], b[1..])
  }

  function EchoBody(n: nat, msg: Bytes, b: Bytes): Outcome
    decreases |b|
  {
    if |msg| >= n then Complete(Echo(msg), b)
    else if b == [] then Incomplete
    else EchoBody(n, msg + [b[0]], b[1..])
  }

  function KeyBody(w: OpWord, n: nat, key: Bytes, b: Bytes): Outcome
    decreases |b|, 1
  {
    if |key| >= n then if w == GetWord then Finish(Get(key), b) else ValueLen(key, false, [], b)
    else if b == [] then Incomplete
    else KeyBody(w, n, key + [b[0]], b[1..])
  }

  function ValueLen(key: Bytes, between: bool, digits: Bytes, b: Bytes): Outcome
    decreases |b|, 0
  {
    if b == [] then Incomplete
    else if !between then
      if b[0] != COLON then Fail(ExpectedColon) else ValueLen(key, true, digits, b[1..])
    else if b[0] == COLON then
      match ParseLength(digits)
      case Rejected(e) => Fail(e)
      case Length(n) => ValueBody(key, n, [], b[1..])
    else ValueLen(key, true, digits + [b[0]], b[1..])
  }

  function ValueBody(key: Bytes, n: nat, value: Bytes, b: Bytes): Outcome
    decreases |b|
  {
    if |value| >= n then Finish(Set(key, value), b)
    else if b == [] then Incomplete
    else ValueBody(key, n, value + [b[0]], b[1..])
  }

  function Finish(op: ProtoOp, b: Bytes): Outcome
    requires op.Get? || op.Set?
  {
    if ValidUtf8(op.key) then Complete(op, b) else Fail(KeyNotUtf8)
  }

  /** A whole operation at the start of a stream. */
  function Parse(b: Bytes): Outcome
    requires |b| >= MIN_BUF_SIZE
  {
    match MatchWord(b[..4])
    case None => Fail(UnknownOp)
    case Some(w) => KeyLen(w, false, [], b[WordEnd(w)..])
  }

  /** The bytes of a printed command, exactly: its word, and for each field a colon, the length in decimal without
      leading zeros, a colon and the bytes. */
  lemma PrintExact(op: ProtoOp, b: Bytes)
    requires IsCommandKind(op)
    ensures b == Print(op) <==>
            match op
            case Get(key) => exists d :: Denotes(d, |key|) && b == [71, 69, 84, 58] + d + [58] + key
            case Set(key, value) =>
              exists d, d' :: Denotes(d, |key|) && Denotes(d', |value|)
                              && b == [83, 69, 84, 58] + d + [58] + key + [58] + d' + [58] + value
            case Echo(msg) => exists d :: Denotes(d, |msg|) && b == [69, 67, 72, 79, 58] + d + [58] + msg
  {
    hide Decimal, Denotes, Field;
    match op
    case Get(key) =>
      OnlyDecimal(|key|);
      PrintedGet(key);
    case Set(key, value) =>
      OnlyDecimal(|key|);
      OnlyDecimal(|value|);
      PrintedSet(key, value);
      assert Denotes(Decimal(|key|), |key|) && Denotes(Decimal(|value|), |value|);
    case Echo(msg) =>
      OnlyDecimal(|msg|);
      PrintedEcho(msg);
  }

  lemma PrintedGet(data: Bytes)
    ensures Print(Get(data)) == [71, 69, 84, 58] + Decimal(|data|) + [58] + data
  {
    hide Field, Decimal;
    FieldBytes(GET_WORD, data);
    assert GET_WORD + [58] == [71, 69, 84, 58];
  }

  lemma PrintedEcho(data: Bytes)
    ensures Print(Echo(data)) == [69, 67, 72, 79, 58] + Decimal(|data|) + [58] + data
  {
    hide Field, Decimal;
    FieldBytes(ECHO_WORD, data);
    assert ECHO_WORD + [58] == [69, 67, 72, 79, 58];
  }

  lemma FieldBytes(word: Bytes, data: Bytes)
    ensures word + Field(data) == word + [58] + Decimal(|data|) + [58] + data
  {
    hide Decimal;
    FiveParts(word, [COLON], Decimal(|data|), [COLON], data);
  }

  lemma FiveParts(a: Bytes, b: Bytes, c: Bytes, d: Bytes, e: Bytes)
    ensures a + (b + c + d + e) == a + b + c + d + e
  {
    Associates(a, b + c + d, e);
    Associates(a, b + c, d);
    Associates(a, b, c);
  }

  lemma PrintedSet(key: Bytes, value: Bytes)
    ensures Print(Set(key, value))
         == [83, 69, 84, 58] + Decimal(|key|) + [58] + key + [58] + Decimal(|value|) + [58] + value
  {
    hide Field;
    FieldBytes(SET_WORD, key);
    FieldBytes(SET_WORD + Field(key), value);
    assert SET_WORD + [58] == [83, 69, 84, 58];
    Associates(SET_WORD, Field(key), Field(value));
  }

  lemma OnlyDecimal(n: nat)
    ensures forall d :: Denotes(d, n) <==> d == Decimal(n)
  {
    hide Decimal, Denotes;
    forall d: Bytes { DecimalExact(d, n); }
  }

  // ---------------------------------------------------------------- decisions are final

  /** An outcome on some bytes stays the same when more bytes follow, which only lengthen what is left. */
  predicate Stands(o: Outcome, o': Outcome, more: Bytes) {
    match o
    case Incomplete => true
    case Fail(_) => o' == o
    case Complete(op, rest) => o' == Complete(op, rest + more)
  }

  lemma {:induction false} EchoBodyStands(n: nat, msg: Bytes, b: Bytes, more: Bytes)
    ensures Stands(EchoBody(n, msg, b), EchoBody(n, msg, b + more), more)
    decreases |b|
  {
    if |msg| < n && b != [] {
      assert (b + more)[1..] == b[1..] + more;
      EchoBodyStands(n, msg + [b[0]], b[1..], more);
    }
  }

  lemma {:induction false} ValueBodyStands(key: Bytes, n: nat, value: Bytes, b: Bytes, more: Bytes)
    ensures Stands(ValueBody(key, n, value, b), ValueBody(key, n, value, b + more), more)
    decreases |b|
  {
    hide ValidUtf8;
    if |value| < n && b != [] {
      assert (b + more)[1..] == b[1..] + more;
      ValueBodyStands(key, n, value + [b[0]], b[1..], more);
    }
  }

  lemma {:induction false} ValueLenStands(key: Bytes, between: bool, digits: Bytes, b: Bytes, more: Bytes)
    ensures Stands(ValueLen(key, between, digits, b), ValueLen(key, between, digits, b + more), more)
    decreases |b|
  {
    hide ValueBody, ParseLength;
    if b != [] {
      assert (b + more)[0] == b[0] && (b + more)[1..] == b[1..] + more;
      if !between || b[0] != COLON {
        ValueLenStands(key, true, if between then digits + [b[0]] else digits, b[1..], more);
      } else if ParseLength(digits).Length? {
        ValueBodyStands(key, ParseLength(digits).n, [], b[1..], more);
      }
    }
  }

  lemma {:induction false} KeyBodyStands(w: OpWord, n: nat, key: Bytes, b: Bytes, more: Bytes)
    ensures Stands(KeyBody(w, n, key, b), KeyBody(w, n, key, b + more), more)
    decreases |b|
  {
    hide ValidUtf8, ValueLen;
    ValueLenStands(key, false, [], b, more);
    if |key| < n && b != [] {
      assert (b + more)[1..] == b[1..] + more;
      KeyBodyStands(w, n, key + [b[0]], b[1..], more);
    }
  }

  lemma {:induction false} KeyLenStands(w: OpWord, between: bool, digits: Bytes, b: Bytes, more: Bytes)
    ensures Stands(KeyLen(w, between, digits, b), KeyLen(w, between, digits, b + more), more)
    decreases |b|
  {
    hide EchoBody, KeyBody, ParseLength;
    if b != [] {
      assert (b + more)[0] == b[0] && (b + more)[1..] == b[1..] + more;
      var n := ParseLength(digits);
      if !between || b[0] != COLON {
        KeyLenStands(w, true, if between then digits + [b[0]] else digits, b[1..], more);
      } else if n.Length? && w == EchoWord {
        EchoBodyStands(n.n, [], b[1..], more);
      } else if n.Length? {
        KeyBodyStands(w, n.n, [], b[1..], more);
      }
    }
  }

  /** What the reader has decided, for or against an operation, later bytes never change. */
  lemma DecisionsAreFinal(b: Bytes, more: Bytes)
    requires |b| >= MIN_BUF_SIZE
    ensures Stands(Parse(b), Parse(b + more), more)
  {
    hide KeyLen, MatchWord;
    assert (b + more)[..4] == b[..4];
    var word := MatchWord(b[..4]);
    if word.Some? {
      var k := WordEnd(word.value);
      assert (b + more)[k..] == b[k..] + more;
      KeyLenStands(word.value, false, [], b[k..], more);
    }
  }

  // ---------------------------------------------------------------- the language the parser accepts

  predicate NoColon(b: Bytes) {
    forall i :: 0 <= i < |b| ==> b[i] != COLON
  }

  /** A spelling of the number `n` as a length. */
  predicate Measures(digits: Bytes, n: nat) {
    NoColon(digits) && ParseLength(digits) == Length(n)
  }

  /** The stream is the operation word, the fields with these length spellings, and `rest`. */
  predicate IsSpelling(b: Bytes, op: ProtoOp, rest: Bytes, d: Bytes, d': Bytes) {
    match op
    case Get(key) => ValidUtf8(key) && Measures(d, |key|) && b == GET_WORD + (Spelled(d, key) + rest)
    case Set(key, value) =>
      && ValidUtf8(key) && Measures(d, |key|) && Measures(d', |value|)
      && b == SET_WORD + (Spelled(d, key) + (Spelled(d', value) + rest))
    case Echo(msg) => Measures(d, |msg|) && b == ECHO_WORD + (Spelled(d, msg) + rest)
    case _ => false
  }

  // ---------------------------------------------------------------- spellings parse

  lemma {:induction false} KeyLenDigits(w: OpWord, digits: Bytes, more: Bytes, rest: Bytes)
    requires NoColon(more)
    ensures KeyLen(w, true, digits, more + ([COLON] + rest)) == KeyLen(w, true, digits + more, [COLON] + rest)
    decreases |more|
  {
    hide ParseLength, EchoBody, KeyBody;
    var b := more + ([COLON] + rest);
    if more == [] {
      assert b == [COLON] + rest && digits + more == digits;
    } else {
      assert b[0] == more[0] && b[1..] == more[1..] + ([COLON] + rest);
      assert digits + [more[0]] + more[1..] == digits + more;
      KeyLenDigits(w, digits + [more[0]], more[1..], rest);
    }
  }

  lemma {:induction false} ValueLenDigits(key: Bytes, digits: Bytes, more: Bytes, rest: Bytes)
    requires NoColon(more)
    ensures ValueLen(key, true, digits, more + ([COLON] + rest)) == ValueLen(key, true, digits + more, [COLON] + rest)
    decreases |more|
  {
    hide ParseLength, ValueBody;
    var b := more + ([COLON] + rest);
    if more == [] {
      assert b == [COLON] + rest && digits + more == digits;
    } else {
      assert b[0] == more[0] && b[1..] == more[1..] + ([COLON] + rest);
      assert digits + [more[0]] + more[1..] == digits + more;
      ValueLenDigits(key, digits + [more[0]], more[1..], rest);
    }
  }

  lemma {:induction false} EchoBodyTakes(n: nat, msg: Bytes, more: Bytes, rest: Bytes)
    requires |msg| + |more| <= n
    ensures EchoBody(n, msg, more + rest) == EchoBody(n, msg + more, rest)
    decreases |more|
  {
    if more == [] {
      assert more + rest == rest && msg + more == msg;
    } else {
      assert (more + rest)[1..] == more[1..] + rest;
      assert msg + [more[0]] + more[1..] == msg + more;
      EchoBodyTakes(n, msg + [more[0]], more[1..], rest);
    }
  }

  lemma {:induction false} KeyBodyTakes(w: OpWord, n: nat, key: Bytes, more: Bytes, rest: Bytes)
    requires |key| + |more| <= n
    ensures KeyBody(w, n, key, more + rest) == KeyBody(w, n, key + more, rest)
    decreases |more|
  {
    if more == [] {
      assert more + rest == rest && key + more == key;
    } else {
      assert (more + rest)[1..] == more[1..] + rest;
      assert key + [more[0]] + more[1..] == key + more;
      KeyBodyTakes(w, n, key + [more[0]], more[1..], rest);
    }
  }

  lemma {:induction false} ValueBodyTakes(key: Bytes, n: nat, value: Bytes, more: Bytes, rest: Bytes)
    requires |value| + |more| <= n
    ensures ValueBody(key, n, value, more + rest) == ValueBody(key, n, value + more, rest)
    decreases |more|
  {
    if more == [] {
      assert more + rest == rest && value + more == value;
    } else {
      assert (more + rest)[1..] == more[1..] + rest;
      assert value + [more[0]] + more[1..] == value + more;
      ValueBodyTakes(key, n, value + [more[0]], more[1..], rest);
    }
  }

  /** A spelled field at the key position. */
  lemma KeyField(w: OpWord, digits: Bytes, data: Bytes, rest: Bytes)
    requires Measures(digits, |data|)
    ensures KeyLen(w, false, [], Spelled(digits, data) + rest)
         == if w == EchoWord then Complete(Echo(data), rest) else KeyBody(w, |data|, data, rest)
  {
    hide ParseLength, KeyBody;
    var tail := data + rest;
    var b := Spelled(digits, data) + rest;
    assert b == [COLON] + (digits + ([COLON] + tail));
    assert b[1..] == digits + ([COLON] + tail);
    KeyLenDigits(w, [], digits, tail);
    assert [] + digits == digits && ([COLON] + tail)[1..] == tail;
    if w == EchoWord {
      EchoBodyTakes(|data|, [], data, rest);
      assert [] + data == data;
    } else {
      KeyBodyTakes(w, |data|, [], data, rest);
      assert [] + data == data;
    }
  }

  /** A spelled field at the value position. */
  lemma ValueField(key: Bytes, digits: Bytes, data: Bytes, rest: Bytes)
    requires Measures(digits, |data|)
    ensures ValueLen(key, false, [], Spelled(digits, data) + rest) == Finish(Set(key, data), rest)
  {
    hide ParseLength, ValidUtf8, Finish;
    var tail := data + rest;
    var b := Spelled(digits, data) + rest;
    assert b == [COLON] + (digits + ([COLON] + tail));
    assert b[1..] == digits + ([COLON] + tail);
    ValueLenDigits(key, [], digits, tail);
    assert [] + digits == digits && ([COLON] + tail)[1..] == tail;
    ValueBodyTakes(key, |data|, [], data, rest);
    assert [] + data == data;
  }

  lemma WordsMatch()
    ensures MatchWord(GET_WORD + [COLON]) == Some(GetWord)
    ensures MatchWord(SET_WORD + [COLON]) == Some(SetWord)
    ensures MatchWord(ECHO_WORD) == Some(EchoWord)
  {
    assert (SET_WORD + [COLON])[0] != (GET_WORD + [COLON])[0];
    assert ECHO_WORD[0] != (GET_WORD + [COLON])[0] && ECHO_WORD[0] != (SET_WORD + [COLON])[0];
  }

  lemma WordThenField(word: Bytes, field: Bytes)
    requires |word| == 3 && field != [] && field[0] == COLON
    ensures var b := word + field;
            |b| >= 4 && b[..4] == word + [COLON] && b[3..] == field
  {
  }

  lemma EchoThenField(field: Bytes)
    ensures var b := ECHO_WORD + field;
            |b| >= 4 && b[..4] == ECHO_WORD && b[4..] == field
  {
  }

  lemma SpellingParses(b: Bytes, op: ProtoOp, rest: Bytes, d: Bytes, d': Bytes)
    requires IsSpelling(b, op, rest, d, d')
    ensures |b| >= MIN_BUF_SIZE && Parse(b) == Complete(op, rest)
  {
    hide ValidUtf8, MatchWord, KeyLen, ValueLen, Measures;
    WordsMatch();
    match op {
      case Get(key) =>
        WordThenField(GET_WORD, Spelled(d, key) + rest);
        KeyField(GetWord, d, key, rest);
      case Set(key, value) =>
        WordThenField(SET_WORD, Spelled(d, key) + (Spelled(d', value) + rest));
        KeyField(SetWord, d, key, Spelled(d', value) + rest);
        ValueField(key, d', value, rest);
      case Echo(msg) =>
        EchoThenField(Spelled(d, msg) + rest);
        KeyField(EchoWord, d, msg, rest);
    }
  }

  // ---------------------------------------------------------------- fields that fail

  /** Where a field should be there is none: no colon, or a length that is not UTF-8 or no number. */
  ghost predicate BadLengthAt(b: Bytes, e: ProtoError) {
    || (b != [] && b[0] != COLON && e == ExpectedColon)
    || (exists d, rest :: IsBadLength(b, d, rest, e))
  }

  ghost predicate IsBadLength(b: Bytes, d: Bytes, rest: Bytes, e: ProtoError) {
    && NoColon(d) && b == Spelled(d, rest)
    && (if !ValidUtf8(d) then e == LengthNotUtf8 else ParseUsize(d).None? && e == BadLength)
  }

  ghost predicate IsField(b: Bytes, d: Bytes, data: Bytes, rest: Bytes) {
    Measures(d, |data|) && b == Spelled(d, data) + rest
  }

  /** What is wrong with the fields behind a word: the first length; or, behind a whole first field, a lookup's key
      that is not UTF-8, an update's second length, or, behind a whole second field, an update's key. */
  ghost predicate IsFaulty(w: OpWord, b: Bytes, e: ProtoError) {
    || BadLengthAt(b, e)
    || (exists d, key, rest :: IsField(b, d, key, rest) && BehindKeyFaulty(w, key, rest, e))
  }

  ghost predicate BehindKeyFaulty(w: OpWord, key: Bytes, rest: Bytes, e: ProtoError) {
    match w
    case EchoWord => false
    case GetWord => !ValidUtf8(key) && e == KeyNotUtf8
    case SetWord =>
      || BadLengthAt(rest, e)
      || (!ValidUtf8(key) && e == KeyNotUtf8 && exists d, value, rest' :: IsField(rest, d, value, rest'))
  }

  lemma BadKeyLength(w: OpWord, b: Bytes, e: ProtoError)
    requires BadLengthAt(b, e)
    ensures KeyLen(w, false, [], b) == Fail(e)
  {
    hide ValidUtf8, ParseUsize, EchoBody, KeyBody;
    if b[0] == COLON {
      var d, rest :| IsBadLength(b, d, rest, e);
      assert b[1..] == d + ([COLON] + rest);
      KeyLenDigits(w, [], d, rest);
      assert [] + d == d;
    }
  }

  lemma BadValueLength(key: Bytes, b: Bytes, e: ProtoError)
    requires BadLengthAt(b, e)
    ensures ValueLen(key, false, [], b) == Fail(e)
  {
    hide ValidUtf8, ParseUsize, ValueBody;
    if b[0] == COLON {
      var d, rest :| IsBadLength(b, d, rest, e);
      assert b[1..] == d + ([COLON] + rest);
      ValueLenDigits(key, [], d, rest);
      assert [] + d == d;
    }
  }

  lemma FaultyFails(w: OpWord, b: Bytes, e: ProtoError)
    requires IsFaulty(w, b, e)
    ensures KeyLen(w, false, [], b) == Fail(e)
  {
    hide BadLengthAt, Measures, Spelled, ValidUtf8, KeyLen, KeyBody, ValueLen;
    if BadLengthAt(b, e) {
      BadKeyLength(w, b, e);
    } else {
      var d, key, rest :| IsField(b, d, key, rest) && BehindKeyFaulty(w, key, rest, e);
      KeyField(w, d, key, rest);
      KeyBodyDone(w, key, rest);
      if w == SetWord {
        if BadLengthAt(rest, e) {
          BadValueLength(key, rest, e);
        } else {
          var d', value, rest' :| IsField(rest, d', value, rest');
          ValueField(key, d', value, rest');
        }
      }
    }
  }

  lemma FailsOnlyFaulty(w: OpWord, b: Bytes, e: ProtoError)
    requires KeyLen(w, false, [], b) == Fail(e)
    ensures IsFaulty(w, b, e)
  {
    hide BadLengthAt, Measures, Spelled, ValidUtf8, KeyLen, KeyBody, ValueLen;
    if !BadLengthAt(b, e) {
      var d, key, rest := KeyFieldInverse(w, b);
      assert IsField(b, d, key, rest);
      KeyBodyDone(w, key, rest);
      if w == SetWord && !BadLengthAt(rest, e) {
        var d', value, rest' := ValueFieldInverse(key, rest);
        assert IsField(rest, d', value, rest');
      }
    }
  }

  /** Exactly when parsing fails, and how: with an unknown operation if and only if the first four bytes are none of
      the three words; with any other error if and only if the fields behind the word have that fault. */
  lemma ErrorExact(b: Bytes, e: ProtoError)
    requires |b| >= MIN_BUF_SIZE
    ensures Parse(b) == Fail(e) <==>
            match MatchWord(b[..4])
            case None => e == UnknownOp
            case Some(w) => IsFaulty(w, b[WordEnd(w)..], e)
  {
    hide MatchWord, KeyLen, IsFaulty;
    var word := MatchWord(b[..4]);
    if word.Some? {
      var w, x := word.value, b[WordEnd(word.value)..];
      if Parse(b) == Fail(e) { FailsOnlyFaulty(w, x, e); }
      if IsFaulty(w, x, e) { FaultyFails(w, x, e); }
    }
  }

  /** The errors a field can have. */
  predicate FieldError(e: ProtoError) {
    e == ExpectedColon || e == LengthNotUtf8 || e == BadLength || e == KeyNotUtf8
  }

  /** The words byte by byte; every failure but an unknown operation is a field's, and a missing word is never
      reported. */
  lemma UnknownOpExact(b: Bytes)
    requires |b| >= MIN_BUF_SIZE
    ensures Parse(b) == Fail(UnknownOp) <==>
            b[..4] != [71, 69, 84, 58] && b[..4] != [83, 69, 84, 58] && b[..4] != [69, 67, 72, 79]
    ensures Parse(b) != Fail(UnknownOp) && Parse(b).Fail? ==> FieldError(Parse(b).error)
    ensures Parse(b) != Fail(ShortOp)
  {
    hide Parse, ValidUtf8, Measures, Spelled;
    assert GET_WORD + [COLON] == [71, 69, 84, 58] && SET_WORD + [COLON] == [83, 69, 84, 58];
    ErrorExact(b, UnknownOp);
    if Parse(b).Fail? { ErrorExact(b, Parse(b).error); }
  }

  // ---------------------------------------------------------------- nothing else parses

  lemma TakeOne(data: Bytes, b: Bytes, m: nat)
    requires 0 < m && b != [] && m - 1 <= |b[1..]|
    ensures data + [b[0]] + b[1..][..m - 1] == data + b[..m]
    ensures b[1..][m - 1..] == b[m..]
  {
  }

  lemma SpelledParts(b: Bytes, digits: Bytes, tail: Bytes, n: nat)
    requires b != [] && b[0] == COLON && b[1..] == digits + ([COLON] + tail) && n <= |tail|
    ensures b == Spelled(digits, tail[..n]) + tail[n..]
  {
    assert b == [COLON] + b[1..];
    assert tail == tail[..n] + tail[n..];
  }

  lemma {:induction false} EchoBodyInverse(n: nat, msg: Bytes, b: Bytes)
    requires |msg| <= n && !EchoBody(n, msg, b).Incomplete?
    ensures var m := n - |msg|; m <= |b| && EchoBody(n, msg, b) == Complete(Echo(msg + b[..m]), b[m..])
    decreases |b|
  {
    if |msg| == n {
      assert msg + b[..0] == msg;
    } else {
      EchoBodyInverse(n, msg + [b[0]], b[1..]);
      TakeOne(msg, b, n - |msg|);
    }
  }

  lemma {:induction false} KeyBodyInverse(w: OpWord, n: nat, key: Bytes, b: Bytes)
    requires |key| <= n && !KeyBody(w, n, key, b).Incomplete?
    ensures var m := n - |key|; m <= |b| && KeyBody(w, n, key, b) == KeyBody(w, n, key + b[..m], b[m..])
    decreases |b|
  {
    hide ValidUtf8, ValueLen, Finish;
    if |key| == n {
      assert key + b[..0] == key && b[0..] == b;
    } else {
      KeyBodyInverse(w, n, key + [b[0]], b[1..]);
      TakeOne(key, b, n - |key|);
    }
  }

  lemma {:induction false} ValueBodyInverse(key: Bytes, n: nat, value: Bytes, b: Bytes)
    requires |value| <= n && !ValueBody(key, n, value, b).Incomplete?
    ensures var m := n - |value|;
            m <= |b| && ValueBody(key, n, value, b) == Finish(Set(key, value + b[..m]), b[m..])
    decreases |b|
  {
    hide ValidUtf8;
    if |value| == n {
      assert value + b[..0] == value;
    } else {
      ValueBodyInverse(key, n, value + [b[0]], b[1..]);
      TakeOne(value, b, n - |value|);
    }
  }

  function AfterKeyLen(w: OpWord, digits: Bytes, b: Bytes): Outcome {
    match ParseLength(digits)
    case Rejected(e) => Fail(e)
    case Length(n) => if w == EchoWord then EchoBody(n, [], b) else KeyBody(w, n, [], b)
  }

  function AfterValueLen(key: Bytes, digits: Bytes, b: Bytes): Outcome {
    match ParseLength(digits)
    case Rejected(e) => Fail(e)
    case Length(n) => ValueBody(key, n, [], b)
  }

  lemma {:induction false} KeyLenInverse(w: OpWord, digits: Bytes, b: Bytes) returns (more: Bytes, rest: Bytes)
    requires !KeyLen(w, true, digits, b).Incomplete?
    ensures NoColon(more) && b == more + ([COLON] + rest)
    ensures KeyLen(w, true, digits, b) == AfterKeyLen(w, digits + more, rest)
    decreases |b|
  {
    hide ParseLength, EchoBody, KeyBody;
    if b[0] == COLON {
      more, rest := [], b[1..];
      assert digits + more == digits;
    } else {
      more, rest := KeyLenInverse(w, digits + [b[0]], b[1..]);
      assert digits + [b[0]] + more == digits + ([b[0]] + more);
      more := [b[0]] + more;
    }
  }

  lemma {:induction false} ValueLenInverse(key: Bytes, digits: Bytes, b: Bytes) returns (more: Bytes, rest: Bytes)
    requires !ValueLen(key, true, digits, b).Incomplete?
    ensures NoColon(more) && b == more + ([COLON] + rest)
    ensures ValueLen(key, true, digits, b) == AfterValueLen(key, digits + more, rest)
    decreases |b|
  {
    hide ParseLength, ValueBody;
    if b[0] == COLON {
      more, rest := [], b[1..];
      assert digits + more == digits;
    } else {
      more, rest := ValueLenInverse(key, digits + [b[0]], b[1..]);
      assert digits + [b[0]] + more == digits + ([b[0]] + more);
      more := [b[0]] + more;
    }
  }

  lemma RejectedIsBad(b: Bytes, digits: Bytes, tail: Bytes)
    requires b != [] && b[0] == COLON && b[1..] == digits + ([COLON] + tail) && NoColon(digits)
    requires ParseLength(digits).Rejected?
    ensures BadLengthAt(b, ParseLength(digits).error)
  {
    hide ValidUtf8, ParseUsize;
    assert b == Spelled(digits, tail);
    assert IsBadLength(b, digits, tail, ParseLength(digits).error);
  }

  /** What a field at the value position was, unless its length was bad. */
  lemma ValueFieldInverse(key: Bytes, b: Bytes) returns (digits: Bytes, data: Bytes, rest: Bytes)
    requires !ValueLen(key, false, [], b).Incomplete?
    requires ValueLen(key, false, [], b).Fail? ==> !BadLengthAt(b, ValueLen(key, false, [], b).error)
    ensures Measures(digits, |data|) && b == Spelled(digits, data) + rest
    ensures ValueLen(key, false, [], b) == Finish(Set(key, data), rest)
  {
    hide ParseLength, ValidUtf8, ValueBody, Spelled, Finish;
    assert b[0] == COLON;
    var tail;
    digits, tail := ValueLenInverse(key, [], b[1..]);
    assert [] + digits == digits;
    if ParseLength(digits).Rejected? { RejectedIsBad(b, digits, tail); }
    var n := ParseLength(digits).n;
    ValueBodyInverse(key, n, [], tail);
    data, rest := tail[..n], tail[n..];
    assert [] + data == data;
    SpelledParts(b, digits, tail, n);
  }

  /** What a field at the key position was, unless its length was bad. */
  lemma KeyFieldInverse(w: OpWord, b: Bytes) returns (digits: Bytes, data: Bytes, rest: Bytes)
    requires !KeyLen(w, false, [], b).Incomplete?
    requires KeyLen(w, false, [], b).Fail? ==> !BadLengthAt(b, KeyLen(w, false, [], b).error)
    ensures Measures(digits, |data|) && b == Spelled(digits, data) + rest
    ensures KeyLen(w, false, [], b)
         == if w == EchoWord then Complete(Echo(data), rest) else KeyBody(w, |data|, data, rest)
  {
    hide ParseLength, EchoBody, KeyBody, Spelled;
    assert b[0] == COLON;
    var tail;
    digits, tail := KeyLenInverse(w, [], b[1..]);
    assert [] + digits == digits;
    if ParseLength(digits).Rejected? { RejectedIsBad(b, digits, tail); }
    var n := ParseLength(digits).n;
    if w == EchoWord {
      EchoBodyInverse(n, [], tail);
    } else {
      KeyBodyInverse(w, n, [], tail);
    }
    data, rest := tail[..n], tail[n..];
    assert [] + data == data;
    SpelledParts(b, digits, tail, n);
  }

  lemma KeyBodyDone(w: OpWord, key: Bytes, rest: Bytes)
    ensures KeyBody(w, |key|, key, rest)
         == if w == GetWord then Finish(Get(key), rest) else ValueLen(key, false, [], rest)
  {
    hide ValidUtf8, ValueLen;
  }

  lemma WordOfStream(b: Bytes)
    requires |b| >= 4 && MatchWord(b[..4]).Some?
    ensures match MatchWord(b[..4]).value
            case GetWord => b == GET_WORD + b[3..]
            case SetWord => b == SET_WORD + b[3..]
            case EchoWord => b == ECHO_WORD + b[4..]
  {
    assert b == b[..4] + b[4..];
    assert forall i :: 0 <= i < 4 ==> b[..4][i] == b[i];
  }

  /** The bytes of an operation word that are not read again. */
  function WordText(w: OpWord): Bytes {
    match w
    case GetWord => GET_WORD
    case SetWord => SET_WORD
    case EchoWord => ECHO_WORD
  }

  function WordOf(op: ProtoOp): OpWord
    requires IsCommandKind(op)
  {
    if op.Get? then GetWord else if op.Set? then SetWord else EchoWord
  }

  lemma ReadIsSpelled(w: OpWord, x: Bytes) returns (d: Bytes, d': Bytes)
    requires KeyLen(w, false, [], x).Complete?
    ensures var o := KeyLen(w, false, [], x);
            IsCommandKind(o.op) && w == WordOf(o.op) && IsSpelling(WordText(w) + x, o.op, o.rest, d, d')
  {
    hide ValidUtf8, KeyLen, ValueLen, Measures, Spelled, KeyBody;
    var data, rest;
    d, data, rest := KeyFieldInverse(w, x);
    d' := [];
    if w != EchoWord {
      KeyBodyDone(w, data, rest);
      if w == SetWord {
        var value, tail;
        d', value, tail := ValueFieldInverse(data, rest);
      }
    }
  }

  /** Only spelled commands parse. */
  lemma ParsedIsSpelled(b: Bytes) returns (d: Bytes, d': Bytes)
    requires |b| >= MIN_BUF_SIZE && Parse(b).Complete?
    ensures IsSpelling(b, Parse(b).op, Parse(b).rest, d, d')
  {
    hide MatchWord, KeyLen, IsSpelling;
    WordOfStream(b);
    var w := MatchWord(b[..4]).value;
    d, d' := ReadIsSpelled(w, b[WordEnd(w)..]);
  }

  /** The parser accepts exactly the spelled commands, and returns exactly what was spelled. */
  lemma ParseExact(b: Bytes, op: ProtoOp, rest: Bytes)
    requires |b| >= MIN_BUF_SIZE
    ensures Parse(b) == Complete(op, rest) <==> exists d, d' :: IsSpelling(b, op, rest, d, d')
  {
    hide Parse, IsSpelling;
    if Parse(b) == Complete(op, rest) {
      var d, d' := ParsedIsSpelled(b);
    }
    forall d, d' | IsSpelling(b, op, rest, d, d') ensures Parse(b) == Complete(op, rest) {
      SpellingParses(b, op, rest, d, d');
    }
  }

  // ---------------------------------------------------------------- behind a word

  /** Behind a word, a command is read if and only if it is a command of that word and is spelled there. */
  lemma BehindWordExact(w: OpWord, x: Bytes, op: ProtoOp, rest: Bytes)
    ensures KeyLen(w, false, [], x) == Complete(op, rest) <==>
            IsCommandKind(op) && w == WordOf(op) && exists d, d' :: IsSpelling(WordText(w) + x, op, rest, d, d')
  {
    hide IsSpelling, KeyLen;
    if KeyLen(w, false, [], x) == Complete(op, rest) {
      var d, d' := ReadIsSpelled(w, x);
    }
    if IsCommandKind(op) && w == WordOf(op) {
      forall d, d' | IsSpelling(WordText(w) + x, op, rest, d, d')
        ensures KeyLen(w, false, [], x) == Complete(op, rest)
      {
        SpelledIsRead(w, x, op, rest, d, d');
      }
    }
  }

  lemma SpelledIsRead(w: OpWord, x: Bytes, op: ProtoOp, rest: Bytes, d: Bytes, d': Bytes)
    requires IsCommandKind(op) && w == WordOf(op) && IsSpelling(WordText(w) + x, op, rest, d, d')
    ensures KeyLen(w, false, [], x) == Complete(op, rest)
  {
    hide ValidUtf8, KeyLen, ValueLen, Measures, Spelled;
    match op
    case Get(key) =>
      Cancels(GET_WORD, x, Spelled(d, key) + rest);
      KeyField(w, d, key, rest);
      KeyBodyDone(w, key, rest);
    case Set(key, value) =>
      Cancels(SET_WORD, x, Spelled(d, key) + (Spelled(d', value) + rest));
      KeyField(w, d, key, Spelled(d', value) + rest);
      KeyBodyDone(w, key, Spelled(d', value) + rest);
      ValueField(key, d', value, rest);
    case Echo(msg) =>
      Cancels(ECHO_WORD, x, Spelled(d, msg) + rest);
      KeyField(w, d, msg, rest);
  }

  lemma Cancels(word: Bytes, x: Bytes, y: Bytes)
    requires word + x == word + y
    ensures x == y
  {
    assert x == (word + x)[|word|..] && y == (word + y)[|word|..];
  }

  /** A read that ends before `more` is decided by the bytes before it, and only such a one is. */
  lemma EndsBeforeIff(w: OpWord, x: Bytes, more: Bytes, op: ProtoOp)
    ensures var o, o' := KeyLen(w, false, [], x), KeyLen(w, false, [], x + more);
            (o'.Complete? && o'.op == op && |o'.rest| >= |more|) <==> (o.Complete? && o.op == op)
  {
    hide KeyLen, IsSpelling;
    var o, o' := KeyLen(w, false, [], x), KeyLen(w, false, [], x + more);
    KeyLenStands(w, false, [], x, more);
    if o'.Complete? && |o'.rest| >= |more| {
      var d, d' := ReadIsSpelled(w, x + more);
      var rest := CutSpelling(w, x, more, o'.op, o'.rest, d, d');
      SpelledIsRead(w, x, o'.op, rest, d, d');
    }
  }

  lemma CutSpelling(w: OpWord, x: Bytes, more: Bytes, op: ProtoOp, rest: Bytes, d: Bytes, d': Bytes)
      returns (left: Bytes)
    requires IsCommandKind(op) && w == WordOf(op) && IsSpelling(WordText(w) + (x + more), op, rest, d, d')
    requires |rest| >= |more|
    ensures IsSpelling(WordText(w) + x, op, left, d, d')
  {
    hide ValidUtf8, Measures, Spelled;
    match op
    case Get(key) =>
      left := CutAt(WordText(w), x, more, Spelled(d, key), rest);
    case Set(key, value) =>
      Associates(Spelled(d, key), Spelled(d', value), rest);
      left := CutAt(WordText(w), x, more, Spelled(d, key) + Spelled(d', value), rest);
      Associates(Spelled(d, key), Spelled(d', value), left);
    case Echo(msg) =>
      left := CutAt(WordText(w), x, more, Spelled(d, msg), rest);
  }

  lemma CutAt(word: Bytes, x: Bytes, more: Bytes, fields: Bytes, rest: Bytes) returns (left: Bytes)
    requires word + (x + more) == word + (fields + rest) && |rest| >= |more|
    ensures word + x == word + (fields + left)
  {
    Cancels(word, x + more, fields + rest);
    left := rest[..|rest| - |more|];
    assert |x + more| == |x| + |more| && |fields + rest| == |fields| + |rest|;
    assert x == (x + more)[..|x|] && fields + left == (fields + rest)[..|x|];
  }

  // ---------------------------------------------------------------- printing and parsing are inverse

  lemma {:induction false} DigitsUtf8(s: Bytes)
    requires AllDigits(s)
    ensures ValidUtf8(s)
  {
    if s != [] {
      assert AllDigits(s[1..]);
      assert IsDigit(s[0]);
      DigitsUtf8(s[1..]);
    }
  }

  lemma DecimalMeasures(n: nat)
    requires n < U64_LIMIT
    ensures Measures(Decimal(n), n)
  {
    hide Decimal, ValidUtf8, ParseUsize;
    ParseDecimal(n);
    DigitsUtf8(Decimal(n));
    assert forall i :: 0 <= i < |Decimal(n)| ==> IsDigit(Decimal(n)[i]);
  }

  /** Parsing a printed command returns the command and leaves everything behind it, whatever bytes the
      payload holds. */
  lemma ParsePrint(op: ProtoOp, rest: Bytes)
    requires IsCommand(op)
    ensures |Print(op)| >= MIN_BUF_SIZE
    ensures Parse(Print(op) + rest) == Complete(op, rest)
  {
    hide Spelled, ValidUtf8, Measures, Parse, Decimal;
    PrintLong(op);
    match op {
      case Get(key) =>
        DecimalMeasures(|key|);
        Associates(GET_WORD, Field(key), rest);
        SpellingParses(Print(op) + rest, op, rest, Decimal(|key|), []);
      case Set(key, value) =>
        DecimalMeasures(|key|);
        DecimalMeasures(|value|);
        Associates(Field(key), Field(value), rest);
        Associates(SET_WORD, Field(key) + Field(value), rest);
        SpellingParses(Print(op) + rest, op, rest, Decimal(|key|), Decimal(|value|));
      case Echo(msg) =>
        DecimalMeasures(|msg|);
        Associates(ECHO_WORD, Field(msg), rest);
        SpellingParses(Print(op) + rest, op, rest, Decimal(|msg|), []);
    }
  }

  lemma PrintLong(op: ProtoOp)
    requires IsCommandKind(op)
    ensures |Print(op)| >= MIN_BUF_SIZE
  {
    hide Decimal;
  }
}
