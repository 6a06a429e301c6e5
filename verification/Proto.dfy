/** `Proto::read`: the eight-state reader over a buffer that is refilled chunk by chunk. */
module Proto {
  import opened Bytes
  import opened Wire

  /** What the socket yields once the chunks are used up. */
  datatype End = Eof | Killed | Broken

  datatype ReadResult = Ok(op: ProtoOp) | Err(error: ProtoError)

  function AtEnd(end: End): ReadResult {
    match end
    case Eof => Ok(SysClose)
    case Killed => Ok(Cancelled)
    case Broken => Err(SocketError)
  }

  /** An operation cut off by the end of the stream: a clean close and a shutdown are operations of their own, a
      broken socket is an error. */
  lemma EndOfStream()
    ensures Result(Incomplete, Eof) == Ok(SysClose)
    ensures Result(Incomplete, Killed) == Ok(Cancelled)
    ensures Result(Incomplete, Broken) == Err(SocketError)
  {
  }

  // ---------------------------------------------------------------- where an operation starts

  datatype Line = Found(buf: Bytes, after: nat, chunks: seq<Bytes>) | NoLine

  /** The position just behind the first newline at or after `from`, if there is one. */
  function BehindNewline(buf: Bytes, from: nat): Option<nat>
    requires from <= |buf|
    decreases |buf| - from
  {
    if from == |buf| then None
    else if buf[from] == NEWLINE then Some(from + 1)
    else BehindNewline(buf, from + 1)
  }

  /** The rest of the last command up to its newline, through as many chunks as it takes. */
  function SkipLine(buf: Bytes, chunks: seq<Bytes>): Line
    decreases |chunks|
  {
    match BehindNewline(buf, 0)
    case Some(p) => Found(buf, p, chunks)
    case None => NextLine(chunks)
  }

  function NextLine(chunks: seq<Bytes>): Line
    decreases |chunks|, 0
  {
    if chunks == [] then NoLine else SkipLine(chunks[0], chunks[1..])
  }

  /** `At`: four bytes for an operation word lie at `ptr`, with these chunks still to come. */
  datatype Entry = Ended | TooShort | At(buf: Bytes, ptr: nat, chunks: seq<Bytes>)

  function OpAt(buf: Bytes, chunks: seq<Bytes>): Entry {
    if |buf| < MIN_BUF_SIZE then TooShort else At(buf, 0, chunks)
  }

  function AfterLine(line: Line): Entry {
    match line
    case NoLine => Ended
    case Found(buf, p, chunks) =>
      if p + MIN_BUF_SIZE <= |buf| then At(buf, p, chunks)
      else if p > |buf| || chunks == [] then Ended
      else OpAt(buf[p..] + chunks[0], chunks[1..])
  }

  /** Where the next operation starts, for a reader in any state. */
  function Enter(buf: Bytes, pristine: bool, chunks: seq<Bytes>): Entry {
    if pristine then if chunks == [] then Ended else OpAt(chunks[0], chunks[1..])
    else AfterLine(SkipLine(buf, chunks))
  }

  /** What the reader will see after the current buffer: saved bytes are put before the next chunk. */
  function Supply(residual: Bytes, chunks: seq<Bytes>): Bytes {
    if chunks == [] then [] else residual + Concat(chunks)
  }

  /** The fate of an operation whose word lies at `e.ptr`. Reading resumes at an ABSOLUTE position behind
      the word, and bytes from `e.ptr` on, if that is not the start, are saved to be read again. */
  function Fate(e: Entry): Outcome
    requires e.At? && e.ptr + MIN_BUF_SIZE <= |e.buf|
  {
    match MatchWord(e.buf[e.ptr..e.ptr + 4])
    case None => Fail(UnknownOp)
    case Some(w) =>
      var saved := if e.ptr == 0 then [] else e.buf[e.ptr..];
      KeyLen(w, false, [], e.buf[WordEnd(w)..] + Supply(saved, e.chunks))
  }

  function Expect(e: Entry): Outcome {
    match e
    case Ended => Incomplete
    case TooShort => Fail(ShortOp)
    case At(buf, ptr, _) => if ptr + MIN_BUF_SIZE <= |buf| then Fate(e) else Incomplete
  }

  function Result(o: Outcome, end: End): ReadResult {
    match o
    case Complete(op, _) => Ok(op)
    case Fail(error) => Err(error)
    case Incomplete => AtEnd(end)
  }

  // ---------------------------------------------------------------- inner loops

  /** The `while` of `State::Start`. */
  method FindNewline(buf: Bytes, from: nat) returns (p: Option<nat>)
    requires from <= |buf|
    ensures p == BehindNewline(buf, from)
    ensures p.Some? ==> from < p.value <= |buf|
  {
    var i := from;
    while i < |buf|
      invariant from <= i <= |buf|
      invariant BehindNewline(buf, from) == BehindNewline(buf, i)
    {
      if buf[i] == NEWLINE { return Some(i + 1); }
      i := i + 1;
    }
    p := None;
  }

  /** The `while` of `ReadKey`, `ReadEcho` and `ReadValue`: move bytes until there are `n` or the buffer is empty. */
  method Take(buf: Bytes, from: nat, acc: Bytes, n: nat) returns (ptr: nat, taken: Bytes)
    requires from <= |buf| && |acc| <= n
    ensures from <= ptr <= |buf| && taken == acc + buf[from..ptr] && |taken| <= n
    ensures |taken| == n || ptr == |buf|
  {
    ptr, taken := from, acc;
    while ptr < |buf| && |taken| < n
      invariant from <= ptr <= |buf| && taken == acc + buf[from..ptr] && |taken| <= n
    {
      assert buf[from..ptr + 1] == buf[from..ptr] + [buf[ptr]];
      taken := taken + [buf[ptr]];
      ptr := ptr + 1;
    }
  }

  datatype LengthStop = Closed | Exhausted | NotColon

  /** The `while` of `ReadKeyLen` and `ReadValueLen`: a number between colons, possibly cut by the buffer's end. */
  method ReadLength(buf: Bytes, from: nat, between0: bool, digits0: Bytes,
                    ghost w: OpWord, ghost key: Bytes, ghost tail: Bytes)
    returns (ptr: nat, between: bool, digits: Bytes, stop: LengthStop)
    requires from <= |buf|
    ensures from <= ptr <= |buf|
    ensures stop.NotColon? ==>
              && KeyLen(w, between0, digits0, buf[from..] + tail) == Fail(ExpectedColon)
              && ValueLen(key, between0, digits0, buf[from..] + tail) == Fail(ExpectedColon)
    ensures stop.Exhausted? ==>
              && ptr == |buf|
              && KeyLen(w, between0, digits0, buf[from..] + tail) == KeyLen(w, between, digits, tail)
              && ValueLen(key, between0, digits0, buf[from..] + tail) == ValueLen(key, between, digits, tail)
    ensures stop.Closed? ==>
              && !between && from < ptr
              && KeyLen(w, between0, digits0, buf[from..] + tail) == AfterKeyLen(w, digits, buf[ptr..] + tail)
              && ValueLen(key, between0, digits0, buf[from..] + tail) == AfterValueLen(key, digits, buf[ptr..] + tail)
  {
    hide ParseLength, EchoBody, KeyBody, ValueBody;
    ptr, between, digits := from, between0, digits0;
    while ptr < |buf|
      invariant from <= ptr <= |buf|
      invariant KeyLen(w, between0, digits0, buf[from..] + tail) == KeyLen(w, between, digits, buf[ptr..] + tail)
      invariant ValueLen(key, between0, digits0, buf[from..] + tail)
             == ValueLen(key, between, digits, buf[ptr..] + tail)
    {
      ghost var b := buf[ptr..] + tail;
      assert b[0] == buf[ptr] && b[1..] == buf[ptr + 1..] + tail;
      if !between {
        if buf[ptr] != COLON {
          stop := NotColon;
          return;
        }
        between := true;
        ptr := ptr + 1;
      } else if buf[ptr] == COLON {
        between := false;
        ptr := ptr + 1;
        stop := Closed;
        return;
      } else {
        digits := digits + [buf[ptr]];
        ptr := ptr + 1;
      }
    }
    assert buf[ptr..] + tail == tail;
    stop := Exhausted;
  }

  // ---------------------------------------------------------------- the state loop

  datatype State = Start | ReadOp | ReadKeyLen | ReadKey | ReadEcho | ReadValueLen | ReadValue | Done

  /** The local variables of `read`. `spare` is the capacity of the residual buffer. */
  datatype Locals = Locals(
    state: State, word: OpWord, between: bool, needsRead: bool, ptr: nat,
    keyLenBuf: Bytes, keyLen: nat, key: Bytes, echo: Bytes,
    valueLenBuf: Bytes, valueLen: nat, value: Bytes,
    residual: Bytes, spare: nat)

  function Rank(s: State): nat {
    match s
    case Start => 6
    case ReadOp => 5
    case ReadKeyLen => 4
    case ReadEcho => 3
    case ReadKey => 3
    case ReadValueLen => 2
    case ReadValue => 1
    case Done => 0
  }

  function Rest(l: Locals, buf: Bytes, chunks: seq<Bytes>): Bytes
    requires l.ptr <= |buf|
  {
    buf[l.ptr..] + Supply(l.residual, chunks)
  }

  /** What is left to do, as a parse of the bytes still to come. */
  function Continue(l: Locals, rest: Bytes): Outcome {
    match l.state
    case ReadKeyLen => KeyLen(l.word, l.between, l.keyLenBuf, rest)
    case ReadEcho => EchoBody(l.keyLen, l.echo, rest)
    case ReadKey => KeyBody(l.word, l.keyLen, l.key, rest)
    case ReadValueLen => ValueLen(l.key, l.between, l.valueLenBuf, rest)
    case ReadValue => ValueBody(l.key, l.valueLen, l.value, rest)
    case Done =>
      (match l.word
       case EchoWord => Complete(Echo(l.echo), rest)
       case GetWord => Finish(Get(l.key), rest)
       case SetWord => Finish(Set(l.key, l.value), rest))
    case _ => Incomplete
  }

  /** What each state has filled so far; in particular `ReadKey` is never entered for an echo. */
  predicate Shape(l: Locals) {
    match l.state
    case ReadKeyLen => l.key == [] && l.echo == [] && l.valueLenBuf == [] && l.value == []
    case ReadEcho => l.word == EchoWord && l.key == [] && |l.echo| <= l.keyLen
    case ReadKey =>
      l.word != EchoWord && !l.between && |l.key| <= l.keyLen && l.valueLenBuf == [] && l.value == []
    case ReadValueLen => l.word == SetWord && l.value == []
    case ReadValue => l.word == SetWord && |l.value| <= l.valueLen
    case Done => l.word == EchoWord ==> l.key == []
    case _ =>
      !l.between && l.keyLenBuf == [] && l.key == [] && l.echo == [] && l.valueLenBuf == [] && l.value == []
  }

  /** A state that asks for more bytes cannot finish without them. */
  predicate Hungry(l: Locals) {
    match l.state
    case ReadEcho => |l.echo| < l.keyLen
    case ReadKey => |l.key| < l.keyLen
    case ReadValue => |l.value| < l.valueLen
    case Done => false
    case _ => true
  }

  /** Right after a refill, before a byte of the new buffer is taken, some byte is still wanted. */
  predicate Waits(l: Locals, chunks: seq<Bytes>, e: Entry)
    requires e.At?
  {
    |chunks| < |e.chunks| && l.ptr == 0 ==> Hungry(l)
  }

  predicate InBody(s: State) { !s.Start? && !s.ReadOp? }

  /** The bytes saved at the entry that are still to be put before the next chunk: none after the first refill. */
  function SavedAt(e: Entry, i: nat): Bytes
    requires e.At? && e.ptr <= |e.buf|
  {
    if i == 0 && e.ptr > 0 then e.buf[e.ptr..] else []
  }

  /** The buffer is what the `i`-th refill since the entry made it: the entry's own buffer, then whole chunks,
      the first of them behind the saved bytes. */
  ghost predicate IsChunk(buf: Bytes, chunks: seq<Bytes>, e: Entry, i: nat)
    requires e.At? && e.ptr <= |e.buf| && i <= |e.chunks|
  {
    && chunks == e.chunks[i..]
    && buf == if i == 0 then e.buf
              else if i == 1 && e.ptr > 0 then e.buf[e.ptr..] + e.chunks[0]
              else e.chunks[i - 1]
  }

  ghost predicate Located(buf: Bytes, chunks: seq<Bytes>, residual: Bytes, e: Entry)
    requires e.At? && e.ptr <= |e.buf|
  {
    exists i :: 0 <= i <= |e.chunks| && IsChunk(buf, chunks, e, i) && residual == SavedAt(e, i)
  }

  ghost predicate Seeking(l: Locals, buf: Bytes, pristine: bool, chunks: seq<Bytes>, e: Entry)
    requires l.ptr <= |buf|
  {
    if l.state.Start? then
      && l.residual == [] && (!l.needsRead ==> l.ptr == 0)
      && e == (if pristine then
                 if !l.needsRead then OpAt(buf, chunks)
                 else if chunks == [] then Ended else OpAt(chunks[0], chunks[1..])
               else AfterLine(if l.needsRead then NextLine(chunks) else SkipLine(buf, chunks)))
    else
      && !pristine
      && (l.needsRead ==> e == if chunks == [] then Ended else OpAt(l.residual + chunks[0], chunks[1..]))
      && (!l.needsRead && l.ptr == 0 ==> l.residual == [] && e == OpAt(buf, chunks))
      && (!l.needsRead && l.ptr > 0 ==> l.residual == buf[l.ptr..] && e == AfterLine(Found(buf, l.ptr, chunks)))
  }

  ghost predicate Parsing(l: Locals, buf: Bytes, pristine: bool, chunks: seq<Bytes>, e: Entry)
    requires l.ptr <= |buf|
  {
    && !pristine && e.At? && e.ptr + MIN_BUF_SIZE <= |e.buf|
    && (l.needsRead ==> l.ptr == |buf| && Hungry(l))
    && Waits(l, chunks, e)
    && Located(buf, chunks, l.residual, e)
    && Fate(e) == Continue(l, Rest(l, buf, chunks))
  }

  ghost predicate Good(l: Locals, buf: Bytes, pristine: bool, chunks: seq<Bytes>, e: Entry) {
    && l.ptr <= |buf| && l.spare >= BUF_SIZE && Shape(l)
    && (if InBody(l.state) then Parsing(l, buf, pristine, chunks, e) else Seeking(l, buf, pristine, chunks, e))
  }

  ghost predicate Progress(l: Locals, l': Locals) {
    (!l'.needsRead && Rank(l'.state) < Rank(l.state)) || (l'.needsRead && l'.state == l.state)
  }

  method OnStart(l: Locals, buf: Bytes, pristine: bool, ghost chunks: seq<Bytes>, ghost e: Entry)
    returns (l': Locals)
    requires Good(l, buf, pristine, chunks, e) && l.state.Start? && !l.needsRead
    ensures Good(l', buf, pristine && !l'.state.ReadOp?, chunks, e) && Progress(l, l')
    ensures pristine ==> l'.state.ReadOp?
  {
    hide Fate, SkipLine, OpAt;
    if pristine {
      l' := l.(state := ReadOp);
    } else {
      SkipLineHere(buf, chunks);
      var p := FindNewline(buf, l.ptr);
      match p
      case Some(q) =>
        l' := l.(state := ReadOp, ptr := q, residual := if q < |buf| then l.residual + buf[q..] else l.residual);
      case None =>
        l' := l.(ptr := |buf|, needsRead := true);
    }
  }

  lemma SkipLineHere(buf: Bytes, chunks: seq<Bytes>)
    ensures SkipLine(buf, chunks) == match BehindNewline(buf, 0)
                                     case Some(p) => Found(buf, p, chunks)
                                     case None => NextLine(chunks)
  {
  }

  method OnReadOp(l: Locals, buf: Bytes, ghost chunks: seq<Bytes>, ghost e: Entry)
    returns (l': Locals, error: Option<ProtoError>)
    requires Good(l, buf, false, chunks, e) && l.state.ReadOp? && !l.needsRead
    ensures error.None? ==> Good(l', buf, false, chunks, e) && Progress(l, l')
    ensures error.Some? ==> Expect(e) == Fail(error.value)
  {
    hide KeyLen, SkipLine, MatchWord, Supply;
    l', error := l, None;
    if l.ptr + MIN_BUF_SIZE > |buf| {
      if l.ptr == 0 {
        error := Some(ShortOp);
      } else {
        l' := l.(needsRead := true);
      }
    } else {
      match MatchWord(buf[l.ptr..l.ptr + MIN_BUF_SIZE]) {
        case None => error := Some(UnknownOp);
        case Some(w) =>
          l' := l.(word := w, ptr := WordEnd(w), needsRead := false, state := ReadKeyLen);
          assert IsChunk(buf, chunks, e, 0) && l'.residual == SavedAt(e, 0);
      }
    }
  }

  method OnKeyLen(l: Locals, buf: Bytes, ghost chunks: seq<Bytes>, ghost e: Entry)
    returns (l': Locals, error: Option<ProtoError>)
    requires Good(l, buf, false, chunks, e) && l.state.ReadKeyLen? && !l.needsRead
    ensures error.None? ==> Good(l', buf, false, chunks, e) && Progress(l, l')
    ensures error.Some? ==> Expect(e) == Fail(error.value)
  {
    hide KeyLen, ParseLength, Fate, EchoBody, KeyBody, Located;
    ghost var tail := Supply(l.residual, chunks);
    var ptr, between, digits, stop := ReadLength(buf, l.ptr, l.between, l.keyLenBuf, l.word, [], tail);
    l', error := l, None;
    match stop {
      case NotColon => error := Some(ExpectedColon);
      case Exhausted =>
        l' := l.(ptr := ptr, between := between, keyLenBuf := digits, needsRead := true);
        assert buf[ptr..] + tail == tail;
      case Closed =>
        match ParseLength(digits) {
          case Rejected(x) => error := Some(x);
          case Length(n) =>
            l' := l.(ptr := ptr, between := between, keyLenBuf := digits, keyLen := n,
                     state := if l.word == EchoWord then ReadEcho else ReadKey);
        }
    }
  }

  lemma SplitAt(buf: Bytes, from: nat, ptr: nat, tail: Bytes)
    requires from <= ptr <= |buf|
    ensures buf[from..] + tail == buf[from..ptr] + (buf[ptr..] + tail)
  {
  }

  lemma EnoughBytes(n: nat, data: Bytes, key: Bytes, rest: Bytes)
    requires |data| >= n
    ensures EchoBody(n, data, rest) == Complete(Echo(data), rest)
    ensures KeyBody(GetWord, n, data, rest) == Finish(Get(data), rest)
    ensures KeyBody(SetWord, n, data, rest) == ValueLen(data, false, [], rest)
    ensures ValueBody(key, n, data, rest) == Finish(Set(key, data), rest)
  {
    hide ValidUtf8, ValueLen;
  }

  method OnEcho(l: Locals, buf: Bytes, ghost chunks: seq<Bytes>, ghost e: Entry) returns (l': Locals)
    requires Good(l, buf, false, chunks, e) && l.state.ReadEcho? && !l.needsRead
    ensures Good(l', buf, false, chunks, e) && Progress(l, l')
  {
    hide Fate, Located, EchoBody, Supply;
    var ptr, echo := Take(buf, l.ptr, l.echo, l.keyLen);
    ghost var tail := Supply(l.residual, chunks);
    SplitAt(buf, l.ptr, ptr, tail);
    EchoBodyTakes(l.keyLen, l.echo, buf[l.ptr..ptr], buf[ptr..] + tail);
    l' := l.(ptr := ptr, echo := echo);
    if |echo| >= l.keyLen {
      EnoughBytes(l.keyLen, echo, [], buf[ptr..] + tail);
      l' := l'.(state := Done);
    } else {
      l' := l'.(needsRead := true);
    }
  }

  method OnKey(l: Locals, buf: Bytes, ghost chunks: seq<Bytes>, ghost e: Entry) returns (l': Locals)
    requires Good(l, buf, false, chunks, e) && l.state.ReadKey? && !l.needsRead
    ensures Good(l', buf, false, chunks, e) && Progress(l, l')
  {
    hide Fate, Located, ValueLen, Finish, KeyBody, Supply;
    var ptr, key := Take(buf, l.ptr, l.key, l.keyLen);
    ghost var tail := Supply(l.residual, chunks);
    SplitAt(buf, l.ptr, ptr, tail);
    KeyBodyTakes(l.word, l.keyLen, l.key, buf[l.ptr..ptr], buf[ptr..] + tail);
    l' := l.(ptr := ptr, key := key);
    if |key| >= l.keyLen {
      EnoughBytes(l.keyLen, key, [], buf[ptr..] + tail);
      assert l.word == GetWord || l.word == SetWord;  // the echo arm is never reached
      l' := l'.(state := if l.word == GetWord then Done else ReadValueLen);
    } else {
      l' := l'.(needsRead := true);
    }
  }

  method OnValueLen(l: Locals, buf: Bytes, ghost chunks: seq<Bytes>, ghost e: Entry)
    returns (l': Locals, error: Option<ProtoError>)
    requires Good(l, buf, false, chunks, e) && l.state.ReadValueLen? && !l.needsRead
    ensures error.None? ==> Good(l', buf, false, chunks, e) && Progress(l, l')
    ensures error.Some? ==> Expect(e) == Fail(error.value)
  {
    hide KeyLen, ValueLen, ParseLength, Fate, ValueBody, Located;
    ghost var tail := Supply(l.residual, chunks);
    var ptr, between, digits, stop := ReadLength(buf, l.ptr, l.between, l.valueLenBuf, l.word, l.key, tail);
    l', error := l, None;
    match stop {
      case NotColon => error := Some(ExpectedColon);
      case Exhausted =>
        l' := l.(ptr := ptr, between := between, valueLenBuf := digits, needsRead := true);
        assert buf[ptr..] + tail == tail;
      case Closed =>
        match ParseLength(digits) {
          case Rejected(x) => error := Some(x);
          case Length(n) =>
            l' := l.(ptr := ptr, between := between, valueLenBuf := digits, valueLen := n, state := ReadValue);
        }
    }
  }

  method OnValue(l: Locals, buf: Bytes, ghost chunks: seq<Bytes>, ghost e: Entry) returns (l': Locals)
    requires Good(l, buf, false, chunks, e) && l.state.ReadValue? && !l.needsRead
    ensures Good(l', buf, false, chunks, e) && Progress(l, l')
  {
    hide Fate, Located, Finish, ValueBody, Supply;
    var ptr, value := Take(buf, l.ptr, l.value, l.valueLen);
    ghost var tail := Supply(l.residual, chunks);
    SplitAt(buf, l.ptr, ptr, tail);
    ValueBodyTakes(l.key, l.valueLen, l.value, buf[l.ptr..ptr], buf[ptr..] + tail);
    l' := l.(ptr := ptr, value := value);
    if |value| >= l.valueLen {
      EnoughBytes(l.valueLen, value, l.key, buf[ptr..] + tail);
      l' := l'.(state := Done);
    } else {
      l' := l'.(needsRead := true);
    }
  }

  method OnDone(l: Locals, buf: Bytes, ghost chunks: seq<Bytes>, ghost e: Entry) returns (r: ReadResult)
    requires Good(l, buf, false, chunks, e) && l.state.Done?
    ensures !Expect(e).Incomplete?
    ensures forall end :: r == Result(Expect(e), end)
    ensures Expect(e).Complete? ==> Expect(e).rest == Rest(l, buf, chunks)
  {
    hide Fate, Located, ValidUtf8;
    NothingIsValid();
    if !ValidUtf8(l.key) {
      r := Err(KeyNotUtf8);
    } else {
      match l.word
      case EchoWord => r := Ok(Echo(l.echo));
      case GetWord => r := Ok(Get(l.key));
      case SetWord => r := Ok(Set(l.key, l.value));
    }
  }

  /** A refill keeps the account: the saved bytes come first, then the new chunk. */
  lemma RefillKeepsGood(l: Locals, spare: nat, buf: Bytes, pristine: bool, chunks: seq<Bytes>, e: Entry)
    requires Good(l, buf, pristine, chunks, e) && l.needsRead && chunks != [] && spare >= BUF_SIZE
    ensures Good(Refilled(l, spare), l.residual + chunks[0], pristine, chunks[1..], e)
  {
    hide Fate, Continue, SkipLine, AfterLine, OpAt, Located;
    var l' := Refilled(l, spare);
    var buf' := l.residual + chunks[0];
    if InBody(l.state) {
      RefillRest(l, spare, buf, chunks);
      ContinueSame(l, spare, Rest(l, buf, chunks));
      LocatedRefill(buf, chunks, l.residual, e);
    } else if l.state.Start? {
      assert buf' == chunks[0];
    }
  }

  lemma LocatedRefill(buf: Bytes, chunks: seq<Bytes>, residual: Bytes, e: Entry)
    requires e.At? && e.ptr <= |e.buf| && Located(buf, chunks, residual, e) && chunks != []
    ensures Located(residual + chunks[0], chunks[1..], [], e)
  {
    hide IsChunk;
    var i :| 0 <= i <= |e.chunks| && IsChunk(buf, chunks, e, i) && residual == SavedAt(e, i);
    ChunkRefill(buf, chunks, e, i);
    assert SavedAt(e, i + 1) == [];
  }

  lemma ChunkRefill(buf: Bytes, chunks: seq<Bytes>, e: Entry, i: nat)
    requires e.At? && e.ptr <= |e.buf| && i <= |e.chunks| && IsChunk(buf, chunks, e, i) && chunks != []
    ensures i < |e.chunks| && IsChunk(SavedAt(e, i) + chunks[0], chunks[1..], e, i + 1)
  {
    DropOne(e.chunks, i);
    if i > 0 || e.ptr == 0 {
      assert SavedAt(e, i) + chunks[0] == chunks[0];
    }
  }

  lemma DropOne<T>(s: seq<T>, i: nat)
    requires i < |s|
    ensures s[i..][0] == s[i] && s[i..][1..] == s[i + 1..]
  {
  }

  function Refilled(l: Locals, spare: nat): Locals {
    l.(needsRead := false, ptr := 0, residual := [], spare := spare)
  }

  lemma RefillRest(l: Locals, spare: nat, buf: Bytes, chunks: seq<Bytes>)
    requires l.ptr == |buf| && chunks != []
    ensures Rest(l, buf, chunks) == Rest(Refilled(l, spare), l.residual + chunks[0], chunks[1..])
  {
    assert Supply([], chunks[1..]) == Concat(chunks[1..]);
  }

  lemma ContinueSame(l: Locals, spare: nat, rest: Bytes)
    ensures Continue(Refilled(l, spare), rest) == Continue(l, rest)
  {
    hide KeyLen, KeyBody, EchoBody, ValueLen, ValueBody;
  }

  lemma EndKeepsPromise(l: Locals, buf: Bytes, pristine: bool, chunks: seq<Bytes>, e: Entry)
    requires Good(l, buf, pristine, chunks, e) && l.needsRead && chunks == []
    ensures Expect(e) == Incomplete
  {
    hide Fate;
    if InBody(l.state) {
      assert Rest(l, buf, chunks) == [];
    }
  }

  // ---------------------------------------------------------------- the reader

  class Proto {
    var buf: Bytes
    var capacity: nat
    var pristine: bool
    /** What the socket will deliver, read by read, and then `end`. */
    var chunks: seq<Bytes>
    const end: End

    ghost predicate Valid()
      reads this
    {
      capacity >= BUF_SIZE
    }

    constructor (chunks: seq<Bytes>, end: End)
      ensures Valid() && pristine && buf == [] && this.chunks == chunks && this.end == end
    {
      buf, capacity, pristine := [], BUF_SIZE, true;
      this.chunks, this.end := chunks, end;
    }

    /** Reads one operation. It always returns; the result depends only on where the next operation starts
        and on the bytes that follow, not on how those are cut into chunks. The reader is left in the buffer
        that holds the operation's last byte: nothing is dropped from it. */
    method Read() returns (r: ReadResult)
      requires Valid()
      modifies this
      ensures Valid()
      ensures var e := Enter(old(buf), old(pristine), old(chunks));
              && r == Result(Expect(e), end)
              && (Expect(e).Complete? ==> !pristine)
              && (Expect(e).Complete? ==> e.At? && e.ptr <= |e.buf| && LeftIn(buf, chunks, e, Expect(e).rest))
    {
      hide Good, Enter, Fate, Rank, Rest, LeftIn;
      ghost var e := Enter(buf, pristine, chunks);
      var l := Locals(Start, GetWord, false, pristine, 0, [], 0, [], [], [], 0, [], [], BUF_SIZE);
      StartIsGood(l, buf, pristine, chunks);
      while true
        invariant Valid() && Good(l, buf, pristine, chunks, e)
        decreases |chunks|, Rank(l.state), !l.needsRead
      {
        if l.needsRead {
          if chunks == [] {
            EndKeepsPromise(l, buf, pristine, chunks, e);
            buf := [];
            return AtEnd(end);
          }
          l := Refill(l, e);
        }
        var error: Option<ProtoError> := None;
        StateFacts(l, buf, pristine, chunks, e);
        match l.state {
          case Start =>
            l := OnStart(l, buf, pristine, chunks, e);
            if l.state.ReadOp? { pristine := false; }
          case ReadOp => l, error := OnReadOp(l, buf, chunks, e);
          case ReadKeyLen => l, error := OnKeyLen(l, buf, chunks, e);
          case ReadEcho => l := OnEcho(l, buf, chunks, e);
          case ReadKey => l := OnKey(l, buf, chunks, e);
          case ReadValueLen => l, error := OnValueLen(l, buf, chunks, e);
          case ReadValue => l := OnValue(l, buf, chunks, e);
          case Done =>
            r := OnDone(l, buf, chunks, e);
            if Expect(e).Complete? { DoneIsLeftIn(l, buf, chunks, e); }
            return;
        }
        if error.Some? {
          return Err(error.value);
        }
      }
    }

    /** Empties and refills the buffer, putting saved bytes first. The two assertions are the source's own. */
    method Refill(l: Locals, ghost e: Entry) returns (l': Locals)
      requires Valid() && Good(l, buf, pristine, chunks, e) && l.needsRead && chunks != []
      modifies this`buf, this`capacity, this`chunks
      ensures Valid() && chunks == old(chunks)[1..]
      ensures Good(l', buf, pristine, chunks, e) && !l'.needsRead
    {
      hide Good;
      l' := l;
      GoodSpare(l, buf, pristine, chunks, e);
      RefillKeepsGood(l, l.spare, buf, pristine, chunks, e);
      if l.residual != [] { RefillKeepsGood(l, BUF_SIZE, buf, pristine, chunks, e); }
      if capacity > BUF_SIZE { capacity := BUF_SIZE; }
      buf := chunks[0];
      chunks := chunks[1..];
      if l'.residual != [] {
        var joined := l'.residual + buf;
        var grown := if |joined| > l'.spare then |joined| else l'.spare;
        l' := l'.(residual := [], spare := capacity);
        buf, capacity := joined, grown;
        assert l'.residual == [];
        assert l'.spare >= BUF_SIZE;
      } else if |buf| > capacity {
        capacity := |buf|;
      }
      l' := l'.(ptr := 0, needsRead := false);
      assert [] + old(chunks)[0] == old(chunks)[0];
    }
  }

  lemma GoodSpare(l: Locals, buf: Bytes, pristine: bool, chunks: seq<Bytes>, e: Entry)
    requires Good(l, buf, pristine, chunks, e)
    ensures l.spare >= BUF_SIZE
  {
    hide Fate, SkipLine;
  }

  lemma StartIsGood(l: Locals, buf: Bytes, pristine: bool, chunks: seq<Bytes>)
    requires l == Locals(Start, GetWord, false, pristine, 0, [], 0, [], [], [], 0, [], [], BUF_SIZE)
    ensures Good(l, buf, pristine, chunks, Enter(buf, pristine, chunks))
  {
    hide Fate, SkipLine, NextLine, OpAt;
  }

  lemma StateFacts(l: Locals, buf: Bytes, pristine: bool, chunks: seq<Bytes>, e: Entry)
    requires Good(l, buf, pristine, chunks, e)
    ensures !l.state.Start? ==> !pristine
  {
    hide Fate, SkipLine;
  }

  lemma DoneIsLeftIn(l: Locals, buf: Bytes, chunks: seq<Bytes>, e: Entry)
    requires Good(l, buf, false, chunks, e) && l.state.Done? && Expect(e).Complete?
    requires Expect(e).rest == Rest(l, buf, chunks)
    ensures e.At? && e.ptr <= |e.buf| && LeftIn(buf, chunks, e, Expect(e).rest)
  {
    hide Fate, Continue, Supply;
    var i :| 0 <= i <= |e.chunks| && IsChunk(buf, chunks, e, i) && l.residual == SavedAt(e, i);
    assert StopsAt(buf, chunks, e, Expect(e).rest, i, l.ptr);
  }

  /** After `i` refills, at position `p` of the buffer, `rest` is what has not been read. A buffer is only filled
      when a byte of it is needed. */
  ghost predicate StopsAt(buf: Bytes, chunks: seq<Bytes>, e: Entry, rest: Bytes, i: nat, p: nat)
    requires e.At? && e.ptr <= |e.buf|
  {
    && i <= |e.chunks| && p <= |buf| && (i > 0 ==> p > 0)
    && IsChunk(buf, chunks, e, i) && rest == buf[p..] + Supply(SavedAt(e, i), chunks)
  }

  ghost predicate LeftIn(buf: Bytes, chunks: seq<Bytes>, e: Entry, rest: Bytes)
    requires e.At? && e.ptr <= |e.buf|
  {
    exists i, p :: StopsAt(buf, chunks, e, rest, i, p)
  }

  lemma SupplyPlain(chunks: seq<Bytes>)
    ensures Supply([], chunks) == Concat(chunks)
  {
  }

  /** A read that leaves all that was to come behind its entry's buffer has not refilled. */
  lemma NotRefilled(buf: Bytes, chunks: seq<Bytes>, e: Entry, rest: Bytes)
    requires e.At? && e.ptr <= |e.buf| && LeftIn(buf, chunks, e, rest)
    requires |rest| >= |Supply(SavedAt(e, 0), e.chunks)|
    ensures buf == e.buf && chunks == e.chunks
  {
    var i, p :| StopsAt(buf, chunks, e, rest, i, p);
    if i > 0 {
      SupplyPlain(chunks);
      ConcatTail(e.chunks, i);
    }
  }

  /** The `i`-th chunk and all behind it are no longer than all chunks. */
  lemma {:induction false} ConcatTail(chunks: seq<Bytes>, i: nat)
    requires 0 < i <= |chunks|
    ensures |chunks[i - 1]| + |Concat(chunks[i..])| <= |Concat(chunks)|
  {
    if i > 1 {
      assert chunks[1..][i - 2] == chunks[i - 1] && chunks[1..][i - 1..] == chunks[i..];
      ConcatTail(chunks[1..], i - 1);
    }
  }
}
