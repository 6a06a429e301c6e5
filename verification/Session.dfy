/** Whole sessions: how chunks may be cut, and what successive reads return. */
module Session {
  import opened Bytes
  import opened Wire
  import opened Proto

  // ---------------------------------------------------------------- one operation on a fresh connection

  lemma FateIsParse(buf: Bytes, chunks: seq<Bytes>)
    requires |buf| >= MIN_BUF_SIZE
    ensures Expect(At(buf, 0, chunks)) == Parse(buf + Concat(chunks))
  {
    hide KeyLen, MatchWord;
    var b := buf + Concat(chunks);
    SupplyPlain(chunks);
    assert b[..4] == buf[0..4];
    match MatchWord(buf[0..4])
    case None =>
    case Some(w) => assert b[WordEnd(w)..] == buf[WordEnd(w)..] + Concat(chunks);
  }

  /** On a fresh connection whose first chunk holds the operation word, the outcome is the parse of the byte
      stream, well formed or not: it does not depend on where the chunks are cut. */
  lemma ChunkIndependence(buf: Bytes, chunks: seq<Bytes>)
    requires chunks != [] && |chunks[0]| >= MIN_BUF_SIZE
    ensures |Concat(chunks)| >= MIN_BUF_SIZE
    ensures Expect(Enter(buf, true, chunks)) == Parse(Concat(chunks))
  {
    hide Parse, Expect;
    FateIsParse(chunks[0], chunks[1..]);
  }

  /** A printed command, cut in any way behind its first four bytes, is read as that command. */
  lemma PrintedCommandIsRead(op: ProtoOp, rest: Bytes, buf: Bytes, chunks: seq<Bytes>, end: End)
    requires IsCommand(op) && Concat(chunks) == Print(op) + rest
    requires chunks != [] && |chunks[0]| >= MIN_BUF_SIZE
    ensures Result(Expect(Enter(buf, true, chunks)), end) == Ok(op)
  {
    hide Parse, Expect, Enter, Print;
    ChunkIndependence(buf, chunks);
    ParsePrint(op, rest);
  }

  /** A fresh connection reports a missing word if and only if its first chunk has fewer than four bytes,
      whatever follows. */
  lemma ShortFirstChunkFails(buf: Bytes, chunks: seq<Bytes>, end: End)
    requires chunks != []
    ensures Result(Expect(Enter(buf, true, chunks)), end) == Err(ShortOp) <==> |chunks[0]| < 4
  {
    hide Parse;
    if |chunks[0]| >= MIN_BUF_SIZE {
      ChunkIndependence(buf, chunks);
      UnknownOpExact(Concat(chunks));
    }
  }

  // ---------------------------------------------------------------- reads of zero bytes

  /** A read that delivers nothing is an ordinary read for the reader. */
  function Empties(n: nat): seq<Bytes> {
    seq(n, _ => [])
  }

  lemma {:induction false} ConcatEmpties(n: nat)
    ensures Concat(Empties(n)) == []
  {
    if n > 0 {
      ConcatEmpties(n - 1);
      assert Empties(n)[1..] == Empties(n - 1);
    }
  }

  lemma {:induction false} SkipFurther(buf: Bytes, chunks: seq<Bytes>, more: seq<Bytes>)
    ensures SkipLine(buf, chunks + more)
         == match SkipLine(buf, chunks)
            case Found(b, p, left) => Found(b, p, left + more)
            case NoLine => NextLine(more)
    decreases |chunks|
  {
    hide BehindNewline;
    if chunks == [] {
      assert chunks + more == more;
    } else {
      assert (chunks + more)[0] == chunks[0] && (chunks + more)[1..] == chunks[1..] + more;
      SkipFurther(chunks[0], chunks[1..], more);
    }
  }

  lemma {:induction false} NoLineInEmpties(n: nat)
    ensures NextLine(Empties(n)) == NoLine
  {
    if n > 0 {
      NoLineInEmpties(n - 1);
      assert Empties(n)[0] == [] && Empties(n)[1..] == Empties(n - 1);
    }
  }

  lemma EmptiesAtOp(buf: Bytes, chunks: seq<Bytes>, n: nat)
    ensures Expect(OpAt(buf, chunks + Empties(n))) == Expect(OpAt(buf, chunks))
  {
    hide Parse, Concat, Fate;
    if |buf| >= MIN_BUF_SIZE {
      FateIsParse(buf, chunks);
      FateIsParse(buf, chunks + Empties(n));
      ConcatAppend(chunks, Empties(n));
      ConcatEmpties(n);
      assert Concat(chunks) + [] == Concat(chunks);
    }
  }

  lemma EmptiesAtSaved(buf: Bytes, p: nat, chunks: seq<Bytes>, n: nat)
    requires p + MIN_BUF_SIZE <= |buf| && chunks != []
    ensures Expect(At(buf, p, chunks + Empties(n))) == Expect(At(buf, p, chunks))
  {
    hide Concat, KeyLen, MatchWord;
    ConcatAppend(chunks, Empties(n));
    ConcatEmpties(n);
    assert Concat(chunks) + [] == Concat(chunks);
  }

  lemma {:induction false} BehindNewlineInside(buf: Bytes, from: nat)
    requires from <= |buf|
    ensures BehindNewline(buf, from).Some? ==> from < BehindNewline(buf, from).value <= |buf|
    decreases |buf| - from
  {
    if from < |buf| { BehindNewlineInside(buf, from + 1); }
  }

  lemma {:induction false} FoundInside(buf: Bytes, chunks: seq<Bytes>)
    ensures SkipLine(buf, chunks).Found? ==> 0 < SkipLine(buf, chunks).after <= |SkipLine(buf, chunks).buf|
    decreases |chunks|
  {
    hide BehindNewline;
    BehindNewlineInside(buf, 0);
    if chunks != [] { FoundInside(chunks[0], chunks[1..]); }
  }

  /** A used reader on a stream that ends in reads of zero bytes, any number of them. As long as a newline is
      missing they change nothing: the read stays incomplete, and only the end of the stream stops it. Behind
      a later chunk they do not change the outcome either. Right behind the newline they are a missing word; with
      a word there, they are the refill that hands the bytes saved from the word on over again. */
  lemma EmptyReads(buf: Bytes, chunks: seq<Bytes>, n: nat)
    requires n > 0
    ensures SkipLine(buf, chunks).Found? ==> 0 < SkipLine(buf, chunks).after <= |SkipLine(buf, chunks).buf|
    ensures var o := Expect(Enter(buf, false, chunks + Empties(n)));
            match SkipLine(buf, chunks)
            case NoLine => o == Incomplete
            case Found(b, p, left) =>
              if left != [] then o == Expect(Enter(buf, false, chunks))
              else if p + MIN_BUF_SIZE > |b| then o == Fail(ShortOp)
              else match MatchWord(b[p..p + 4])
                case None => o == Fail(UnknownOp)
                case Some(w) => o == KeyLen(w, false, [], b[WordEnd(w)..] + b[p..])
  {
    hide SkipLine, Expect, OpAt;
    SkipFurther(buf, chunks, Empties(n));
    NoLineInEmpties(n);
    FoundInside(buf, chunks);
    match SkipLine(buf, chunks)
    case NoLine =>
      ExpectEnded();
    case Found(b, p, left) =>
      if left != [] {
        assert (left + Empties(n))[0] == left[0] && (left + Empties(n))[1..] == left[1..] + Empties(n);
        if p + MIN_BUF_SIZE > |b| {
          EmptiesAtOp(b[p..] + left[0], left[1..], n);
        } else {
          EmptiesAtSaved(b, p, left, n);
        }
      } else {
        assert left + Empties(n) == Empties(n) && Empties(n)[0] == [];
        if p + MIN_BUF_SIZE > |b| {
          TooFew(b[p..] + [], Empties(n)[1..]);
        } else {
          EmptiesHandOver(b, p, n);
        }
      }
  }

  lemma EmptiesHandOver(buf: Bytes, p: nat, n: nat)
    requires n > 0 && 0 < p && p + MIN_BUF_SIZE <= |buf|
    ensures Expect(At(buf, p, Empties(n)))
         == match MatchWord(buf[p..p + 4])
            case None => Fail(UnknownOp)
            case Some(w) => KeyLen(w, false, [], buf[WordEnd(w)..] + buf[p..])
  {
    hide KeyLen, MatchWord;
    ConcatEmpties(n);
    assert buf[p..] + [] == buf[p..];
  }

  lemma TooFew(buf: Bytes, chunks: seq<Bytes>)
    requires |buf| < MIN_BUF_SIZE
    ensures Expect(OpAt(buf, chunks)) == Fail(ShortOp)
  {
  }

  lemma ExpectEnded()
    ensures Expect(Ended) == Incomplete
  {
  }

  // ---------------------------------------------------------------- several operations

  /** A command, the bytes to be ignored after it, and its newline. */
  datatype Message = Message(op: ProtoOp, filler: Bytes)

  function Wired(m: Message): Bytes {
    Print(m.op) + (m.filler + [NEWLINE])
  }

  predicate NoNewline(b: Bytes) {
    forall i :: 0 <= i < |b| ==> b[i] != NEWLINE
  }

  predicate CleanPayload(op: ProtoOp) {
    match op
    case Get(key) => NoNewline(key)
    case Set(key, value) => NoNewline(key) && NoNewline(value)
    case Echo(msg) => NoNewline(msg)
    case _ => true
  }

  /** The chunks carry one message and nothing else: none empty, the first with the operation word. */
  predicate OwnChunks(part: seq<Bytes>, m: Message) {
    && IsCommand(m.op)
    && part != [] && |part[0]| >= MIN_BUF_SIZE
    && (forall i :: 0 <= i < |part| ==> part[i] != [])
    && Concat(part) == Wired(m)
  }

  /** The chunk that holds the `n`-th byte. */
  function LastChunk(part: seq<Bytes>, n: nat): (c: nat)
    ensures c <= |part|
  {
    if part == [] || n <= |part[0]| then 0 else 1 + LastChunk(part[1..], n - |part[0]|)
  }

  /** And from the chunk with the last byte of the command on there is no newline but the message's own. Before
      that chunk the payload may hold any bytes. */
  predicate WellCut(part: seq<Bytes>, m: Message) {
    OwnChunks(part, m) && IsLine(Concat(part[LastChunk(part, |Print(m.op)|)..]))
  }

  function Flatten(parts: seq<seq<Bytes>>): seq<Bytes> {
    if parts == [] then [] else parts[0] + Flatten(parts[1..])
  }

  predicate AllWellCut(parts: seq<seq<Bytes>>, ms: seq<Message>) {
    |parts| == |ms| && forall i :: 0 <= i < |ms| ==> WellCut(parts[i], ms[i])
  }

  /** Newline at the end and nowhere else. */
  predicate IsLine(b: Bytes) {
    b != [] && b[|b| - 1] == NEWLINE && NoNewline(b[..|b| - 1])
  }

  /** The reader stands inside the last message, or at the very start, with `parts` still to come. */
  ghost predicate Between(buf: Bytes, pristine: bool, chunks: seq<Bytes>, parts: seq<seq<Bytes>>) {
    if pristine then chunks == Flatten(parts)
    else exists left :: IsLeft(buf, chunks, parts, left)
  }

  ghost predicate IsLeft(buf: Bytes, chunks: seq<Bytes>, parts: seq<seq<Bytes>>, left: seq<Bytes>) {
    && chunks == left + Flatten(parts)
    && (forall i :: 0 <= i < |left| ==> left[i] != [])
    && IsLine(buf + Concat(left))
  }

  // ---------------------------------------------------------------- skipping to the next message

  lemma {:induction false} BehindNewlineIn(line: Bytes, tail: Bytes, from: nat)
    requires IsLine(line) && from < |line|
    ensures BehindNewline(line + tail, from) == Some(|line|)
    decreases |line| - from
  {
    if from < |line| - 1 {
      assert line[from] == line[..|line| - 1][from];
      BehindNewlineIn(line, tail, from + 1);
    }
  }

  lemma LineSome(line: Bytes)
    requires IsLine(line)
    ensures line != []
  {
  }

  lemma {:induction false} BehindNewlineNone(buf: Bytes, from: nat)
    requires from <= |buf| && NoNewline(buf)
    ensures BehindNewline(buf, from) == None
    decreases |buf| - from
  {
    if from < |buf| { BehindNewlineNone(buf, from + 1); }
  }

  lemma {:induction false} BehindNewlineLast(buf: Bytes, from: nat)
    requires IsLine(buf) && from < |buf|
    ensures BehindNewline(buf, from) == Some(|buf|)
    decreases |buf| - from
  {
    if from < |buf| - 1 {
      assert buf[from] == buf[..|buf| - 1][from];
      BehindNewlineLast(buf, from + 1);
    }
  }

  lemma {:induction false} SkipToEnd(buf: Bytes, left: seq<Bytes>, next: seq<Bytes>)
    requires IsLine(buf + Concat(left)) && forall i :: 0 <= i < |left| ==> left[i] != []
    ensures SkipLine(buf, left + next).Found?
    ensures var line := SkipLine(buf, left + next); line.after == |line.buf| && line.chunks == next
    decreases |left|
  {
    if left == [] {
      assert buf + Concat(left) == buf && left + next == next;
      BehindNewlineLast(buf, 0);
    } else {
      var b := buf + Concat(left);
      var rest := Concat(left);
      assert rest != [] by { assert left[0] != []; }
      assert forall i :: 0 <= i < |buf| ==> buf[i] == b[..|b| - 1][i];
      BehindNewlineNone(buf, 0);
      assert (left + next)[0] == left[0] && (left + next)[1..] == left[1..] + next;
      LineSuffix(buf, rest);
      SkipToEnd(left[0], left[1..], next);
    }
  }

  lemma LineSuffix(a: Bytes, b: Bytes)
    requires IsLine(a + b) && b != []
    ensures IsLine(b)
  {
    var ab := a + b;
    assert b[|b| - 1] == ab[|ab| - 1];
    var front := b[..|b| - 1];
    forall i | 0 <= i < |front| ensures front[i] != NEWLINE {
      assert front[i] == ab[..|ab| - 1][|a| + i];
    }
  }

  lemma FlattenFirst(parts: seq<seq<Bytes>>)
    requires parts != [] && parts[0] != []
    ensures var f := Flatten(parts);
            f != [] && f[0] == parts[0][0] && f[1..] == parts[0][1..] + Flatten(parts[1..])
  {
  }

  /** Between messages the next operation starts at the head of the next message's first chunk. */
  lemma EnterNext(buf: Bytes, pristine: bool, chunks: seq<Bytes>, parts: seq<seq<Bytes>>, m: Message)
    requires Between(buf, pristine, chunks, parts) && parts != [] && WellCut(parts[0], m)
    ensures Enter(buf, pristine, chunks) == At(parts[0][0], 0, parts[0][1..] + Flatten(parts[1..]))
  {
    hide SkipLine, Wired, IsLine, Flatten, IsCommand, LastChunk;
    FlattenFirst(parts);
    if !pristine {
      var left :| IsLeft(buf, chunks, parts, left);
      SkipToEnd(buf, left, Flatten(parts));
      assert [] + parts[0][0] == parts[0][0];
    }
  }

  lemma EnterNothing(buf: Bytes, pristine: bool, chunks: seq<Bytes>)
    requires Between(buf, pristine, chunks, [])
    ensures Enter(buf, pristine, chunks) == Ended
  {
    hide SkipLine, IsLine;
    if !pristine {
      var left :| IsLeft(buf, chunks, [], left);
      SkipToEnd(buf, left, []);
    }
  }

  /** And it is read as that message's command, leaving its filler and all that follows. */
  lemma NextCommand(parts: seq<seq<Bytes>>, m: Message)
    requires parts != [] && OwnChunks(parts[0], m)
    ensures Expect(At(parts[0][0], 0, parts[0][1..] + Flatten(parts[1..])))
         == Complete(m.op, m.filler + [NEWLINE] + Concat(Flatten(parts[1..])))
  {
    hide Parse, Print, Expect, IsCommand, Flatten;
    var first, tail := parts[0], Flatten(parts[1..]);
    FateIsParse(first[0], first[1..] + tail);
    ConcatAppend(first[1..], tail);
    var rest := m.filler + [NEWLINE] + Concat(tail);
    assert first[0] + Concat(first[1..] + tail) == Concat(first) + Concat(tail) == Print(m.op) + rest;
    ParsePrint(m.op, rest);
  }

  // ---------------------------------------------------------------- where the reader is left

  lemma {:induction false} ConcatSuffix(chunks: seq<Bytes>, i: nat)
    requires i <= |chunks|
    ensures Concat(chunks) == Concat(chunks[..i]) + Concat(chunks[i..])
    ensures |Concat(chunks[i..])| <= |Concat(chunks)|
  {
    assert chunks == chunks[..i] + chunks[i..];
    ConcatAppend(chunks[..i], chunks[i..]);
  }

  lemma PrintNoNewline(op: ProtoOp)
    requires CleanPayload(op)
    ensures NoNewline(Print(op))
  {
    hide Field;
    match op
    case Get(key) => FieldNoNewline(key);
    case Set(key, value) => FieldNoNewline(key); FieldNoNewline(value);
    case Echo(msg) => FieldNoNewline(msg);
    case _ =>
  }

  lemma FieldNoNewline(data: Bytes)
    requires NoNewline(data)
    ensures NoNewline(Field(data))
  {
    hide Decimal;
    var digits := Decimal(|data|);
    assert forall i :: 0 <= i < |digits| ==> IsDigit(digits[i]);
  }

  lemma CommandLong(op: ProtoOp)
    requires IsCommand(op)
    ensures |Print(op)| >= MIN_BUF_SIZE
  {
    hide Print;
    PrintLong(op);
  }

  lemma WiredIsLine(m: Message)
    requires CleanPayload(m.op) && NoNewline(m.filler)
    ensures IsLine(Wired(m))
  {
    hide Print, CleanPayload;
    PrintNoNewline(m.op);
    var b := Wired(m);
    assert b[..|b| - 1] == Print(m.op) + m.filler;
  }

  /** A read that stopped in a chunk of the stream with the filler unread stopped inside the message. */
  lemma StoppedInside(part: seq<Bytes>, tail: seq<Bytes>, i: nat, p: nat, filler: Bytes)
    requires i < |part + tail| && p <= |(part + tail)[i]|
    requires filler + [NEWLINE] + Concat(tail) == (part + tail)[i][p..] + Concat((part + tail)[i + 1..])
    ensures i < |part|
  {
    var all := part + tail;
    if i >= |part| {
      TailFits(part, tail, i);
    }
  }

  lemma TailFits(part: seq<Bytes>, tail: seq<Bytes>, i: nat)
    requires |part| <= i < |part + tail|
    ensures |(part + tail)[i]| + |Concat((part + tail)[i + 1..])| <= |Concat(tail)|
  {
    var j := i - |part|;
    assert (part + tail)[i] == tail[j] && (part + tail)[i + 1..] == tail[j + 1..];
    ConcatAt(tail, j);
    ConcatSuffix(tail, j + 1);
  }

  lemma {:induction false} LastChunkIs(part: seq<Bytes>, i: nat, p: nat)
    requires i < |part| && 0 < p <= |part[i]|
    ensures LastChunk(part, |Concat(part[..i])| + p) == i
  {
    if i == 0 {
      assert part[..0] == [];
    } else {
      assert part[..i][1..] == part[1..][..i - 1] && part[..i][0] == part[0];
      LastChunkIs(part[1..], i - 1, p);
    }
  }

  /** A read that leaves just what follows the first `n` bytes stopped in the chunk of the `n`-th byte. */
  lemma StoppedAt(part: seq<Bytes>, i: nat, p: nat, n: nat)
    requires i < |part| && p <= |part[i]| && 0 < n <= |Concat(part)| && (i > 0 ==> p > 0)
    requires |part[i]| - p + |Concat(part[i + 1..])| == |Concat(part)| - n
    ensures i == LastChunk(part, n)
  {
    ConcatSuffix(part, i);
    assert part[i..] == [part[i]] + part[i + 1..];
    ConcatFirst(part[i], part[i + 1..]);
    if i == 0 { assert part[..i] == []; }
    LastChunkIs(part, i, p);
  }

  /** After a read of a message in chunks of its own, the reader stands in the chunk with the command's last
      byte, with the rest of the message and all that follows still to come. */
  lemma LeftAt(buf: Bytes, chunks: seq<Bytes>, parts: seq<seq<Bytes>>, m: Message)
    requires parts != [] && OwnChunks(parts[0], m)
    requires LeftIn(buf, chunks, At(parts[0][0], 0, parts[0][1..] + Flatten(parts[1..])),
                    m.filler + [NEWLINE] + Concat(Flatten(parts[1..])))
    ensures var c := LastChunk(parts[0], |Print(m.op)|);
            c < |parts[0]| && buf == parts[0][c] && chunks == parts[0][c + 1..] + Flatten(parts[1..])
  {
    hide Print, IsCommand, Flatten, Concat, IsChunk, LastChunk;
    var part, tail := parts[0], Flatten(parts[1..]);
    var e := At(part[0], 0, part[1..] + tail);
    var i, p :| StopsAt(buf, chunks, e, m.filler + [NEWLINE] + Concat(tail), i, p);
    SupplyPlain(chunks);
    ChunkOf(part, tail, buf, chunks, i);
    StoppedInside(part, tail, i, p, m.filler);
    InsidePart(part, tail, i);
    ConcatAppend(part[i + 1..], tail);
    CommandLong(m.op);
    StoppedAt(part, i, p, |Print(m.op)|);
  }

  /** If the message is well cut, it is between messages again. */
  lemma LeftBetween(buf: Bytes, chunks: seq<Bytes>, parts: seq<seq<Bytes>>, m: Message)
    requires parts != [] && WellCut(parts[0], m)
    requires LeftIn(buf, chunks, At(parts[0][0], 0, parts[0][1..] + Flatten(parts[1..])),
                    m.filler + [NEWLINE] + Concat(Flatten(parts[1..])))
    ensures Between(buf, false, chunks, parts[1..])
  {
    hide Wired, IsCommand, Flatten, IsLine, Concat, LeftIn, LastChunk;
    LeftAt(buf, chunks, parts, m);
    var part, c := parts[0], LastChunk(parts[0], |Print(m.op)|);
    assert part[c..] == [part[c]] + part[c + 1..];
    ConcatFirst(part[c], part[c + 1..]);
    assert IsLeft(buf, chunks, parts[1..], part[c + 1..]);
  }

  // ---------------------------------------------------------------- exactly when the next read starts right

  lemma {:induction false} BehindNewlineMeans(buf: Bytes, from: nat)
    requires from <= |buf|
    ensures var p := BehindNewline(buf, from);
            if p.Some?
            then from < p.value <= |buf| && buf[p.value - 1] == NEWLINE && NoNewline(buf[from..p.value - 1])
            else NoNewline(buf[from..])
    decreases |buf| - from
  {
    if from < |buf| && buf[from] != NEWLINE {
      BehindNewlineMeans(buf, from + 1);
      var p := BehindNewline(buf, from);
      if p.Some? {
        assert buf[from..p.value - 1] == [buf[from]] + buf[from + 1..p.value - 1];
      } else {
        assert buf[from..] == [buf[from]] + buf[from + 1..];
      }
    }
  }

  lemma {:induction false} SkipShortens(chunks: seq<Bytes>)
    ensures NextLine(chunks).Found? ==> |NextLine(chunks).chunks| < |chunks|
    decreases |chunks|
  {
    hide BehindNewline;
    if chunks != [] { SkipShortens(chunks[1..]); }
  }

  /** The skipped line ends at the end of the last chunk of `left`, or of `buf`, only if it is all one line. */
  lemma {:induction false} SkipEndsAt(buf: Bytes, left: seq<Bytes>, next: seq<Bytes>)
    requires SkipLine(buf, left + next).Found?
    requires var line := SkipLine(buf, left + next); |line.chunks| == |next| && line.after == |line.buf|
    ensures IsLine(buf + Concat(left))
    decreases |left|
  {
    hide NoNewline;
    BehindNewlineMeans(buf, 0);
    SkipShortens(next);
    if left == [] {
      assert left + next == next && buf + Concat(left) == buf && buf[0..|buf| - 1] == buf[..|buf| - 1];
    } else {
      assert (left + next)[0] == left[0] && (left + next)[1..] == left[1..] + next;
      SkipEndsAt(left[0], left[1..], next);
      assert buf[0..] == buf;
      LineExtends(buf, Concat(left));
    }
  }

  lemma LineExtends(a: Bytes, b: Bytes)
    requires NoNewline(a) && IsLine(b)
    ensures IsLine(a + b)
  {
    var ab := a + b;
    assert ab[..|ab| - 1] == a + b[..|b| - 1];
  }

  lemma {:induction false} SkipTail(buf: Bytes, left: seq<Bytes>, next: seq<Bytes>)
    requires SkipLine(buf, left + next).Found? && |SkipLine(buf, left + next).chunks| == |next|
    ensures SkipLine(buf, left + next).chunks == next
    decreases |left|
  {
    hide BehindNewline;
    SkipShortens(next);
    if left == [] {
      assert left + next == next;
    } else {
      assert (left + next)[0] == left[0] && (left + next)[1..] == left[1..] + next;
      if BehindNewline(buf, 0).None? { SkipTail(left[0], left[1..], next); }
    }
  }

  /** A reader left in `buf` with `left` of its message still to come: the next read starts at the head of the
      chunks behind it if and only if there is one newline in all that, at its end. */
  lemma NextStartsRightIff(buf: Bytes, left: seq<Bytes>, next: seq<Bytes>)
    requires forall i :: 0 <= i < |left| ==> left[i] != []
    requires next != [] && |next[0]| >= MIN_BUF_SIZE
    ensures Enter(buf, false, left + next) == At(next[0], 0, next[1..]) <==> IsLine(buf + Concat(left))
  {
    hide SkipLine, IsLine, Concat, Enter;
    if IsLine(buf + Concat(left)) { StartsRight(buf, left, next); }
    if Enter(buf, false, left + next) == At(next[0], 0, next[1..]) { StartedRight(buf, left, next); }
  }

  lemma StartsRight(buf: Bytes, left: seq<Bytes>, next: seq<Bytes>)
    requires IsLine(buf + Concat(left)) && forall i :: 0 <= i < |left| ==> left[i] != []
    requires next != [] && |next[0]| >= MIN_BUF_SIZE
    ensures Enter(buf, false, left + next) == At(next[0], 0, next[1..])
  {
    hide SkipLine, IsLine, Concat;
    SkipToEnd(buf, left, next);
    assert [] + next[0] == next[0];
  }

  lemma StartedRight(buf: Bytes, left: seq<Bytes>, next: seq<Bytes>)
    requires next != [] && Enter(buf, false, left + next) == At(next[0], 0, next[1..])
    ensures IsLine(buf + Concat(left))
  {
    hide SkipLine, IsLine, Concat;
    FoundInside(buf, left + next);
    var line := SkipLine(buf, left + next);
    EnteredBehind(line, next);
    SkipTail(buf, left, next);
    JoinedLength(line.buf[line.after..], line.chunks[0]);
    SkipEndsAt(buf, left, next);
  }

  /** An operation that starts at the head of a buffer behind a line starts in the chunk after that line. */
  lemma EnteredBehind(line: Line, next: seq<Bytes>)
    requires line.Found? ==> 0 < line.after <= |line.buf|
    requires next != [] && AfterLine(line) == At(next[0], 0, next[1..])
    ensures line.Found? && |line.chunks| == |next| && line.buf[line.after..] + line.chunks[0] == next[0]
  {
    assert |line.chunks| - 1 == |line.chunks[1..]| == |next[1..]| == |next| - 1;
  }

  lemma JoinedLength(a: Bytes, b: Bytes)
    ensures a + b == b ==> a == []
  {
    assert |a + b| == |a| + |b|;
  }

  /** So after a message in chunks of its own the next message is found if and only if this one was well cut. */
  lemma NextMessageIff(buf: Bytes, chunks: seq<Bytes>, parts: seq<seq<Bytes>>, m: Message)
    requires |parts| > 1 && OwnChunks(parts[0], m) && parts[1] != [] && |parts[1][0]| >= MIN_BUF_SIZE
    requires LeftIn(buf, chunks, At(parts[0][0], 0, parts[0][1..] + Flatten(parts[1..])),
                    m.filler + [NEWLINE] + Concat(Flatten(parts[1..])))
    ensures Enter(buf, false, chunks) == At(parts[1][0], 0, parts[1][1..] + Flatten(parts[2..])) <==>
            WellCut(parts[0], m)
  {
    hide Wired, IsCommand, Flatten, IsLine, Concat, LeftIn, LastChunk, Enter;
    LeftAt(buf, chunks, parts, m);
    FlattenFirst(parts[1..]);
    assert parts[1..][1..] == parts[2..];
    var part, c := parts[0], LastChunk(parts[0], |Print(m.op)|);
    assert part[c..] == [part[c]] + part[c + 1..];
    ConcatFirst(part[c], part[c + 1..]);
    NextStartsRightIff(buf, part[c + 1..], Flatten(parts[1..]));
  }

  /** Messages without inner newlines are well cut however they are cut. */
  lemma CleanIsWellCut(part: seq<Bytes>, m: Message)
    requires OwnChunks(part, m) && CleanPayload(m.op) && NoNewline(m.filler)
    ensures WellCut(part, m)
  {
    hide Print, CleanPayload, IsLine, NoNewline, IsCommand, Concat;
    CommandLong(m.op);
    WiredIsLine(m);
    var c := LastChunk(part, |Print(m.op)|);
    LastChunkInside(part, |Print(m.op)|);
    assert part[c..] == [part[c]] + part[c + 1..];
    ConcatFirst(part[c], part[c + 1..]);
    LineFrom(part, c);
  }

  lemma {:induction false} LastChunkInside(part: seq<Bytes>, n: nat)
    requires 0 < n <= |Concat(part)|
    ensures LastChunk(part, n) < |part|
  {
    if n > |part[0]| { LastChunkInside(part[1..], n - |part[0]|); }
  }

  /** What the lengths are meant to allow and the reader does not: a value with a newline near its end. The update
      is read, but no command in a later chunk ever is: what follows the newline is taken for its word. */
  lemma NewlineInValueBreaksNext(key: Bytes, v: Bytes, w: Bytes, next: Bytes, chunks: seq<Bytes>)
    requires NoNewline(key) && NoNewline(v) && |w| < 3 && |next| >= MIN_BUF_SIZE
    ensures var m := Message(Set(key, v + [NEWLINE] + w), []);
            Expect(Enter(Wired(m), false, [next] + chunks)) == Fail(UnknownOp)
  {
    hide BehindNewline, Print, KeyLen;
    var m := Message(Set(key, v + [NEWLINE] + w), []);
    var line := UpToNewline(key, v, w);
    LineSome(line);
    BehindNewlineIn(line, w + [NEWLINE], 0);
    var buf := w + [NEWLINE] + next;
    assert Wired(m)[|line|..] == w + [NEWLINE];
    assert ([next] + chunks)[0] == next && ([next] + chunks)[1..] == chunks;
    assert buf[..4][|w|] == NEWLINE;
    NoWordWithNewline(buf[..4], |w|);
    assert buf[0..4] == buf[..4];
  }

  /** The message up to the newline in its value, as a line, and what follows it. */
  lemma UpToNewline(key: Bytes, v: Bytes, w: Bytes) returns (line: Bytes)
    requires NoNewline(key) && NoNewline(v)
    ensures IsLine(line) && Wired(Message(Set(key, v + [NEWLINE] + w), [])) == line + (w + [NEWLINE])
  {
    hide Decimal, Spelled;
    var digits := Decimal(|v + [NEWLINE] + w|);
    var front := SpelledNoNewline(digits, v);
    FieldNoNewline(key);
    var head := SET_WORD + Field(key);
    line := (head + front) + [NEWLINE];
    assert line[..|line| - 1] == head + front;
    SpelledSplit(digits, v, w);
    Rejoined(SET_WORD, Field(key), front, w);
  }

  lemma SpelledNoNewline(digits: Bytes, v: Bytes) returns (b: Bytes)
    requires AllDigits(digits) && NoNewline(v)
    ensures b == Spelled(digits, v) && NoNewline(b)
  {
    assert forall i :: 0 <= i < |digits| ==> IsDigit(digits[i]);
    b := Spelled(digits, v);
  }

  lemma SpelledSplit(digits: Bytes, v: Bytes, w: Bytes)
    ensures Spelled(digits, v + [NEWLINE] + w) == Spelled(digits, v) + [NEWLINE] + w
  {
  }

  lemma Rejoined(a: Bytes, b: Bytes, c: Bytes, w: Bytes)
    ensures a + (b + (c + [NEWLINE] + w)) + ([] + [NEWLINE]) == ((a + b + c) + [NEWLINE]) + (w + [NEWLINE])
  {
  }

  lemma NoWordWithNewline(b: Bytes, i: nat)
    requires |b| == 4 && i < 4 && b[i] == NEWLINE
    ensures MatchWord(b) == None
  {
    assert (GET_WORD + [COLON])[i] != NEWLINE && (SET_WORD + [COLON])[i] != NEWLINE && ECHO_WORD[i] != NEWLINE;
  }

  lemma ChunkOf(part: seq<Bytes>, tail: seq<Bytes>, buf: Bytes, chunks: seq<Bytes>, i: nat)
    requires part != [] && i <= |part[1..] + tail| && IsChunk(buf, chunks, At(part[0], 0, part[1..] + tail), i)
    ensures i < |part + tail| && buf == (part + tail)[i] && chunks == (part + tail)[i + 1..]
  {
    assert part + tail == [part[0]] + (part[1..] + tail);
  }

  lemma InsidePart(part: seq<Bytes>, tail: seq<Bytes>, i: nat)
    requires i < |part|
    ensures (part + tail)[i] == part[i] && (part + tail)[i + 1..] == part[i + 1..] + tail
  {
  }

  lemma LineFrom(part: seq<Bytes>, i: nat)
    requires i < |part| && part[i] != [] && IsLine(Concat(part))
    ensures IsLine(part[i] + Concat(part[i + 1..]))
  {
    hide IsLine;
    ConcatSuffix(part, i);
    assert part[i..] == [part[i]] + part[i + 1..];
    ConcatFirst(part[i], part[i + 1..]);
    LineSuffix(Concat(part[..i]), part[i] + Concat(part[i + 1..]));
  }
}
