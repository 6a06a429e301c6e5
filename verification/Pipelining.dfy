/** Several commands in one chunk: the reader mixes them up, and then never leaves the chunk. */
module Pipelining {
  import opened Bytes
  import opened Wire
  import opened Proto
  import opened Session

  // ---------------------------------------------------------------- where the reader goes

  /** Where a reader goes when bytes of the next message came in the same chunk as a newline: fewer than four
      are kept for the next chunk, four or more leave the reader in the old chunk. */
  lemma EnterAfterLine(line: Bytes, tail: Bytes, chunks: seq<Bytes>)
    requires IsLine(line)
    ensures Enter(line + tail, false, chunks)
         == if |tail| >= MIN_BUF_SIZE then At(line + tail, |line|, chunks)
            else if chunks == [] then Ended
            else OpAt(tail + chunks[0], chunks[1..])
  {
    hide OpAt, IsLine;
    LineSome(line);
    BehindNewlineIn(line, tail, 0);
    assert (line + tail)[|line|..] == tail;
  }

  // ---------------------------------------------------------------- what it reads there

  /** A chunk that has been used: its first line, whatever it is part of, and four bytes or more behind it. */
  predicate UsedChunk(line: Bytes, tail: Bytes) {
    IsLine(line) && |tail| >= MIN_BUF_SIZE
  }

  /** What the next read sees behind the word at the head of `tail`: the chunk once more, from where that word
      would end if it stood at the chunk's head, and then the tail again and all that is to come. */
  function Fields(w: OpWord, line: Bytes, tail: Bytes, chunks: seq<Bytes>): Bytes
    requires |line + tail| >= MIN_BUF_SIZE
  {
    (line + tail)[WordEnd(w)..] + Supply(tail, chunks)
  }

  lemma UsedRead(line: Bytes, tail: Bytes, chunks: seq<Bytes>)
    requires UsedChunk(line, tail)
    ensures Enter(line + tail, false, chunks) == At(line + tail, |line|, chunks)
    ensures Expect(Enter(line + tail, false, chunks))
         == match MatchWord(tail[..4])
            case None => Fail(UnknownOp)
            case Some(w) => KeyLen(w, false, [], Fields(w, line, tail, chunks))
  {
    hide MatchWord, KeyLen, IsLine, Enter;
    LineSome(line);
    EnterAfterLine(line, tail, chunks);
    assert (line + tail)[|line|..|line| + 4] == tail[..4];
    assert (line + tail)[|line|..] == tail;
  }

  /** The next read in ANY used chunk returns a command if and only if the word behind the first newline is the
      command's, and the command is spelled by that word and the bytes at the head of the chunk. */
  lemma UsedReadExact(line: Bytes, tail: Bytes, chunks: seq<Bytes>, next: ProtoOp, rest: Bytes)
    requires UsedChunk(line, tail)
    ensures Expect(Enter(line + tail, false, chunks)) == Complete(next, rest) <==>
            && IsCommandKind(next) && MatchWord(tail[..4]) == Some(WordOf(next))
            && exists d, d' ::
                 IsSpelling(WordText(WordOf(next)) + Fields(WordOf(next), line, tail, chunks), next, rest, d, d')
  {
    hide MatchWord, KeyLen, IsLine, Enter, Expect, IsSpelling, Fields, WordText;
    UsedRead(line, tail, chunks);
    var word := MatchWord(tail[..4]);
    if word.Some? { BehindWordExact(word.value, Fields(word.value, line, tail, chunks), next, rest); }
  }

  /** It fails if and only if there is no word behind that newline, or the fields at the head of the chunk have
      that fault. */
  lemma UsedReadFailsIff(line: Bytes, tail: Bytes, chunks: seq<Bytes>, e: ProtoError)
    requires UsedChunk(line, tail)
    ensures Expect(Enter(line + tail, false, chunks)) == Fail(e) <==>
            match MatchWord(tail[..4])
            case None => e == UnknownOp
            case Some(w) => IsFaulty(w, Fields(w, line, tail, chunks), e)
  {
    hide MatchWord, KeyLen, IsLine, Enter, Expect, IsFaulty, Fields;
    UsedRead(line, tail, chunks);
    var word := MatchWord(tail[..4]);
    if word.Some? {
      var w, x := word.value, Fields(word.value, line, tail, chunks);
      if KeyLen(w, false, [], x) == Fail(e) { FailsOnlyFaulty(w, x, e); }
      if IsFaulty(w, x, e) { FaultyFails(w, x, e); }
    }
  }

  // ---------------------------------------------------------------- chunks that begin with a command

  /** The outcome of a command whose word lies behind a newline in the chunk that begins with `first`: the reader
      takes the word of the new command and everything else from the OLD one. `behind` is what follows the
      printed form of `first`: the rest of the chunk and all that is to come. */
  function Misreading(first: ProtoOp, w: OpWord, behind: Bytes): Outcome
    requires IsCommand(first)
  {
    if w == WordOf(first) then Complete(first, behind)
    else if first.Set? && w == GetWord then Complete(Get(first.key), Field(first.value) + behind)
    else if first.Get? && w == SetWord then ValueLen(first.key, false, [], behind)
    else Fail(ExpectedColon)
  }

  /** A chunk that begins with a whole command, and the same chunk as its first line and four bytes or more behind it.
      The newline of that line may be the command's own or one inside its payload. */
  predicate SharedChunk(op: ProtoOp, after: Bytes, line: Bytes, tail: Bytes) {
    IsCommand(op) && UsedChunk(line, tail) && Print(op) + after == line + tail
  }

  /** The outcome of the read that follows, whatever the payload, whatever is behind the command and whatever
      follows the chunk. */
  lemma PipelinedReadExact(op: ProtoOp, after: Bytes, line: Bytes, tail: Bytes, chunks: seq<Bytes>)
    requires SharedChunk(op, after, line, tail)
    ensures Enter(line + tail, false, chunks) == At(line + tail, |line|, chunks)
    ensures Expect(Enter(line + tail, false, chunks))
         == match MatchWord(tail[..4])
            case None => Fail(UnknownOp)
            case Some(w) => Misreading(op, w, after + Supply(tail, chunks))
  {
    hide MatchWord, KeyLen, Print, IsLine, Enter, Expect, ValidUtf8, Misreading, IsCommand;
    UsedRead(line, tail, chunks);
    var word := MatchWord(tail[..4]);
    if word.Some? {
      var w, saved := word.value, Supply(tail, chunks);
      CommandLong(op);
      Regroup(Print(op), after, saved, WordEnd(w));
      MixedRead(op, w, after + saved);
    }
  }

  /** Two messages without inner newlines: the line is the first message, and the word behind it the second's. */
  lemma TwoMessages(m: Message, next: ProtoOp, tail: Bytes)
    requires IsCommand(m.op) && CleanPayload(m.op) && NoNewline(m.filler)
    requires IsCommand(next) && |tail| >= 4 && |Print(next)| >= 4 && tail[..4] == Print(next)[..4]
    ensures SharedChunk(m.op, m.filler + [NEWLINE] + tail, Wired(m), tail)
    ensures MatchWord(tail[..4]) == Some(WordOf(next))
  {
    hide MatchWord, Print, IsLine, CleanPayload, ValidUtf8;
    WiredIsLine(m);
    PrintedWord(next, []);
    assert Print(next) + [] == Print(next);
  }

  /** The bytes begin with a field that holds `value`. */
  ghost predicate SpellsValue(b: Bytes, value: Bytes) {
    exists digits, rest :: Measures(digits, |value|) && b == Spelled(digits, value) + rest
  }

  /** So that read returns a command if and only if the word behind the line is its word, and it repeats the command
      at the head of the chunk, or looks up the key that one set, or sets the key that one looked up to a value that is
      spelled right behind it. */
  lemma PipelinedReadIsRightIff(op: ProtoOp, after: Bytes, line: Bytes, tail: Bytes, chunks: seq<Bytes>,
                                next: ProtoOp, end: End)
    requires SharedChunk(op, after, line, tail) && IsCommand(next)
    ensures Result(Expect(Enter(line + tail, false, chunks)), end) == Ok(next) <==>
            && MatchWord(tail[..4]) == Some(WordOf(next))
            && (|| next == op
                || (op.Set? && next == Get(op.key))
                || (op.Get? && next.Set? && next.key == op.key
                    && SpellsValue(after + Supply(tail, chunks), next.value)))
  {
    hide MatchWord, KeyLen, Print, Enter, ValidUtf8, IsLine, Expect, ValueLen, SpellsValue, Supply;
    PipelinedReadExact(op, after, line, tail, chunks);
    NeverEnds(end);
    if op.Get? { ValueReadIff(op.key, after + Supply(tail, chunks), next); }
  }

  lemma NeverEnds(end: End)
    ensures AtEnd(end).Ok? ==> AtEnd(end).op.SysClose? || AtEnd(end).op.Cancelled?
  {
  }

  lemma ValueReadIff(key: Bytes, b: Bytes, op: ProtoOp)
    requires ValidUtf8(key)
    ensures (ValueLen(key, false, [], b).Complete? && ValueLen(key, false, [], b).op == op) <==>
            op.Set? && op.key == key && SpellsValue(b, op.value)
  {
    hide ValueLen, ValidUtf8, Measures, Spelled;
    if ValueLen(key, false, [], b).Complete? {
      var digits, data, rest := ValueFieldInverse(key, b);
    }
    if op.Set? && op.key == key && SpellsValue(b, op.value) {
      var digits, rest :| Measures(digits, |op.value|) && b == Spelled(digits, op.value) + rest;
      ValueField(key, digits, op.value, rest);
    }
  }

  // ---------------------------------------------------------------- the reader is caught

  /** The next word lies behind a newline in the reader's own buffer, and reading `op` needs no refill. */
  ghost predicate Caught(buf: Bytes, chunks: seq<Bytes>, op: ProtoOp) {
    var e := Enter(buf, false, chunks);
    && e.At? && 0 < e.ptr <= |buf| && e.buf == buf && e.chunks == chunks
    && Expect(e).Complete? && Expect(e).op == op && IsCommandKind(op)
    && |Expect(e).rest| >= |Supply(buf[e.ptr..], chunks)|
  }

  /** A caught reader does not move: buffer and stream are as before, and so is the next outcome. */
  lemma CaughtStays(buf: Bytes, chunks: seq<Bytes>, op: ProtoOp, buf': Bytes, chunks': seq<Bytes>)
    requires Caught(buf, chunks, op)
    requires var e := Enter(buf, false, chunks); LeftIn(buf', chunks', e, Expect(e).rest)
    ensures buf' == buf && chunks' == chunks
  {
    hide Enter, Expect, Supply, LeftIn;
    NotRefilled(buf', chunks', Enter(buf, false, chunks), Expect(Enter(buf, false, chunks)).rest);
  }

  /** The reader is caught in ANY used chunk if and only if the word behind its first newline and the bytes at its
      head spell a command within the chunk. */
  lemma UsedIsCaught(line: Bytes, tail: Bytes, chunks: seq<Bytes>, again: ProtoOp)
    requires UsedChunk(line, tail)
    ensures Caught(line + tail, chunks, again) <==>
            && IsCommandKind(again) && MatchWord(tail[..4]) == Some(WordOf(again))
            && exists rest, d, d' ::
                 IsSpelling(WordText(WordOf(again)) + (line + tail)[WordEnd(WordOf(again))..], again, rest, d, d')
  {
    hide MatchWord, KeyLen, IsLine, Enter, Expect, IsSpelling, WordText, Supply, WordEnd;
    LineSome(line);
    UsedRead(line, tail, chunks);
    assert (line + tail)[|line|..] == tail;
    var word := MatchWord(tail[..4]);
    if word.Some? {
      WordEndBound(word.value);
      var w, x := word.value, (line + tail)[WordEnd(word.value)..];
      EndsBeforeIff(w, x, Supply(tail, chunks), again);
      SpelledSomehow(w, x, again);
    }
  }

  lemma WordEndBound(w: OpWord)
    ensures WordEnd(w) <= MIN_BUF_SIZE
  {
  }

  lemma SpelledSomehow(w: OpWord, x: Bytes, op: ProtoOp)
    ensures (KeyLen(w, false, [], x).Complete? && KeyLen(w, false, [], x).op == op) <==>
            IsCommandKind(op) && w == WordOf(op) && exists rest, d, d' :: IsSpelling(WordText(w) + x, op, rest, d, d')
  {
    hide KeyLen, IsSpelling, WordText;
    var o := KeyLen(w, false, [], x);
    if o.Complete? { BehindWordExact(w, x, o.op, o.rest); }
    forall rest, d, d' | IsSpelling(WordText(w) + x, op, rest, d, d') && IsCommandKind(op) && w == WordOf(op)
      ensures o == Complete(op, rest)
    {
      SpelledIsRead(w, x, op, rest, d, d');
    }
  }

  /** In a chunk that begins with a command it is so if and only if the word behind the line is that of this command,
      or is a lookup's behind an update, or is an update's behind a lookup and a value is spelled in the chunk right
      behind that. */
  lemma PipelinedIsCaught(op: ProtoOp, after: Bytes, line: Bytes, tail: Bytes, chunks: seq<Bytes>, again: ProtoOp)
    requires SharedChunk(op, after, line, tail)
    ensures Caught(line + tail, chunks, again) <==>
            match MatchWord(tail[..4])
            case None => false
            case Some(w) =>
              || (w == WordOf(op) && again == op)
              || (op.Set? && w == GetWord && again == Get(op.key))
              || (op.Get? && w == SetWord && again.Set? && again.key == op.key && SpellsValue(after, again.value))
  {
    hide MatchWord, Print, IsLine, Enter, Expect, ValueLen, Field, ValidUtf8, Supply, SpellsValue;
    LineSome(line);
    PipelinedReadExact(op, after, line, tail, chunks);
    assert (line + tail)[|line|..] == tail;
    if op.Get? { ValueWithinIff(op.key, after, Supply(tail, chunks), again); }
  }

  /** Reading a value field ends before `more` if and only if the field lies within the bytes before it. */
  lemma ValueWithinIff(key: Bytes, b: Bytes, more: Bytes, op: ProtoOp)
    requires ValidUtf8(key)
    ensures var o := ValueLen(key, false, [], b + more);
            (o.Complete? && o.op == op && |o.rest| >= |more|) <==>
            op.Set? && op.key == key && SpellsValue(b, op.value)
  {
    hide ValueLen, ValidUtf8, Measures, Spelled;
    var o := ValueLen(key, false, [], b + more);
    if o.Complete? && |o.rest| >= |more| {
      var digits, data, rest := ValueFieldInverse(key, b + more);
      PrefixOf(b, more, Spelled(digits, data), rest);
    }
    if op.Set? && op.key == key && SpellsValue(b, op.value) {
      var digits, rest :| Measures(digits, |op.value|) && b == Spelled(digits, op.value) + rest;
      ValueField(key, digits, op.value, rest + more);
      assert b + more == Spelled(digits, op.value) + (rest + more);
    }
  }

  lemma PrefixOf(b: Bytes, more: Bytes, field: Bytes, rest: Bytes)
    requires b + more == field + rest && |rest| >= |more|
    ensures |field| <= |b| && b == field + b[|field|..]
  {
    assert |b + more| == |b| + |more| && |field + rest| == |field| + |rest|;
    assert b == (b + more)[..|b|];
  }

  /** From then on every read returns the same command and the rest of the stream is never reached. So the
      reads return the commands that were sent if and only if those are all this one command. */
  method ReadAgain(proto: Proto, n: nat, ghost op: ProtoOp) returns (results: seq<ReadResult>)
    requires proto.Valid() && !proto.pristine && Caught(proto.buf, proto.chunks, op)
    modifies proto
    ensures proto.Valid() && !proto.pristine && proto.buf == old(proto.buf) && proto.chunks == old(proto.chunks)
    ensures |results| == n && forall i :: 0 <= i < n ==> results[i] == Ok(op)
    ensures forall sent: seq<ProtoOp> | |sent| == n ::
              (forall i :: 0 <= i < n ==> results[i] == Ok(sent[i])) <==> (forall i :: 0 <= i < n ==> sent[i] == op)
  {
    hide Enter, Expect, LeftIn;
    results := [];
    for i := 0 to n
      invariant proto.Valid() && !proto.pristine
      invariant proto.buf == old(proto.buf) && proto.chunks == old(proto.chunks)
      invariant |results| == i && forall j :: 0 <= j < i ==> results[j] == Ok(op)
    {
      var r := proto.Read();
      CaughtStays(old(proto.buf), old(proto.chunks), op, proto.buf, proto.chunks);
      results := results + [r];
    }
  }

  /** The first chunk begins with a whole command. */
  predicate StartsWith(chunks: seq<Bytes>, op: ProtoOp) {
    IsCommand(op) && chunks != [] && Print(op) <= chunks[0]
  }

  /** On a fresh connection that command is read, and the reader stays in the chunk. */
  lemma FirstOfChunk(buf: Bytes, chunks: seq<Bytes>, op: ProtoOp)
    requires StartsWith(chunks, op)
    ensures var e := Enter(buf, true, chunks);
            && e == At(chunks[0], 0, chunks[1..])
            && Expect(e).Complete? && Expect(e).op == op
            && |Expect(e).rest| >= |Supply(SavedAt(e, 0), e.chunks)|
  {
    hide Parse, Expect, Print, IsCommand, Concat;
    CommandLong(op);
    ChunkIndependence(buf, chunks);
    var after := chunks[0][|Print(op)|..];
    var rest := after + Concat(chunks[1..]);
    ParsePrint(op, rest);
    ConcatFirst(chunks[0], chunks[1..]);
    assert chunks == [chunks[0]] + chunks[1..];
    assert chunks[0] == Print(op) + after;
    assert Concat(chunks) == Print(op) + rest;
    SupplyPlain(chunks[1..]);
  }

  // ---------------------------------------------------------------- a chunk that begins inside a message

  /** A fresh reader whose command ended in a later chunk stands in that chunk: what is left reaches into it. */
  lemma StandsIn(buf: Bytes, chunks: seq<Bytes>, e: Entry, rest: Bytes, k: nat)
    requires e.At? && e.ptr == 0 && LeftIn(buf, chunks, e, rest) && 0 < k <= |e.chunks|
    requires |Concat(e.chunks[k..])| <= |rest| < |Concat(e.chunks[k - 1..])|
    ensures buf == e.chunks[k - 1] && chunks == e.chunks[k..]
  {
    hide Concat;
    var i: nat, p: nat :| StopsAt(buf, chunks, e, rest, i, p);
    SupplyPlain(chunks);
    if i < k {
      ConcatFrom(e.chunks, i, k - 1);
    } else if i > k {
      ConcatTailFrom(e.chunks, k, i);
    }
  }

  lemma ConcatFrom(chunks: seq<Bytes>, i: nat, k: nat)
    requires i <= k <= |chunks|
    ensures |Concat(chunks[k..])| <= |Concat(chunks[i..])|
  {
    hide Concat;
    assert chunks[k..] == chunks[i..][k - i..];
    ConcatShorter(chunks[i..], k - i);
  }

  lemma ConcatTailFrom(chunks: seq<Bytes>, k: nat, i: nat)
    requires k < i <= |chunks|
    ensures |chunks[i - 1]| + |Concat(chunks[i..])| <= |Concat(chunks[k..])|
  {
    hide Concat;
    assert chunks[k..][i - k - 1] == chunks[i - 1] && chunks[k..][i - k..] == chunks[i..];
    ConcatTail(chunks[k..], i - k);
  }

  lemma ConcatShorter(chunks: seq<Bytes>, i: nat)
    requires i <= |chunks|
    ensures |Concat(chunks[i..])| <= |Concat(chunks)|
  {
    hide Concat;
    assert chunks == chunks[..i] + chunks[i..];
    ConcatAppend(chunks[..i], chunks[i..]);
  }

  /** An update whose value ends with any three bytes and a printed key, cut before those, and then, in the same
      chunk, a lookup of any key. The update is read; then the reader returns a lookup of the key in the VALUE, and is
      caught. */
  lemma ValueChoosesKey(at: Bytes, x: Bytes, head: Bytes, key: Bytes, tail: Bytes, more: seq<Bytes>,
                        buf: Bytes, chunks: seq<Bytes>)
    requires |head| == 3 && NoNewline(head) && NoNewline(key) && IsCommand(Get(key))
    requires |tail| >= MIN_BUF_SIZE && tail[..4] == GET_WORD + [COLON]
    requires var y := head + Field(key); IsCommand(Set(at, x + y))
    ensures var y := head + Field(key);
            var stream := [Cut(at, x, |y|), y + [NEWLINE] + tail] + more;
            var e := Enter([], true, stream);
            && Cut(at, x, |y|) + y == Print(Set(at, x + y))
            && Expect(e).Complete? && Expect(e).op == Set(at, x + y)
            && e.At? && e.ptr <= |e.buf|
            && (LeftIn(buf, chunks, e, Expect(e).rest) ==>
                  buf == y + [NEWLINE] + tail && chunks == more && Caught(buf, chunks, Get(key)))
  {
    hide Print, Field, Concat, Expect, Parse, LeftIn, Caught, ValidUtf8, IsLine, Cut;
    var y := head + Field(key);
    var c1, c2 := Cut(at, x, |y|), y + [NEWLINE] + tail;
    var stream := [c1, c2] + more;
    var rest := [NEWLINE] + tail + Concat(more);
    CutLong(at, x, y);
    ConcatTwo(c1, c2, more);
    assert c1 + (c2 + Concat(more)) == (c1 + y) + rest;
    ChunkIndependence([], stream);
    ParsePrint(Set(at, x + y), rest);
    var e := Enter([], true, stream);
    assert stream[1..] == [c2] + more;
    if LeftIn(buf, chunks, e, rest) {
      assert e.chunks[0..] == [c2] + more && e.chunks[1..] == more;
      ConcatFirst(c2, more);
      StandsIn(buf, chunks, e, rest, 1);
      KeyInLine(head, key, tail, more);
    }
  }

  /** A printed update without the last `n` bytes of its value. */
  function Cut(at: Bytes, x: Bytes, n: nat): Bytes {
    SET_WORD + (Field(at) + ([COLON] + Decimal(|x| + n) + [COLON] + x))
  }

  lemma CutLong(at: Bytes, x: Bytes, y: Bytes)
    ensures |Cut(at, x, |y|)| >= MIN_BUF_SIZE && Cut(at, x, |y|) + y == Print(Set(at, x + y))
  {
    hide Decimal;
    var front := [COLON] + Decimal(|x| + |y|) + [COLON];
    Associates(front, x, y);
    Associates(Field(at), front + x, y);
    Associates(SET_WORD, Field(at) + (front + x), y);
  }

  lemma ConcatTwo(a: Bytes, b: Bytes, more: seq<Bytes>)
    ensures Concat([a, b] + more) == a + (b + Concat(more))
  {
    hide Concat;
    assert [a, b] + more == [a] + ([b] + more);
    ConcatFirst(a, [b] + more);
    ConcatFirst(b, more);
  }

  lemma KeyInLine(head: Bytes, key: Bytes, tail: Bytes, chunks: seq<Bytes>)
    requires |head| == 3 && NoNewline(head) && NoNewline(key) && IsCommand(Get(key))
    requires |tail| >= MIN_BUF_SIZE && tail[..4] == GET_WORD + [COLON]
    ensures Caught(head + Field(key) + [NEWLINE] + tail, chunks, Get(key))
  {
    hide Caught, ValidUtf8, Decimal, Spelled, MatchWord;
    var y, rest := head + Field(key), [NEWLINE] + tail;
    var line := y + [NEWLINE];
    FieldNoNewline(key);
    assert line[..|line| - 1] == y;
    UsedIsCaught(line, tail, chunks, Get(key));
    WordsMatch();
    DecimalMeasures(|key|);
    assert (line + tail)[3..] == Field(key) + rest;
    var w := WordOf(Get(key));
    assert IsSpelling(WordText(w) + (line + tail)[WordEnd(w)..], Get(key), rest, Decimal(|key|), []);
  }

  /** `SET:1:a:9:xx` */
  const UPDATE_HEAD: Bytes := [83, 69, 84, 58, 49, 58, 97, 58, 57, 58, 120, 120]

  /** `abc:1:k`, the rest of the value */
  const VALUE_TAIL: Bytes := [97, 98, 99, 58, 49, 58, 107]

  /** `GET:3:foo` and a newline */
  const LOOKUP_OF_FOO: Bytes := [71, 69, 84, 58, 51, 58, 102, 111, 111, 10]

  /** For example, `SET:1:a:9:xx` in one chunk and `abc:1:k`, newline, `GET:3:foo`, newline in the next: the lookup of
      `foo` is read as a lookup of `k`, whatever follows, and so is every later command. */
  lemma LookupOfAnotherKey(more: seq<Bytes>, buf: Bytes, chunks: seq<Bytes>)
    ensures var second := VALUE_TAIL + [NEWLINE] + LOOKUP_OF_FOO;
            var e := Enter([], true, [UPDATE_HEAD, second] + more);
            && Expect(e).Complete? && Expect(e).op == Set([97], [120, 120] + VALUE_TAIL)
            && e.At? && e.ptr <= |e.buf|
            && (LeftIn(buf, chunks, e, Expect(e).rest) ==>
                  buf == second && chunks == more && Caught(buf, chunks, Get([107])))
  {
    hide Enter, Expect, LeftIn, Caught, Cut, Field, ValidUtf8;
    ExampleBytes();
    ExampleCut();
    ValueChoosesKey([97], [120, 120], [97, 98, 99], [107], LOOKUP_OF_FOO, more, buf, chunks);
  }

  lemma ExampleBytes()
    ensures [97, 98, 99] + Field([107]) == VALUE_TAIL
    ensures LOOKUP_OF_FOO[..4] == GET_WORD + [COLON]
    ensures ValidUtf8([97]) && ValidUtf8([107])
  {
    ShortField([107]);
  }

  lemma ShortField(data: Bytes)
    requires |data| == 1
    ensures Field(data) == [COLON, 49, COLON] + data
  {
  }

  lemma ExampleCut()
    ensures Cut([97], [120, 120], 7) == UPDATE_HEAD
  {
    hide Field;
    ShortField([97]);
    assert Decimal(9) == [57];
  }

  // ---------------------------------------------------------------- one command behind the word of another

  /** A printed command read behind the word of another one. */
  lemma MixedRead(op: ProtoOp, w: OpWord, rest: Bytes)
    requires IsCommand(op) && |Print(op)| >= MIN_BUF_SIZE
    ensures KeyLen(w, false, [], (Print(op) + rest)[WordEnd(w)..]) == Misreading(op, w, rest)
  {
    hide MatchWord, KeyLen, ValidUtf8, Print, KeyBody, Spelled, ValueLen;
    if w == WordOf(op) {
      ParsePrint(op, rest);
      PrintedWord(op, rest);
    } else if w == EchoWord || op.Echo? {
      NoColonThere(op, w, rest);
      NotColon(w, (Print(op) + rest)[WordEnd(w)..]);
    } else {
      var behind := BehindKey(op) + rest;
      KeyPart(op, rest);
      DecimalMeasures(|op.key|);
      KeyField(w, Decimal(|op.key|), op.key, behind);
      KeyBodyDone(w, op.key, behind);
      if op.Get? {
        assert behind == rest;
      }
    }
  }

  lemma NotColon(w: OpWord, b: Bytes)
    requires b != [] && b[0] != COLON
    ensures KeyLen(w, false, [], b) == Fail(ExpectedColon)
  {
  }

  /** Five bytes into a lookup or an update is a digit, four bytes into an echo a letter: never a colon. */
  lemma NoColonThere(op: ProtoOp, w: OpWord, rest: Bytes)
    requires IsCommand(op) && w != WordOf(op) && (w == EchoWord || op.Echo?) && |Print(op)| >= MIN_BUF_SIZE
    ensures var b := (Print(op) + rest)[WordEnd(w)..]; b != [] && b[0] != COLON
  {
    hide Decimal, ValidUtf8;
    if op.Echo? {
      assert Print(op)[3] == ECHO_WORD[3];
    } else {
      assert IsDigit(Decimal(|op.key|)[0]);
      assert Field(op.key)[1] == Decimal(|op.key|)[0];
      assert Print(op)[4] == Field(op.key)[1];
    }
  }

  function BehindKey(op: ProtoOp): Bytes
    requires op.Get? || op.Set?
  {
    if op.Get? then [] else Field(op.value)
  }

  lemma KeyPart(op: ProtoOp, rest: Bytes)
    requires op.Get? || op.Set?
    ensures |Print(op)| >= 3 && (Print(op) + rest)[3..] == Field(op.key) + (BehindKey(op) + rest)
  {
    hide Field;
    if op.Get? {
      Associates(GET_WORD, Field(op.key), rest);
      assert [] + rest == rest;
    } else {
      Associates(Field(op.key), Field(op.value), rest);
      Associates(SET_WORD, Field(op.key) + Field(op.value), rest);
    }
  }

  lemma Regroup(p: Bytes, after: Bytes, saved: Bytes, k: nat)
    requires k <= |p|
    ensures (p + (after + saved))[k..] == (p + after)[k..] + saved
  {
    assert p + (after + saved) == (p + after) + saved;
  }

  lemma PrintedWord(op: ProtoOp, rest: Bytes)
    requires IsCommandKind(op)
    ensures |Print(op)| >= MIN_BUF_SIZE
    ensures MatchWord((Print(op) + rest)[..4]) == Some(WordOf(op))
  {
    hide MatchWord, Field;
    PrintLong(op);
    WordsMatch();
    match op
    case Get(key) =>
      FieldHead(key, rest);
      WordThenField(GET_WORD, Field(key) + rest);
      Associates(GET_WORD, Field(key), rest);
    case Set(key, value) =>
      FieldHead(key, Field(value) + rest);
      WordThenField(SET_WORD, Field(key) + (Field(value) + rest));
      Associates(Field(key), Field(value), rest);
      Associates(SET_WORD, Field(key) + Field(value), rest);
    case Echo(msg) =>
      EchoThenField(Field(msg) + rest);
      Associates(ECHO_WORD, Field(msg), rest);
  }

  lemma FieldHead(data: Bytes, rest: Bytes)
    ensures Field(data) + rest != [] && (Field(data) + rest)[0] == COLON
  {
    hide Decimal;
  }
}
