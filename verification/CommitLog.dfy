/** The commit log: its lines, its byte format and the transactions it leaves unfinished. */
module CommitLog {
  import opened Bytes
  import opened Store
  import opened Bincode

  datatype Line = BeginTx(tx: Transaction) | EndTx(id: Uuid)

  function LineId(line: Line): Uuid {
    match line
    case BeginTx(tx) => tx.id
    case EndTx(id) => id
  }

  // ---------------------------------------------------------------- unfinished transactions

  /** Line `i` begins a transaction that no later line begins again or ends. */
  predicate IsOpen(log: seq<Line>, i: nat)
    requires i < |log|
  {
    log[i].BeginTx? && forall j :: i < j < |log| ==> LineId(log[j]) != log[i].tx.id
  }

  function OpenBefore(log: seq<Line>, n: nat): seq<Transaction>
    requires n <= |log|
  {
    if n == 0 then []
    else OpenBefore(log, n - 1) + (if IsOpen(log, n - 1) then [log[n - 1].tx] else [])
  }

  /** The unfinished transactions of a log, in log order. */
  function Unfinished(log: seq<Line>): seq<Transaction> {
    OpenBefore(log, |log|)
  }

  /** The numbers of the open lines among the first `n`, in order. */
  function OpenLines(log: seq<Line>, n: nat): seq<nat>
    requires n <= |log|
  {
    if n == 0 then [] else OpenLines(log, n - 1) + (if IsOpen(log, n - 1) then [n - 1] else [])
  }

  lemma {:induction false} OpenLineAt(log: seq<Line>, n: nat, a: nat)
    requires n <= |log| && a < |OpenLines(log, n)|
    ensures |OpenLines(log, n)| == |OpenBefore(log, n)|
    ensures var i := OpenLines(log, n)[a]; i < n && IsOpen(log, i) && log[i] == BeginTx(OpenBefore(log, n)[a])
  {
    hide IsOpen;
    OpenLinesLength(log, n - 1);
    OpenBegins(log, n - 1);
    if a < |OpenLines(log, n - 1)| { OpenLineAt(log, n - 1, a); }
  }

  lemma {:induction false} OpenLinesLength(log: seq<Line>, n: nat)
    requires n <= |log|
    ensures |OpenLines(log, n)| == |OpenBefore(log, n)|
  {
    hide IsOpen;
    if n > 0 { OpenLinesLength(log, n - 1); }
  }

  lemma {:induction false} OpenLinesAscend(log: seq<Line>, n: nat, a: nat, b: nat)
    requires n <= |log| && a < b < |OpenLines(log, n)|
    ensures OpenLines(log, n)[a] < OpenLines(log, n)[b]
  {
    hide IsOpen;
    if b < |OpenLines(log, n - 1)| {
      OpenLinesAscend(log, n - 1, a, b);
    } else {
      OpenLineAt(log, n - 1, a);
    }
  }

  lemma {:induction false} OpenLineListed(log: seq<Line>, n: nat, i: nat)
    requires i < n <= |log| && IsOpen(log, i)
    ensures i in OpenLines(log, n)
  {
    hide IsOpen;
    if i < n - 1 { OpenLineListed(log, n - 1, i); }
  }

  lemma OpenBegins(log: seq<Line>, i: nat)
    requires i < |log|
    ensures IsOpen(log, i) ==> log[i].BeginTx?
  {
  }

  /** A transaction is unfinished if and only if some line begins it and no later line begins or ends its id; and
      the unfinished transactions come in the order of those lines. */
  lemma UnfinishedExact(log: seq<Line>) returns (at: seq<nat>)
    ensures |at| == |Unfinished(log)| && forall a, b :: 0 <= a < b < |at| ==> at[a] < at[b]
    ensures forall a :: 0 <= a < |at| ==> at[a] < |log| && log[at[a]] == BeginTx(Unfinished(log)[a])
    ensures forall i :: 0 <= i < |log| ==> (i in at <==> IsLastLineOfBegun(log, i))
  {
    hide OpenLines, OpenBefore, IsOpen, IsLastLineOfBegun;
    at := OpenLines(log, |log|);
    OpenLinesLength(log, |log|);
    forall a | 0 <= a < |at| ensures at[a] < |log| && IsOpen(log, at[a]) && log[at[a]] == BeginTx(Unfinished(log)[a]) {
      OpenLineAt(log, |log|, a);
    }
    forall a, b | 0 <= a < b < |at| ensures at[a] < at[b] { OpenLinesAscend(log, |log|, a, b); }
    forall i | 0 <= i < |log| ensures i in at <==> IsLastLineOfBegun(log, i) {
      SameAsOpen(log, i);
      if IsOpen(log, i) { OpenLineListed(log, |log|, i); }
    }
  }

  predicate IsLastLineOfBegun(log: seq<Line>, i: nat)
    requires i < |log|
  {
    && log[i].BeginTx?
    && (forall j :: i < j < |log| && log[j].BeginTx? ==> log[j].tx.id != log[i].tx.id)
    && (forall j :: i < j < |log| && log[j].EndTx? ==> log[j].id != log[i].tx.id)
  }

  lemma SameAsOpen(log: seq<Line>, i: nat)
    requires i < |log|
    ensures IsOpen(log, i) <==> IsLastLineOfBegun(log, i)
  {
  }

  type Entry = (nat, Transaction)

  predicate DistinctIndices(s: set<Entry>) {
    forall a, b :: a in s && b in s && a.0 == b.0 ==> a == b
  }

  predicate IsNewest(e: Entry, s: set<Entry>) {
    e in s && forall e' :: e' in s ==> e'.0 <= e.0
  }

  lemma {:induction false} NewestExists(s: set<Entry>)
    requires s != {}
    ensures exists e :: IsNewest(e, s)
    decreases |s|
  {
    var x :| x in s;
    if s == {x} {
      assert IsNewest(x, s);
    } else {
      NewestExists(s - {x});
      var m :| IsNewest(m, s - {x});
      assert IsNewest(if x.0 > m.0 then x else m, s);
    }
  }

  /** `into_values().sorted_by_key(index)`, then the transactions alone. */
  function InIndexOrder(s: set<Entry>): seq<Transaction>
    requires DistinctIndices(s)
    decreases |s|
  {
    if s == {} then []
    else
      NewestExists(s);
      var e :| IsNewest(e, s);
      InIndexOrder(s - {e}) + [e.1]
  }

  lemma IndexOrderPush(s: set<Entry>, last: Entry)
    requires DistinctIndices(s) && forall e :: e in s ==> e.0 < last.0
    ensures DistinctIndices(s + {last})
    ensures InIndexOrder(s + {last}) == InIndexOrder(s) + [last.1]
  {
    var all := s + {last};
    assert all - {last} == s;
    assert forall e :: IsNewest(e, all) ==> e == last;
    NewestExists(all);
  }

  function OpenEntries(log: seq<Line>, n: nat): set<Entry>
    requires n <= |log|
  {
    set i | 0 <= i < n && IsOpen(log, i) :: (i, log[i].tx)
  }

  lemma NoEntries(log: seq<Line>)
    ensures OpenEntries(log, 0) == {}
    ensures DistinctIndices({}) && InIndexOrder({}) == []
  {
  }

  lemma OpenEntriesStep(log: seq<Line>, n: nat)
    requires n < |log|
    ensures OpenEntries(log, n + 1)
         == if IsOpen(log, n) then OpenEntries(log, n) + {(n, log[n].tx)} else OpenEntries(log, n)
    ensures forall e :: e in OpenEntries(log, n) ==> e.0 < n
  {
  }

  /** Sorting the open entries by their line number lists them in log order. */
  lemma {:induction false} SortingGivesLogOrder(log: seq<Line>, n: nat)
    requires n <= |log|
    ensures DistinctIndices(OpenEntries(log, n))
    ensures InIndexOrder(OpenEntries(log, n)) == OpenBefore(log, n)
  {
    hide InIndexOrder, OpenEntries, DistinctIndices;
    if n == 0 {
      NoEntries(log);
    } else {
      SortingGivesLogOrder(log, n - 1);
      OpenEntriesStep(log, n - 1);
      if IsOpen(log, n - 1) { IndexOrderPush(OpenEntries(log, n - 1), (n - 1, log[n - 1].tx)); }
    }
  }

  /** What the hash map of `get_unfinished_transactions` holds after reading `log`. */
  ghost predicate Tracks(txs: map<Uuid, Entry>, log: seq<Line>) {
    && (forall id :: id in txs ==>
          && txs[id].0 < |log| && IsOpen(log, txs[id].0)
          && log[txs[id].0].tx == txs[id].1 && txs[id].1.id == id)
    && (forall i :: 0 <= i < |log| && IsOpen(log, i) ==>
          log[i].tx.id in txs && txs[log[i].tx.id] == (i, log[i].tx))
  }

  lemma TracksStep(txs: map<Uuid, Entry>, log: seq<Line>, line: Line)
    requires Tracks(txs, log)
    ensures line.BeginTx? ==> Tracks(txs[line.tx.id := (|log|, line.tx)], log + [line])
    ensures line.EndTx? ==> Tracks(txs - {line.id}, log + [line])
  {
    var log' := log + [line];
    forall i | 0 <= i < |log|
      ensures IsOpen(log', i) <==> IsOpen(log, i) && log[i].tx.id != LineId(line)
    {
      assert log'[i] == log[i] && log'[|log|] == line;
      if IsOpen(log', i) {
        forall j | i < j < |log| ensures LineId(log[j]) != log[i].tx.id { assert log'[j] == log[j]; }
      }
    }
    assert line.BeginTx? ==> IsOpen(log', |log|);
  }

  lemma TracksValues(txs: map<Uuid, Entry>, log: seq<Line>)
    requires Tracks(txs, log)
    ensures (set id | id in txs :: txs[id]) == OpenEntries(log, |log|)
  {
    var values := set id | id in txs :: txs[id];
    forall e | e in OpenEntries(log, |log|) ensures e in values {
      assert txs[e.1.id] == e;
    }
  }

  // ---------------------------------------------------------------- byte format

  function Body(line: Line): Bytes {
    match line
    case BeginTx(tx) => LittleEndian(0, 4) + EncodeTx(tx)
    case EndTx(id) => LittleEndian(1, 4) + EncodeBytes(id)
  }

  function DecodeLine(b: Bytes): Parsed<Line> {
    match DecodeInt(4, b)
    case Malformed => Malformed
    case Parsed(tag, rest) =>
      if tag == 0 then
        match DecodeTx(rest)
        case Malformed => Malformed
        case Parsed(tx, rest') => Parsed(BeginTx(tx), rest')
      else if tag == 1 then
        match DecodeUuid(rest)
        case Malformed => Malformed
        case Parsed(id, rest') => Parsed(EndTx(id), rest')
      else Malformed
  }

  /** Exactly the encoded lines decode. */
  lemma LineExact(b: Bytes, line: Line, rest: Bytes)
    ensures DecodeLine(b) == Parsed(line, rest) <==>
            (match line case BeginTx(tx) => FitsTx(tx) case EndTx(id) => |id| == 16) && b == Body(line) + rest
  {
    hide LittleEndian, DecodeInt, EncodeBytes, DecodeBytes, EncodeTx, DecodeTx, FitsTx;
    Pow256Eight();
    var tag := if line.BeginTx? then 0 else 1;
    var tail := if line.BeginTx? then EncodeTx(line.tx) + rest else EncodeBytes(line.id) + rest;
    assert Body(line) + rest == LittleEndian(tag, 4) + tail;
    IntExact(4, b, tag, tail);
    if line.BeginTx? { TxExact(tail, line.tx, rest); } else { BytesExact(tail, line.id, rest); }
    if DecodeLine(b) == Parsed(line, rest) {
      var tail' := DecodeInt(4, b).rest;
      IntExact(4, b, tag, tail');
      if line.BeginTx? { TxExact(tail', line.tx, rest); } else { BytesExact(tail', line.id, rest); }
    }
  }

  /** A big-endian length, then the serialized line. */
  function Frame(body: Bytes): Bytes {
    BigEndian(|body|, 8) + body
  }

  function Encode(line: Line): Bytes {
    Frame(Body(line))
  }

  function Frames(lines: seq<Line>): seq<Bytes> {
    seq(|lines|, i requires 0 <= i < |lines| => Encode(lines[i]))
  }

  function EncodeAll(lines: seq<Line>): Bytes {
    Concat(Frames(lines))
  }

  predicate Fits(line: Line) {
    && |Body(line)| < U64_LIMIT
    && (match line
        case BeginTx(tx) => FitsTx(tx)
        case EndTx(id) => |id| == 16)
  }

  lemma BodyRoundTrip(line: Line, rest: Bytes)
    requires Fits(line)
    ensures DecodeLine(Body(line) + rest) == Parsed(line, rest)
  {
    hide EncodeTx, DecodeTx, EncodeBytes, DecodeBytes, LittleEndian, DecodeInt, FitsTx;
    Pow256Eight();
    match line
    case BeginTx(tx) =>
      assert Body(line) + rest == LittleEndian(0, 4) + (EncodeTx(tx) + rest);
      IntRoundTrip(0, 4, EncodeTx(tx) + rest);
      TxRoundTrip(tx, rest);
    case EndTx(id) =>
      assert Body(line) + rest == LittleEndian(1, 4) + (EncodeBytes(id) + rest);
      IntRoundTrip(1, 4, EncodeBytes(id) + rest);
      BytesRoundTrip(id, rest);
  }

  lemma BodyExtends(b: Bytes, q: Bytes)
    requires DecodeLine(b).Parsed?
    ensures DecodeLine(b + q) == Parsed(DecodeLine(b).value, DecodeLine(b).rest + q)
  {
    IntExtends(4, b, q);
    var p := DecodeInt(4, b);
    if p.value == 0 { TxExtends(p.rest, q); } else { BytesExtends(p.rest, q); }
  }

  /** A line cut short never decodes. */
  lemma TruncatedBodyFails(line: Line, n: nat)
    requires Fits(line) && n < |Body(line)|
    ensures DecodeLine(Body(line)[..n]).Malformed?
  {
    hide DecodeLine, Body;
    var whole := Body(line);
    if DecodeLine(whole[..n]).Parsed? {
      BodyExtends(whole[..n], whole[n..]);
      assert whole[..n] + whole[n..] == whole == whole + [];
      BodyRoundTrip(line, []);
    }
  }

  // ---------------------------------------------------------------- reading

  datatype LineRead = Next(line: Line, unread: Bytes) | Eof | DecodeError

  /** `decode_from`: a header, then ONE `read_buf` of the body, which hands over `delivered` bytes
      or whatever the limit and the file leave, if that is less. */
  function ReadLine(input: Bytes, delivered: nat): (r: LineRead)
    ensures r.Next? ==> |r.unread| <= |input| - 8
  {
    if |input| < 8 then Eof
    else
      var size := FromBigEndian(input[..8]);
      var n := Min(delivered, Min(size, |input| - 8));
      match DecodeLine(input[8..8 + n])
      case Malformed => DecodeError
      case Parsed(line, _) => Next(line, input[8 + n..])
  }

  datatype LogRead = Whole(lines: seq<Line>) | Broken(lines: seq<Line>)

  /** All lines of a log. `delivers(n)` is how many bytes the read that starts `n` bytes before the end delivers. */
  function ReadLog(input: Bytes, delivers: nat -> nat): LogRead
    decreases |input|
  {
    match ReadLine(input, delivers(|input|))
    case Eof => Whole([])
    case DecodeError => Broken([])
    case Next(line, unread) =>
      match ReadLog(unread, delivers)
      case Whole(lines) => Whole([line] + lines)
      case Broken(lines) => Broken([line] + lines)
  }

  /** How a frame, whole or cut, looks to the reader. */
  lemma FrameParts(body: Bytes, rest: Bytes, n: nat)
    requires |body| < U64_LIMIT && n <= |body|
    ensures var input := Frame(body) + rest;
            && FromBigEndian(input[..8]) == |body|
            && input[8..8 + n] == body[..n]
            && input[8 + |body|..] == rest
    ensures FromBigEndian(Frame(body)[..8 + n][..8]) == |body|
    ensures forall m :: 0 <= m <= n ==> Frame(body)[..8 + n][8..8 + m] == body[..m]
  {
    hide BigEndian, FromBigEndian, Pow256;
    Pow256Eight();
    BigEndianRoundTrip(|body|, 8);
    HeaderSlices(BigEndian(|body|, 8), body, rest, n);
  }

  lemma HeaderSlices(header: Bytes, body: Bytes, rest: Bytes, n: nat)
    requires |header| == 8 && n <= |body|
    ensures var input := header + body + rest;
            input[..8] == header && input[8..8 + n] == body[..n] && input[8 + |body|..] == rest
    ensures (header + body)[..8 + n][..8] == header
    ensures forall m :: 0 <= m <= n ==> (header + body)[..8 + n][8..8 + m] == body[..m]
  {
    forall m | 0 <= m <= n ensures (header + body)[..8 + n][8..8 + m] == body[..m] { CutSlices(header, body, n, m); }
  }

  lemma CutSlices(header: Bytes, body: Bytes, n: nat, m: nat)
    requires |header| == 8 && m <= n <= |body|
    ensures (header + body)[..8 + n][8..8 + m] == body[..m]
  {
  }

  lemma FrameLength(body: Bytes)
    ensures |Frame(body)| == 8 + |body|
  {
  }

  lemma ReadLineWhole(line: Line, rest: Bytes, delivered: nat)
    requires Fits(line) && delivered >= |Body(line)|
    ensures ReadLine(Encode(line) + rest, delivered) == Next(line, rest)
  {
    var body := Body(line);
    FrameParts(body, rest, |body|);
    assert body[..|body|] == body + [];
    BodyRoundTrip(line, []);
  }

  /** A body delivered short, by the read or by the end of the file, is an error. */
  lemma ReadLineShort(line: Line, rest: Bytes, delivered: nat)
    requires Fits(line) && delivered < |Body(line)|
    ensures ReadLine(Encode(line) + rest, delivered).DecodeError?
  {
    FrameParts(Body(line), rest, delivered);
    TruncatedBodyFails(line, delivered);
  }

  lemma ReadLineCut(line: Line, n: nat, delivered: nat)
    requires Fits(line) && 8 <= n < |Encode(line)|
    ensures ReadLine(Encode(line)[..n], delivered).DecodeError?
  {
    hide DecodeLine, Body, Frame, FromBigEndian;
    FrameLength(Body(line));
    FrameParts(Body(line), [], n - 8);
    TruncatedBodyFails(line, Min(delivered, n - 8));
  }

  lemma ReadLogWhole(line: Line, rest: Bytes, delivers: nat -> nat)
    requires Fits(line) && delivers(|Encode(line) + rest|) >= |Body(line)|
    ensures ReadLog(Encode(line) + rest, delivers) == Prefixed([line], ReadLog(rest, delivers))
  {
    ReadLineWhole(line, rest, delivers(|Encode(line) + rest|));
  }

  lemma ReadLogShort(line: Line, rest: Bytes, delivers: nat -> nat)
    requires Fits(line) && delivers(|Encode(line) + rest|) < |Body(line)|
    ensures ReadLog(Encode(line) + rest, delivers) == Broken([])
  {
    ReadLineShort(line, rest, delivers(|Encode(line) + rest|));
  }

  lemma ReadNothing(delivers: nat -> nat)
    ensures ReadLog([], delivers) == Whole([])
  {
  }

  /** The read of every line's body delivers at least the body, with `more` bytes behind the lines. */
  predicate DeliversThen(lines: seq<Line>, more: nat, delivers: nat -> nat) {
    lines == [] ||
    (delivers(|EncodeAll(lines)| + more) >= |Body(lines[0])| && DeliversThen(lines[1..], more, delivers))
  }

  predicate DeliversAll(lines: seq<Line>, delivers: nat -> nat) {
    DeliversThen(lines, 0, delivers)
  }

  /** Written lines with anything behind them: if no read of a body comes short, they come back and the reading goes
      on behind them; otherwise it stops with an error at the first short read. */
  lemma {:induction false} LinesThen(lines: seq<Line>, tail: Bytes, delivers: nat -> nat)
    requires forall i :: 0 <= i < |lines| ==> Fits(lines[i])
    ensures var r := ReadLog(EncodeAll(lines) + tail, delivers);
            if DeliversThen(lines, |tail|, delivers) then r == Prefixed(lines, ReadLog(tail, delivers))
            else r.Broken? && r.lines < lines
  {
    hide Encode, Body, ReadLine, Fits, ReadLog;
    if lines == [] {
      assert EncodeAll(lines) + tail == tail;
    } else {
      var rest := EncodeAll(lines[1..]) + tail;
      EncodeAllFirst(lines);
      assert EncodeAll(lines) + tail == Encode(lines[0]) + rest;
      assert lines == [lines[0]] + lines[1..];
      if delivers(|EncodeAll(lines)| + |tail|) >= |Body(lines[0])| {
        ReadLogWhole(lines[0], rest, delivers);
        LinesThen(lines[1..], tail, delivers);
        PrefixedStep([], lines[0], ReadLog(rest, delivers));
      } else {
        ReadLogShort(lines[0], rest, delivers);
      }
    }
  }

  /** Reading back written lines: it succeeds exactly when no single read of a body comes short,
      and then returns exactly those lines; otherwise it stops with an error at the first short read. */
  lemma LogRoundTrip(lines: seq<Line>, delivers: nat -> nat)
    requires forall i :: 0 <= i < |lines| ==> Fits(lines[i])
    ensures var r := ReadLog(EncodeAll(lines), delivers);
            if DeliversAll(lines, delivers) then r == Whole(lines) else r.Broken? && r.lines < lines
  {
    hide EncodeAll, Fits, ReadLog, DeliversThen;
    LinesThen(lines, [], delivers);
    ReadNothing(delivers);
    assert EncodeAll(lines) + [] == EncodeAll(lines) && lines + [] == lines;
  }

  /** A log cut at any byte, whatever the reads deliver. If no read before the cut comes short, the lines before the cut
      come back, and the end is clean exactly when the cut falls on a line boundary or inside a header. Otherwise the
      reading stops with an error after some of those lines. */
  lemma CutLog(lines: seq<Line>, last: Line, n: nat, delivers: nat -> nat)
    requires Fits(last) && forall i :: 0 <= i < |lines| ==> Fits(lines[i])
    requires n < |Encode(last)|
    ensures var r := ReadLog(EncodeAll(lines) + Encode(last)[..n], delivers);
            if DeliversThen(lines, n, delivers) then r == (if n < 8 then Whole(lines) else Broken(lines))
            else r.Broken? && r.lines < lines
  {
    hide Encode, Body, Fits, ReadLog, EncodeAll, DeliversThen;
    LinesThen(lines, Encode(last)[..n], delivers);
    CutTail(last, n, delivers);
    assert lines + [] == lines;
  }

  lemma EncodeLength(line: Line)
    ensures |Encode(line)| == 8 + |Body(line)|
  {
    hide Body;
  }

  lemma CutTail(last: Line, n: nat, delivers: nat -> nat)
    requires Fits(last) && n < |Encode(last)|
    ensures ReadLog(Encode(last)[..n], delivers) == if n < 8 then Whole([]) else Broken([])
  {
    if n >= 8 { ReadLineCut(last, n, delivers(n)); }
  }

  /** A header torn after `n` bytes reads as a clean end, but the next line is appended behind it. Then the log
      decodes at most up to the tear and not one line further: no line written later can be read, and the read fails. */
  lemma TornHeader(lines: seq<Line>, last: Line, n: nat, more: seq<Line>, delivers: nat -> nat)
    requires forall i :: 0 <= i < |lines| ==> Fits(lines[i])
    requires 0 < n < 8 && more != [] && Fits(more[0])
    ensures var r := ReadLog(EncodeAll(lines) + Encode(last)[..n], delivers);
            if DeliversThen(lines, n, delivers) then r == Whole(lines) else r.Broken? && r.lines < lines
    ensures var tail := Encode(last)[..n] + EncodeAll(more);
            var r := ReadLog(EncodeAll(lines) + tail, delivers);
            if DeliversThen(lines, |tail|, delivers) then r == Broken(lines) else r.Broken? && r.lines < lines
  {
    hide Encode, Body, ReadLog, Fits, EncodeAll, DeliversThen;
    EncodeLength(last);
    ReadsNothing(Encode(last)[..n], delivers);
    LinesThen(lines, Encode(last)[..n], delivers);
    TornRead(Encode(last)[..n], more, delivers);
    LinesThen(lines, Encode(last)[..n] + EncodeAll(more), delivers);
    assert lines + [] == lines;
  }

  lemma ReadsNothing(b: Bytes, delivers: nat -> nat)
    requires |b| < 8
    ensures ReadLog(b, delivers) == Whole([])
  {
  }

  /** Behind the tear the length of the id is read from the wrong place: its one byte that is not zero, 16, lands
      at a higher position, whatever sizes the mixed header names. */
  lemma TornRead(torn: Bytes, more: seq<Line>, delivers: nat -> nat)
    requires 0 < |torn| < 8 && more != [] && Fits(more[0])
    ensures ReadLog(torn + EncodeAll(more), delivers) == Broken([])
  {
    hide Body, BigEndian, FromBigEndian, DecodeLine, EncodeAll, Fits;
    EncodeAllFirst(more);
    var n, body, rest := |torn|, Body(more[0]), EncodeAll(more[1..]);
    var b, header := torn + EncodeAll(more), BigEndian(|body|, 8);
    var size := Min(delivers(|b|), Min(FromBigEndian(b[..8]), |b| - 8));
    IdLengthByte(more[0]);
    TornByte(torn, header, body, rest, size);
    ShiftedFails(b[8..8 + size], n);
  }

  /** Where the fifth byte of the body lies behind the eight bytes taken for a header. */
  lemma TornByte(torn: Bytes, header: Bytes, body: Bytes, rest: Bytes, size: nat)
    requires |torn| <= |header| == 8 && |body| > 4
    requires var b := torn + (header + body + rest); 8 + size <= |b|
    ensures var b := torn + (header + body + rest); size > 4 + |torn| ==> b[8..8 + size][4 + |torn|] == body[4]
  {
    var b := torn + (header + body + rest);
    if size > 4 + |torn| {
      assert b[8..8 + size][4 + |torn|] == b[12 + |torn|];
    }
  }

  /** Every line has the length of its id, 16, right behind its tag. */
  lemma IdLengthByte(line: Line)
    requires Fits(line)
    ensures |Body(line)| > 4 && Body(line)[4] == 16
  {
    var id := if line.BeginTx? then line.tx.id else line.id;
    assert LittleEndian(16, 8)[0] == 16;
    assert EncodeBytes(id)[0] == 16;
  }

  /** Bytes with 16 at a higher position of the id's length field do not decode. */
  lemma ShiftedFails(b: Bytes, n: nat)
    requires 0 < n < 8 && (|b| > 4 + n ==> b[4 + n] == 16)
    ensures DecodeLine(b) == Malformed
  {
    hide FromLittleEndian, DecodeOps, Pow256;
    if |b| >= 12 {
      var length := b[4..][..8];
      assert length[n] == b[4 + n];
      LittleEndianAtLeast(length, n);
      Pow256Grows(n);
    }
  }

  lemma Pow256Grows(n: nat)
    requires n > 0
    ensures Pow256(n) >= 256
  {
  }

  /** Every byte prefix of a log is whole lines followed by a strictly cut line, so `CutLog` speaks of all cuts. */
  lemma EveryCut(lines: seq<Line>, n: nat) returns (j: nat, m: nat)
    requires n < |EncodeAll(lines)|
    ensures j < |lines| && m < |Encode(lines[j])|
    ensures EncodeAll(lines)[..n] == EncodeAll(lines[..j]) + Encode(lines[j])[..m]
  {
    j, m := CutConcat(Frames(lines), n);
    assert Frames(lines)[..j] == Frames(lines[..j]);
  }

  lemma EncodeAllAppend(lines: seq<Line>, line: Line)
    ensures EncodeAll(lines + [line]) == EncodeAll(lines) + Encode(line)
  {
    assert Frames(lines + [line]) == Frames(lines) + [Encode(line)];
    ConcatPush(Frames(lines), Encode(line));
  }

  lemma EncodeAllFirst(lines: seq<Line>)
    requires lines != []
    ensures EncodeAll(lines) == Encode(lines[0]) + EncodeAll(lines[1..])
  {
    hide Encode;
    assert Frames(lines)[1..] == Frames(lines[1..]);
  }

  // ---------------------------------------------------------------- the log file

  class LogFile {
    var bytes: Bytes

    constructor ()
      ensures bytes == []
    {
      bytes := [];
    }

    /** Appends one line, so a file holding `lines` then holds `lines + [BeginTx(tx)]`. */
    method BeginTransaction(tx: Transaction)
      modifies this
      ensures forall lines :: old(bytes) == EncodeAll(lines) ==> bytes == EncodeAll(lines + [BeginTx(tx)])
    {
      var line := BeginTx(tx);
      bytes := bytes + Encode(line);
      forall lines | old(bytes) == EncodeAll(lines) ensures bytes == EncodeAll(lines + [line]) {
        EncodeAllAppend(lines, line);
      }
    }

    method EndTransaction(id: Uuid)
      modifies this
      ensures forall lines :: old(bytes) == EncodeAll(lines) ==> bytes == EncodeAll(lines + [EndTx(id)])
    {
      var line := EndTx(id);
      bytes := bytes + Encode(line);
      forall lines | old(bytes) == EncodeAll(lines) ensures bytes == EncodeAll(lines + [line]) {
        EncodeAllAppend(lines, line);
      }
    }

    /** Reads the log and returns its unfinished transactions, or nothing when a line does not decode. */
    method GetUnfinishedTransactions(delivers: nat -> nat) returns (result: Option<seq<Transaction>>)
      ensures result == match ReadLog(bytes, delivers)
                        case Whole(lines) => Some(Unfinished(lines))
                        case Broken(_) => None
    {
      var txs: map<Uuid, Entry> := map[];
      var i := 0;
      var unread := bytes;
      ghost var seen: seq<Line> := [];
      hide ReadLine, IsOpen;
      while true
        invariant i == |seen| && Tracks(txs, seen)
        invariant ReadLog(bytes, delivers) == Prefixed(seen, ReadLog(unread, delivers))
        decreases |unread|
      {
        match ReadLine(unread, delivers(|unread|)) {
          case Eof => break;
          case DecodeError => return None;
          case Next(line, rest) =>
            TracksStep(txs, seen, line);
            match line {
              case BeginTx(tx) => txs := txs[tx.id := (i, tx)];
              case EndTx(id) => txs := txs - {id};
            }
            PrefixedStep(seen, line, ReadLog(rest, delivers));
            seen := seen + [line];
            unread := rest;
        }
        i := i + 1;
      }
      assert seen + [] == seen;
      TracksValues(txs, seen);
      SortingGivesLogOrder(seen, |seen|);
      var values := set id | id in txs :: txs[id];
      result := Some(InIndexOrder(values));
    }
  }

  function Prefixed(seen: seq<Line>, r: LogRead): LogRead {
    match r
    case Whole(lines) => Whole(seen + lines)
    case Broken(lines) => Broken(seen + lines)
  }

  lemma PrefixedStep(seen: seq<Line>, line: Line, r: LogRead)
    ensures Prefixed(seen, Prefixed([line], r)) == Prefixed(seen + [line], r)
  {
    assert seen + ([line] + r.lines) == seen + [line] + r.lines;
  }
}
