/** The server's loop over a connection: what it answers to well-cut sessions, and to commands in one chunk. */
module Server {
  import opened Bytes
  import opened Store
  import opened Wire
  import opened Proto
  import opened Session
  import opened Pipelining
  import Replies

  /** What a plain map answers. */
  function Answer(data: map<Key, Bytes>, op: ProtoOp): Replies.Reply {
    match op
    case Get(key) => if key in data then Replies.Payload(data[key]) else Replies.Null
    case Set(_, value) => Replies.Saved(|value|)
    case Echo(msg) => Replies.Payload(msg)
    case _ => Replies.Null
  }

  function AfterOp(data: map<Key, Bytes>, op: ProtoOp): map<Key, Bytes> {
    if op.Set? then data[op.key := op.value] else data
  }

  function AfterAll(data: map<Key, Bytes>, ms: seq<Message>): map<Key, Bytes> {
    if ms == [] then data else AfterOp(AfterAll(data, ms[..|ms| - 1]), ms[|ms| - 1].op)
  }

  /** The replies of a plain map to a sequence of commands. */
  function Answers(data: map<Key, Bytes>, ms: seq<Message>): seq<Replies.Reply> {
    if ms == [] then []
    else
      var n := |ms| - 1;
      Answers(data, ms[..n]) + [Answer(AfterAll(data, ms[..n]), ms[n].op)]
  }

  // ---------------------------------------------------------------- what the answers are

  /** The updates of a session, as operations of the store, in order. */
  function Updates(ms: seq<Message>): seq<Operation> {
    if ms == [] then []
    else
      var n := |ms| - 1;
      Updates(ms[..n]) + (if ms[n].op.Set? then [Store.Set(ms[n].op.key, ms[n].op.value)] else [])
  }

  /** A session leaves the contents that its updates make when they are run as store operations. */
  lemma {:induction false} SessionRunsItsUpdates(data: map<Key, Bytes>, ms: seq<Message>)
    ensures AfterAll(data, ms) == ApplyOps(data, Updates(ms))
  {
    if ms != [] {
      var n := |ms| - 1;
      SessionRunsItsUpdates(data, ms[..n]);
      var before, all := Updates(ms[..n]), Updates(ms);
      if ms[n].op.Set? {
        assert all[..|all| - 1] == before;
      } else {
        assert all == before;
      }
    }
  }

  predicate IsUpdateOf(op: ProtoOp, k: Key) {
    op.Set? && op.key == k
  }

  /** The contents under a key after a session: the last update's value, or what was there. */
  lemma {:induction false} LastUpdateStays(data: map<Key, Bytes>, ms: seq<Message>, j: int, k: Key)
    requires -1 <= j < |ms| && (j >= 0 ==> IsUpdateOf(ms[j].op, k))
    requires forall l :: j < l < |ms| ==> !IsUpdateOf(ms[l].op, k)
    ensures Lookup(AfterAll(data, ms), k) == if j == -1 then Lookup(data, k) else Some(ms[j].op.value)
    decreases |ms|
  {
    if j < |ms| - 1 { LastUpdateStays(data, ms[..|ms| - 1], j, k); }
  }

  lemma {:induction false} AnswerAt(data: map<Key, Bytes>, ms: seq<Message>, i: nat)
    requires i < |ms|
    ensures |Answers(data, ms)| == |ms| && Answers(data, ms)[i] == Answer(AfterAll(data, ms[..i]), ms[i].op)
    decreases |ms|
  {
    hide Answer, AfterAll;
    var n := |ms| - 1;
    AnswersLength(data, ms);
    AnswersLength(data, ms[..n]);
    if i < n {
      AnswerAt(data, ms[..n], i);
      assert ms[..n][..i] == ms[..i];
    }
  }

  lemma {:induction false} AnswersLength(data: map<Key, Bytes>, ms: seq<Message>)
    ensures |Answers(data, ms)| == |ms|
  {
    if ms != [] { AnswersLength(data, ms[..|ms| - 1]); }
  }

  /** An echo is answered with its bytes and an update with the length of its value. */
  lemma EchoesAndUpdates(data: map<Key, Bytes>, ms: seq<Message>, i: nat)
    requires i < |ms|
    ensures |Answers(data, ms)| == |ms|
    ensures ms[i].op.Echo? ==> Answers(data, ms)[i] == Replies.Payload(ms[i].op.msg)
    ensures ms[i].op.Set? ==> Answers(data, ms)[i] == Replies.Saved(|ms[i].op.value|)
  {
    AnswerAt(data, ms, i);
  }

  /** A lookup is answered with the value of the last earlier update of its key, if there is one; else with what
      was there at the start; and with null if there was nothing. */
  lemma LookupsSeeUpdates(data: map<Key, Bytes>, ms: seq<Message>, i: nat, j: int)
    requires i < |ms| && ms[i].op.Get? && -1 <= j < i && (j >= 0 ==> IsUpdateOf(ms[j].op, ms[i].op.key))
    requires forall l :: j < l < i ==> !IsUpdateOf(ms[l].op, ms[i].op.key)
    ensures |Answers(data, ms)| == |ms|
    ensures var k := ms[i].op.key;
            Answers(data, ms)[i] == if j >= 0 then Replies.Payload(ms[j].op.value)
                                    else if k in data then Replies.Payload(data[k])
                                    else Replies.Null
  {
    AnswerAt(data, ms, i);
    LastUpdateStays(data, ms[..i], j, ms[i].op.key);
  }

  // ---------------------------------------------------------------- the loop

  datatype Status = Serving | Disconnected | Failed(error: ProtoError) | Panicked

  function Copies(b: Bytes, n: nat): Bytes {
    if n == 0 then [] else Copies(b, n - 1) + b
  }

  /** The first `turns` turns of `Connection::handle` over a `MemoryStore`. `ids` supplies the random ids. Whatever the
      stream, the moments between the turns are in `trace`, and each turn does what the reader's outcome says.

      On a session cut message by message it answers, turn by turn, exactly as a plain map, and then closes, or stops
      with an error if the socket breaks.

      On a fresh connection it stops with an error before any answer if and only if the first command is faulty, or
      never comes and the socket breaks.

      On a fresh connection whose first chunk begins with a whole command, it answers that. Then it acts on the read
      that follows in that chunk: it stops with its error, or because the stream ended in it, or answers what was
      misread. If the reader is caught, the answers that follow are copies of one reply, for as many turns as there
      are. */
  method Handle(proto: Proto, store: MemoryStore, ids: nat -> Uuid, turns: nat,
                ghost parts: seq<seq<Bytes>>, ghost ms: seq<Message>, ghost lead: ProtoOp, ghost op: ProtoOp)
    returns (out: Bytes, status: Status, ghost trace: seq<Moment>)
    requires proto.Valid()
    modifies proto, store
    ensures Serves(trace, turns, status, proto.end)
            && trace[0] == Moment(old(proto.buf), old(proto.pristine), old(proto.chunks), [], old(store.data))
            && out == Last(trace).out && store.data == Last(trace).data
    ensures AllWellCut(parts, ms) && old(Between(proto.buf, proto.pristine, proto.chunks, parts)) ==>
              var sofar := ms[..Min(turns, |ms|)];
              && status == (if turns <= |ms| then Serving
                            else if proto.end.Broken? then Failed(SocketError) else Disconnected)
              && out == Replies.EncodeAll(Answers(old(store.data), sofar))
              && store.data == AfterAll(old(store.data), sofar)
    ensures old(proto.pristine) && turns > 0 ==>
              forall e :: status == Failed(e) && |trace| == 1 <==> FreshFault(old(proto.chunks), proto.end, e)
    ensures old(proto.pristine && StartsWith(proto.chunks, lead)) && turns > 1 ==>
              var first, stream := Answer(old(store.data), lead), old(proto.chunks);
              var data := AfterOp(old(store.data), lead);
              var second := Expect(Enter(stream[0], false, stream[1..]));
              && (!second.Complete? ==>
                    status == StatusAfter(second, proto.end) && out == Replies.Encode(first) && store.data == data)
              && (second.Complete? ==>
                    var both := Replies.Encode(first) + Replies.Encode(Answer(data, second.op));
                    && both <= out
                    && (turns == 2 ==> status == Serving && out == both && store.data == AfterOp(data, second.op)))
              && (Caught(stream[0], stream[1..], op) ==>
                    && status == Serving
                    && out == Replies.Encode(first) + Copies(Replies.Encode(Answer(data, op)), turns - 1)
                    && store.data == AfterOp(data, op))
  {
    hide Enter, Expect, Follows, SentTurn, SharedTurn, AllWellCut, Between, StartsWith, Caught, Answer, AfterOp;
    hide Replies.Encode, Replies.EncodeAll, Copies, Answers, AfterAll, FreshFault;
    ghost var stream, data := proto.chunks, store.data;
    ghost var sent := AllWellCut(parts, ms) && Between(proto.buf, proto.pristine, stream, parts);
    ghost var shared := proto.pristine && StartsWith(stream, lead);
    out, status := [], Serving;
    trace := [Moment(proto.buf, proto.pristine, proto.chunks, out, store.data)];
    var turn := 0;
    while turn < turns && status.Serving?
      invariant proto.Valid() && turn <= turns && Serves(trace, turn, status, proto.end)
      invariant trace[0] == Moment(old(proto.buf), old(proto.pristine), old(proto.chunks), [], old(store.data))
      invariant out == Last(trace).out && store.data == Last(trace).data
      invariant status.Serving? ==> Last(trace) == Moment(proto.buf, proto.pristine, proto.chunks, out, store.data)
      decreases turns - turn
    {
      out, status := Turn(proto, store, ids(turn), out);
      turn := turn + 1;
      if status.Serving? {
        trace := trace + [Moment(proto.buf, proto.pristine, proto.chunks, out, store.data)];
      }
    }
    if !status.Serving? { ServesLonger(trace, turn, turns, status, proto.end); }
    if sent {
      SentStart(trace[0], parts, ms);
      SentRun(trace, turns, status, proto.end, parts, ms);
    }
    if old(proto.pristine) && turns > 0 { FreshRun(trace, turns, status, proto.end); }
    if shared && turns > 1 {
      SharedStart(trace[0], lead, op);
      SharedRun(trace, turns, status, proto.end, lead, op);
    }
  }

  /** One turn of the loop: read an operation, then answer it, or stop with an error or because the stream ended. */
  method Turn(proto: Proto, store: MemoryStore, id: Uuid, before: Bytes) returns (out: Bytes, status: Status)
    requires proto.Valid()
    modifies proto, store
    ensures proto.Valid()
    ensures var s := Moment(old(proto.buf), old(proto.pristine), old(proto.chunks), before, old(store.data));
            var e := Enter(s.buf, s.pristine, s.chunks);
            && status == StatusAfter(Expect(e), proto.end) && Reports(status, Expect(e), proto.end)
            && (if status.Serving?
                then Follows(s, Moment(proto.buf, proto.pristine, proto.chunks, out, store.data), e)
                else out == before && store.data == old(store.data))
  {
    hide Enter, Expect, LeftIn, Answer, AfterOp, Replies.Encode, Reports;
    ghost var e := Enter(proto.buf, proto.pristine, proto.chunks);
    StatusExact(e, proto.end);
    out := before;
    var read := proto.Read();
    if read.Err? {
      status := Failed(read.error);
    } else if read.op.SysClose? || read.op.Cancelled? {
      status := Disconnected;
    } else {
      status := Serving;
      NeverEnds(proto.end);
      var reply := Dispatch(store, read.op, id);
      out := out + reply;
    }
  }

  /** The loop goes on exactly after a command; it fails with exactly the reader's error, or a broken socket's; it
      closes exactly when the stream ended otherwise. */
  ghost predicate Reports(status: Status, o: Outcome, end: End) {
    && (status == Serving <==> o.Complete?)
    && (forall e :: status == Failed(e) <==> o == Fail(e) || (o == Incomplete && end == Broken && e == SocketError))
    && (status == Disconnected <==> o == Incomplete && end != Broken)
  }

  lemma StatusExact(e: Entry, end: End)
    ensures Reports(StatusAfter(Expect(e), end), Expect(e), end)
  {
    hide Expect;
    if Expect(e).Complete? { CompletesCommand(e); }
  }

  function StatusAfter(o: Outcome, end: End): Status {
    match Result(o, end)
    case Err(error) => Failed(error)
    case Ok(op) => if op.SysClose? || op.Cancelled? then Disconnected else Serving
  }

  /** Reader, output and store between two turns. */
  datatype Moment = Moment(buf: Bytes, pristine: bool, chunks: seq<Bytes>, out: Bytes, data: map<Key, Bytes>)

  /** One turn that read a command and answered it. */
  ghost predicate Follows(s: Moment, s': Moment, e: Entry) {
    && e == Enter(s.buf, s.pristine, s.chunks) && Expect(e).Complete?
    && e.At? && e.ptr <= |e.buf| && !s'.pristine && LeftIn(s'.buf, s'.chunks, e, Expect(e).rest)
    && s'.out == s.out + Replies.Encode(Answer(s.data, Expect(e).op))
    && s'.data == AfterOp(s.data, Expect(e).op)
  }

  function Next(s: Moment): Entry { Enter(s.buf, s.pristine, s.chunks) }

  function Last(trace: seq<Moment>): Moment
    requires trace != []
  {
    trace[|trace| - 1]
  }

  /** The moments of a run of the loop: each follows from the one before, and the run stops early only where the
      reader's outcome stops it. */
  ghost predicate Serves(trace: seq<Moment>, turns: nat, status: Status, end: End) {
    && Runs(trace)
    && (if status.Serving? then |trace| == turns + 1
        else |trace| <= turns && status == StatusAfter(Expect(Next(Last(trace))), end))
  }

  ghost predicate Runs(trace: seq<Moment>) {
    trace != [] && forall i :: 0 <= i < |trace| - 1 ==> Follows(trace[i], trace[i + 1], Next(trace[i]))
  }

  lemma ServesLonger(trace: seq<Moment>, turn: nat, turns: nat, status: Status, end: End)
    requires Serves(trace, turn, status, end) && turn <= turns && !status.Serving?
    ensures Serves(trace, turns, status, end)
  {
    hide Runs, StatusAfter, Expect, Next;
  }

  /** A reader goes on after a command. */
  lemma CommandGoesOn(o: Outcome, end: End)
    requires o.Complete? && IsCommandKind(o.op)
    ensures StatusAfter(o, end) == Serving
  {
  }

  lemma CompletesCommand(e: Entry)
    requires Expect(e).Complete?
    ensures IsCommandKind(Expect(e).op)
  {
    hide KeyLen, MatchWord, Supply;
    var w := MatchWord(e.buf[e.ptr..e.ptr + 4]).value;
    var saved := if e.ptr == 0 then [] else e.buf[e.ptr..];
    var d, d' := ReadIsSpelled(w, e.buf[WordEnd(w)..] + Supply(saved, e.chunks));
  }

  /** What has been sent stays sent. */
  lemma {:induction false} OutGrows(trace: seq<Moment>, turns: nat, status: Status, end: End, i: nat, j: nat)
    requires Serves(trace, turns, status, end) && i <= j < |trace|
    ensures trace[i].out <= trace[j].out
    decreases j
  {
    hide Next, StatusAfter, Expect, Replies.Encode, Answer, AfterOp, LeftIn, Enter;
    if i < j {
      OutGrows(trace, turns, status, end, i, j - 1);
      assert Follows(trace[j - 1], trace[j], Next(trace[j - 1]));
    }
  }

  // ---------------------------------------------------------------- the first command

  /** What is wrong with the start of a stream: nothing came, or fewer than four bytes, or no word, or a word whose
      fields have that fault; or the socket broke before the command was whole. */
  ghost predicate FreshFault(chunks: seq<Bytes>, end: End, e: ProtoError) {
    if chunks == [] then end == Broken && e == SocketError
    else if |chunks[0]| < 4 then e == ShortOp
    else
      var b := Concat(chunks);
      match MatchWord(b[..4])
      case None => e == UnknownOp
      case Some(w) => IsFaulty(w, b[WordEnd(w)..], e) || (end == Broken && e == SocketError && NotDecided(w, b))
  }

  /** No command is spelled and nothing is wrong yet. */
  ghost predicate NotDecided(w: OpWord, b: Bytes)
    requires |b| >= 4
  {
    && (forall op, rest, d, d' :: !IsSpelling(b, op, rest, d, d'))
    && (forall e :: !IsFaulty(w, b[WordEnd(w)..], e))
  }

  lemma FreshOutcome(buf: Bytes, chunks: seq<Bytes>, end: End, e: ProtoError)
    ensures var o := Expect(Enter(buf, true, chunks));
            (o == Fail(e) || (o == Incomplete && end == Broken && e == SocketError)) <==> FreshFault(chunks, end, e)
  {
    hide Parse, MatchWord, IsFaulty, IsSpelling, Concat;
    if chunks != [] {
      if |chunks[0]| >= 4 {
        ChunkIndependence(buf, chunks);
        FreshParse(Concat(chunks), end, e);
      }
    }
  }

  lemma FreshParse(b: Bytes, end: End, e: ProtoError)
    requires |b| >= 4
    ensures (Parse(b) == Fail(e) || (Parse(b) == Incomplete && end == Broken && e == SocketError)) <==>
            match MatchWord(b[..4])
            case None => e == UnknownOp
            case Some(w) => IsFaulty(w, b[WordEnd(w)..], e) || (end == Broken && e == SocketError && NotDecided(w, b))
  {
    hide Parse, MatchWord, IsFaulty, IsSpelling;
    ErrorExact(b, UnknownOp);
    forall op, rest, d, d' | IsSpelling(b, op, rest, d, d') ensures Parse(b).Complete? {
      SpellingParses(b, op, rest, d, d');
    }
    if Parse(b).Complete? { var d, d' := ParsedIsSpelled(b); }
    var word := MatchWord(b[..4]);
    if word.Some? {
      var w := word.value;
      forall e' ensures Parse(b) == Fail(e') <==> IsFaulty(w, b[WordEnd(w)..], e') { ErrorExact(b, e'); }
      if Parse(b).Fail? { assert IsFaulty(w, b[WordEnd(w)..], Parse(b).error); }
    }
  }

  lemma FreshRun(trace: seq<Moment>, turns: nat, status: Status, end: End)
    requires Serves(trace, turns, status, end) && turns > 0 && trace[0].pristine
    ensures forall e :: status == Failed(e) && |trace| == 1 <==> FreshFault(trace[0].chunks, end, e)
  {
    hide Expect, Enter, FreshFault, StatusAfter, LeftIn, Answer, AfterOp, Replies.Encode;
    var s := trace[0];
    StatusExact(Next(s), end);
    if |trace| > 1 { assert Follows(trace[0], trace[1], Next(trace[0])); }
    forall e ensures status == Failed(e) && |trace| == 1 <==> FreshFault(s.chunks, end, e) {
      FreshOutcome(s.buf, s.chunks, end, e);
    }
  }

  // ---------------------------------------------------------------- message by message

  /** After `turn` turns of a well-cut session. */
  ghost predicate SentTurn(s: Moment, parts: seq<seq<Bytes>>, ms: seq<Message>, data: map<Key, Bytes>, turn: nat) {
    && turn <= |ms| == |parts| && AllWellCut(parts, ms)
    && s.out == Replies.EncodeAll(Answers(data, ms[..turn])) && s.data == AfterAll(data, ms[..turn])
    && Between(s.buf, s.pristine, s.chunks, parts[turn..])
  }

  lemma SentStart(s: Moment, parts: seq<seq<Bytes>>, ms: seq<Message>)
    requires AllWellCut(parts, ms) && Between(s.buf, s.pristine, s.chunks, parts) && s.out == []
    ensures SentTurn(s, parts, ms, s.data, 0)
  {
    hide Between, Replies.EncodeAll;
    Replies.EncodeNone();
    assert parts[0..] == parts && ms[..0] == [];
  }

  lemma SentOutcome(s: Moment, parts: seq<seq<Bytes>>, ms: seq<Message>, data: map<Key, Bytes>, turn: nat)
    requires SentTurn(s, parts, ms, data, turn)
    ensures turn <= |ms|
    ensures var o := Expect(Enter(s.buf, s.pristine, s.chunks));
            if turn < |ms| then o.Complete? && o.op == ms[turn].op && IsCommandKind(o.op)
            else
              && o == Incomplete
              && s.out == Replies.EncodeAll(Answers(data, ms)) && s.data == AfterAll(data, ms)
  {
    hide Enter, Expect, Between, Answers, AfterAll, Replies.EncodeAll;
    TurnFacts(s.buf, s.pristine, s.chunks, parts, ms, turn);
    if turn == |ms| { assert ms[..turn] == ms; }
  }

  lemma SentStep(s: Moment, s': Moment, parts: seq<seq<Bytes>>, ms: seq<Message>, data: map<Key, Bytes>, turn: nat)
    requires SentTurn(s, parts, ms, data, turn) && Follows(s, s', Enter(s.buf, s.pristine, s.chunks))
    ensures turn < |ms| && SentTurn(s', parts, ms, data, turn + 1)
  {
    hide Enter, Expect, Between, Answers, AfterAll, Answer, AfterOp, LeftIn, AllWellCut;
    hide Replies.EncodeAll, Replies.Encode;
    var e := Enter(s.buf, s.pristine, s.chunks);
    TurnFacts(s.buf, s.pristine, s.chunks, parts, ms, turn);
    TurnLeaves(s'.buf, s'.chunks, parts, ms, turn, e);
    AnswersPush(data, ms, turn);
    Replies.EncodePush(Answers(data, ms[..turn]), Answer(s.data, ms[turn].op));
  }

  lemma {:induction false} SentTo(trace: seq<Moment>, parts: seq<seq<Bytes>>, ms: seq<Message>, i: nat)
    requires Runs(trace) && SentTurn(trace[0], parts, ms, trace[0].data, 0) && i < |trace|
    ensures SentTurn(trace[i], parts, ms, trace[0].data, i)
  {
    hide SentTurn, Follows, Enter;
    if i > 0 {
      SentTo(trace, parts, ms, i - 1);
      assert Follows(trace[i - 1], trace[i], Next(trace[i - 1]));
      SentStep(trace[i - 1], trace[i], parts, ms, trace[0].data, i - 1);
    }
  }

  /** However far it got, a run over such a session has answered the messages so far. */
  lemma SentSoFar(trace: seq<Moment>, parts: seq<seq<Bytes>>, ms: seq<Message>)
    requires Runs(trace) && SentTurn(trace[0], parts, ms, trace[0].data, 0)
    ensures var k := |trace| - 1;
            && k <= |ms|
            && Last(trace).out == Replies.EncodeAll(Answers(trace[0].data, ms[..k]))
            && Last(trace).data == AfterAll(trace[0].data, ms[..k])
            && (var o := Expect(Next(Last(trace)));
                if k < |ms| then o.Complete? && o.op == ms[k].op && IsCommandKind(o.op) else o == Incomplete)
  {
    hide Follows, Expect, Enter, Answers, AfterAll, Replies.EncodeAll, Between, AllWellCut;
    var k := |trace| - 1;
    SentTo(trace, parts, ms, k);
    SentOutcome(trace[k], parts, ms, trace[0].data, k);
  }

  lemma SentRun(trace: seq<Moment>, turns: nat, status: Status, end: End, parts: seq<seq<Bytes>>, ms: seq<Message>)
    requires Serves(trace, turns, status, end) && SentTurn(trace[0], parts, ms, trace[0].data, 0)
    ensures var k := Min(turns, |ms|);
            && |trace| == k + 1
            && status == (if turns <= |ms| then Serving else if end.Broken? then Failed(SocketError) else Disconnected)
            && Last(trace).out == Replies.EncodeAll(Answers(trace[0].data, ms[..k]))
            && Last(trace).data == AfterAll(trace[0].data, ms[..k])
  {
    hide SentTurn, Runs, Expect, Enter, Answers, AfterAll, Replies.EncodeAll;
    SentSoFar(trace, parts, ms);
    if |trace| - 1 < |ms| { CommandGoesOn(Expect(Next(Last(trace))), end); }
  }

  // ---------------------------------------------------------------- two commands in the first chunk

  /** The reader stands in the first chunk of its stream. */
  ghost predicate InFirstChunk(s: Moment, stream: seq<Bytes>)
    requires stream != []
  {
    !s.pristine && s.buf == stream[0] && s.chunks == stream[1..]
  }

  /** After `turn` turns of a session that shares its first chunk; from the second turn on, of a caught reader. */
  ghost predicate SharedTurn(s: Moment, stream: seq<Bytes>, lead: ProtoOp, op: ProtoOp,
                             data: map<Key, Bytes>, turn: nat) {
    && stream != [] && StartsWith(stream, lead)
    && (if turn == 0 then s.pristine && s.chunks == stream && s.out == [] && s.data == data
        else
          && InFirstChunk(s, stream)
          && (turn > 1 ==> Caught(stream[0], stream[1..], op))
          && s.out == Replies.Encode(Answer(data, lead))
                      + Copies(Replies.Encode(Answer(AfterOp(data, lead), op)), turn - 1)
          && s.data == if turn == 1 then AfterOp(data, lead) else AfterOp(AfterOp(data, lead), op))
  }

  lemma SharedStart(s: Moment, lead: ProtoOp, op: ProtoOp)
    requires s.pristine && StartsWith(s.chunks, lead) && s.out == []
    ensures s.chunks != [] && SharedTurn(s, s.chunks, lead, op, s.data, 0)
  {
    hide IsCommand, Print;
  }

  lemma SharedOutcome(s: Moment, stream: seq<Bytes>, lead: ProtoOp, op: ProtoOp, data: map<Key, Bytes>, turn: nat)
    requires SharedTurn(s, stream, lead, op, data, turn)
    ensures stream != []
    ensures var o := Expect(Enter(s.buf, s.pristine, s.chunks));
            && (turn == 0 ==> o.Complete? && o.op == lead && IsCommandKind(lead))
            && (turn == 1 ==> o == Expect(Enter(stream[0], false, stream[1..])))
            && (turn == 1 ==> s.out == Replies.Encode(Answer(data, lead)) && s.data == AfterOp(data, lead))
            && (turn > 0 && Caught(stream[0], stream[1..], op) ==> o.Complete? && o.op == op && IsCommandKind(op))
  {
    hide Enter, Expect, Replies.Encode, Answer, AfterOp, Print, ValidUtf8, Supply;
    if turn == 0 { FirstOfChunk(s.buf, stream, lead); }
  }

  lemma SharedEnd(s: Moment, stream: seq<Bytes>, lead: ProtoOp, op: ProtoOp, data: map<Key, Bytes>, turn: nat)
    requires SharedTurn(s, stream, lead, op, data, turn) && turn > 1
    ensures s.out == Replies.Encode(Answer(data, lead))
                     + Copies(Replies.Encode(Answer(AfterOp(data, lead), op)), turn - 1)
    ensures s.data == AfterOp(AfterOp(data, lead), op)
  {
    hide Replies.Encode, Answer, AfterOp, Copies, StartsWith, Caught;
  }

  lemma SharedStep(s: Moment, s': Moment, stream: seq<Bytes>, lead: ProtoOp, op: ProtoOp,
                   data: map<Key, Bytes>, turn: nat)
    requires SharedTurn(s, stream, lead, op, data, turn) && Follows(s, s', Enter(s.buf, s.pristine, s.chunks))
    requires turn > 0 ==> Caught(stream[0], stream[1..], op)
    ensures SharedTurn(s', stream, lead, op, data, turn + 1)
  {
    hide Enter, Expect, Replies.Encode, Answer, AfterOp, StartsWith, LeftIn, Supply;
    var e := Enter(s.buf, s.pristine, s.chunks);
    if turn == 0 {
      FirstOfChunk(s.buf, stream, lead);
      NotRefilled(s'.buf, s'.chunks, e, Expect(e).rest);
    } else {
      CaughtStays(stream[0], stream[1..], op, s'.buf, s'.chunks);
      AnswerAgain(AfterOp(data, lead), op);
    }
  }

  /** The second turn of such a run. */
  lemma SharedSecond(trace: seq<Moment>, turns: nat, status: Status, end: End, lead: ProtoOp, op: ProtoOp)
    requires Serves(trace, turns, status, end) && turns > 1
    requires SharedTurn(trace[0], trace[0].chunks, lead, op, trace[0].data, 0)
    ensures var stream, first := trace[0].chunks, Replies.Encode(Answer(trace[0].data, lead));
            && stream != [] && |trace| > 1 && trace[1].out == first && trace[1].data == AfterOp(trace[0].data, lead)
            && Expect(Next(trace[1])) == Expect(Enter(stream[0], false, stream[1..]))
            && SharedTurn(trace[1], stream, lead, op, trace[0].data, 1)
  {
    hide SharedTurn, Follows, Expect, Enter, Replies.Encode, Answer, AfterOp, StatusAfter;
    var stream, data := trace[0].chunks, trace[0].data;
    SharedOutcome(trace[0], stream, lead, op, data, 0);
    CommandGoesOn(Expect(Next(trace[0])), end);
    assert Follows(trace[0], trace[1], Next(trace[0]));
    SharedStep(trace[0], trace[1], stream, lead, op, data, 0);
    SharedOutcome(trace[1], stream, lead, op, data, 1);
  }

  lemma {:induction false} SharedTo(trace: seq<Moment>, turns: nat, status: Status, end: End,
                                    lead: ProtoOp, op: ProtoOp, i: nat)
    requires Serves(trace, turns, status, end) && turns > 1 && 0 < i < |trace|
    requires SharedTurn(trace[0], trace[0].chunks, lead, op, trace[0].data, 0)
    requires trace[0].chunks != [] && Caught(trace[0].chunks[0], trace[0].chunks[1..], op)
    ensures SharedTurn(trace[i], trace[0].chunks, lead, op, trace[0].data, i)
  {
    hide SharedTurn, Follows, Expect, Enter, StatusAfter, Caught;
    if i == 1 {
      SharedSecond(trace, turns, status, end, lead, op);
    } else {
      SharedTo(trace, turns, status, end, lead, op, i - 1);
      assert Follows(trace[i - 1], trace[i], Next(trace[i - 1]));
      SharedStep(trace[i - 1], trace[i], trace[0].chunks, lead, op, trace[0].data, i - 1);
    }
  }

  lemma SharedCaught(trace: seq<Moment>, turns: nat, status: Status, end: End, lead: ProtoOp, op: ProtoOp)
    requires Serves(trace, turns, status, end) && turns > 1
    requires SharedTurn(trace[0], trace[0].chunks, lead, op, trace[0].data, 0)
    requires trace[0].chunks != [] && Caught(trace[0].chunks[0], trace[0].chunks[1..], op)
    ensures var data := AfterOp(trace[0].data, lead);
            && status == Serving
            && Last(trace).out == Replies.Encode(Answer(trace[0].data, lead))
                                  + Copies(Replies.Encode(Answer(data, op)), turns - 1)
            && Last(trace).data == AfterOp(data, op)
  {
    hide SharedTurn, Follows, Expect, Enter, Caught, Replies.Encode, Answer, AfterOp, StatusAfter, Copies;
    var k := |trace| - 1;
    SharedSecond(trace, turns, status, end, lead, op);
    SharedTo(trace, turns, status, end, lead, op, k);
    SharedOutcome(trace[k], trace[0].chunks, lead, op, trace[0].data, k);
    CommandGoesOn(Expect(Next(trace[k])), end);
    SharedEnd(trace[k], trace[0].chunks, lead, op, trace[0].data, k);
  }

  lemma SharedRun(trace: seq<Moment>, turns: nat, status: Status, end: End, lead: ProtoOp, op: ProtoOp)
    requires Serves(trace, turns, status, end) && turns > 1
    requires trace[0].chunks != [] && SharedTurn(trace[0], trace[0].chunks, lead, op, trace[0].data, 0)
    ensures var first, stream := Replies.Encode(Answer(trace[0].data, lead)), trace[0].chunks;
            var data := AfterOp(trace[0].data, lead);
            var second := Expect(Enter(stream[0], false, stream[1..]));
            && (!second.Complete? ==>
                  status == StatusAfter(second, end) && Last(trace).out == first && Last(trace).data == data)
            && (second.Complete? ==>
                  var both := first + Replies.Encode(Answer(data, second.op));
                  && both <= Last(trace).out
                  && (turns == 2 ==>
                        status == Serving && Last(trace).out == both && Last(trace).data == AfterOp(data, second.op)))
            && (Caught(stream[0], stream[1..], op) ==>
                  && status == Serving
                  && Last(trace).out == first + Copies(Replies.Encode(Answer(data, op)), turns - 1)
                  && Last(trace).data == AfterOp(data, op))
  {
    hide SharedTurn, Follows, Expect, Enter, Caught, Replies.Encode, Answer, AfterOp, StatusAfter, Copies;
    var stream := trace[0].chunks;
    SharedSecond(trace, turns, status, end, lead, op);
    SecondStop(trace, turns, status, end);
    if Expect(Next(trace[1])).Complete? { OutGrows(trace, turns, status, end, 2, |trace| - 1); }
    if Caught(stream[0], stream[1..], op) { SharedCaught(trace, turns, status, end, lead, op); }
  }

  /** A run of two turns or more that has come to its second: it stops there, or answers that too. */
  lemma SecondStop(trace: seq<Moment>, turns: nat, status: Status, end: End)
    requires Serves(trace, turns, status, end) && turns > 1 && |trace| > 1
    ensures var second := Expect(Next(trace[1]));
            if second.Complete? then
              && |trace| > 2 && (turns == 2 ==> status == Serving && |trace| == 3)
              && trace[2].out == trace[1].out + Replies.Encode(Answer(trace[1].data, second.op))
              && trace[2].data == AfterOp(trace[1].data, second.op)
            else |trace| == 2 && status == StatusAfter(second, end)
  {
    hide Expect, Enter, Replies.Encode, Answer, AfterOp, StatusAfter, LeftIn;
    var second := Expect(Next(trace[1]));
    if second.Complete? {
      CompletesCommand(Next(trace[1]));
      CommandGoesOn(second, end);
    }
    if |trace| > 2 { assert Follows(trace[1], trace[2], Next(trace[1])); }
  }

  /** Answering the same command twice changes neither the answer nor the map. */
  lemma AnswerAgain(data: map<Key, Bytes>, op: ProtoOp)
    ensures Answer(AfterOp(data, op), op) == Answer(data, op)
    ensures AfterOp(AfterOp(data, op), op) == AfterOp(data, op)
  {
  }

  /** One arm of the `match` in `Connection::handle`. */
  method Dispatch(store: MemoryStore, op: ProtoOp, id: Uuid) returns (reply: Bytes)
    requires IsCommandKind(op)
    modifies store
    ensures reply == Replies.Encode(Answer(old(store.data), op))
    ensures store.data == AfterOp(old(store.data), op)
  {
    match op {
      case Echo(msg) =>
        reply := Replies.Encode(Replies.Payload(msg));
      case Get(key) =>
        var val := store.Get(key);
        reply := Replies.Encode(if val.Some? then Replies.Payload(val.value) else Replies.Null);
      case Set(key, value) =>
        SingleSet(store.data, key, value);
        store.Transact(Transaction(id, [Store.Set(key, value)]));
        reply := Replies.Encode(Replies.Saved(|value|));
    }
  }

  lemma AnswersPush(data: map<Key, Bytes>, ms: seq<Message>, n: nat)
    requires n < |ms|
    ensures Answers(data, ms[..n + 1]) == Answers(data, ms[..n]) + [Answer(AfterAll(data, ms[..n]), ms[n].op)]
    ensures AfterAll(data, ms[..n + 1]) == AfterOp(AfterAll(data, ms[..n]), ms[n].op)
  {
    hide Answer, AfterOp;
    assert ms[..n + 1][..n] == ms[..n];
  }

  lemma SingleSet(data: map<Key, Bytes>, key: Key, value: Bytes)
    ensures ApplyOps(data, [Store.Set(key, value)]) == data[key := value]
  {
    assert [Store.Set(key, value)][..0] == [];
  }

  /** What a turn of a well-cut session reads. */
  lemma TurnFacts(buf: Bytes, pristine: bool, chunks: seq<Bytes>, parts: seq<seq<Bytes>>, ms: seq<Message>, turn: nat)
    requires AllWellCut(parts, ms) && turn <= |ms|
    requires Between(buf, pristine, chunks, parts[turn..])
    ensures var e := Enter(buf, pristine, chunks);
            if turn < |ms|
            then IsTurn(e, parts, ms, turn)
                 && Expect(e) == Complete(ms[turn].op, ms[turn].filler + [NEWLINE] + Concat(Flatten(parts[turn + 1..])))
            else Expect(e) == Incomplete
  {
    hide Between, Enter, Expect, OwnChunks, LastChunk, IsLine, Flatten;
    if turn < |ms| {
      var rest := parts[turn..];
      assert rest[0] == parts[turn] && rest[1..] == parts[turn + 1..];
      EnterNext(buf, pristine, chunks, rest, ms[turn]);
      NextCommand(rest, ms[turn]);
    } else {
      assert parts[turn..] == [];
      EnterNothing(buf, pristine, chunks);
      ExpectEnded();
    }
  }

  ghost predicate IsTurn(e: Entry, parts: seq<seq<Bytes>>, ms: seq<Message>, turn: nat) {
    && turn < |parts| == |ms| && WellCut(parts[turn], ms[turn])
    && e == At(parts[turn][0], 0, parts[turn][1..] + Flatten(parts[turn + 1..]))
  }

  lemma TurnLeaves(buf: Bytes, chunks: seq<Bytes>, parts: seq<seq<Bytes>>, ms: seq<Message>, turn: nat, e: Entry)
    requires IsTurn(e, parts, ms, turn)
    requires LeftIn(buf, chunks, e, ms[turn].filler + [NEWLINE] + Concat(Flatten(parts[turn + 1..])))
    ensures Between(buf, false, chunks, parts[turn + 1..])
  {
    hide Between, LeftIn, Flatten;
    var rest := parts[turn..];
    assert rest[0] == parts[turn] && rest[1..] == parts[turn + 1..];
    LeftBetween(buf, chunks, rest, ms[turn]);
  }
}
