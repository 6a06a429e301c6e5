/** The server's loop over the log-structured store, with flushes between its turns. The protocol has no delete, so
    the lookups that bring deleted keys back never happen to its clients. */
module LsmServer {
  import opened Bytes
  import opened Store
  import opened Tables
  import opened FileNames
  import opened CommitLog
  import opened Lsm
  import opened LsmReaders
  import opened LsmFiles
  import opened LsmStore
  import opened LsmServing
  import opened LsmTheorems
  import opened LsmShutdown
  import opened Wire
  import opened Proto
  import opened Session
  import opened Pipelining
  import opened Server
  import Replies
  import SSTables

  /** What a command leaves in the store: an update is one logged and applied transaction, with its begin line on disk;
      any other command leaves everything as it was. */
  ghost predicate Logs(s: Lsm.State, s': Lsm.State, op: ProtoOp, id: Uuid) {
    if op.Set? then
      var tx := Transaction(id, [Store.Set(op.key, op.value)]);
      && s'.disk == AppendLine(s.disk, BeginTx(tx))
      && (FreshId(s.disk.log, id) ==>
            Legal(s, [Begin(tx), Apply(tx)]) && s' == Final(s, [Begin(tx), Apply(tx)]))
    else s' == s
  }

  /** One arm of the `match` in `Connection::handle`; no reply means that the lookup failed and the task panicked. */
  method Dispatch(store: LSMStore, op: ProtoOp, id: Uuid, noise: (Name, Key) -> bool, reading: Reads)
    returns (reply: Option<Bytes>)
    requires IsCommandKind(op) && store.Valid() && Serviceable(store.Snapshot())
    modifies store
    ensures store.Valid() && Serviceable(store.Snapshot()) && store.disk.tables == old(store.disk.tables)
    ensures reply.None? ==> op.Get?
    ensures Logs(old(store.Snapshot()), store.Snapshot(), op, id)
    ensures !op.Set? ==> store.Snapshot() == old(store.Snapshot())
    ensures store.View() == if reply.Some? then AfterOp(old(store.View()), op) else old(store.View())
    ensures TablesFit(store.disk.tables) ==>
              && (reply.None? ==> !WholeReads(store.disk.tables, reading))
              && (reply.Some? ==> reply.value == Replies.Encode(Answer(old(store.View()), op)))
  {
    hide Serviceable, TablesFit, Visible, Overlay, WholeReads, GetFromFiles, Effects, LsmReaders.Get, Replies.Encode;
    hide Legal, Final, FreshId;
    match op {
      case Echo(msg) =>
        reply := Some(Replies.Encode(Replies.Payload(msg)));
      case Get(key) =>
        ghost var s := store.Snapshot();
        FiltersKnown(s);
        LookupsAreRight(s, noise, key);
        if TablesFit(store.disk.tables) { FailsOnlyShort(s, noise, key, reading); }
        var found := store.Get(key, noise, reading);
        if found.Failed? { return None; }
        reply := Some(Replies.Encode(if found.value.Some? then Replies.Payload(found.value.value) else Replies.Null));
      case Set(key, value) =>
        SingleSet(store.View(), key, value);
        ghost var s := store.Snapshot();
        store.Transact(Transaction(id, [Store.Set(key, value)]));
        SetServes(s, store.Snapshot(), key, value);
        reply := Some(Replies.Encode(Replies.Saved(|value|)));
    }
  }

  /** One turn of the loop. */
  method Turn(proto: Proto, store: LSMStore, id: Uuid, noise: (Name, Key) -> bool, reading: Reads, before: Bytes)
    returns (out: Bytes, status: Status)
    requires proto.Valid() && store.Valid() && Serviceable(store.Snapshot())
    modifies proto, store
    ensures proto.Valid() && store.Valid() && Serviceable(store.Snapshot())
    ensures store.disk.tables == old(store.disk.tables)
    ensures !status.Serving? ==> out == before && store.Snapshot() == old(store.Snapshot())
    ensures var o := Expect(Enter(old(proto.buf), old(proto.pristine), old(proto.chunks)));
            && (if status.Panicked? then o.Complete? && o.op.Get? else Reports(status, o, proto.end))
            && (status.Serving? ==> Logs(old(store.Snapshot()), store.Snapshot(), o.op, id))
    ensures TablesFit(store.disk.tables) ==>
              var s := Moment(old(proto.buf), old(proto.pristine), old(proto.chunks), before, old(store.View()));
              var e := Enter(s.buf, s.pristine, s.chunks);
              && (if status.Panicked? then !WholeReads(store.disk.tables, reading)
                  else status == StatusAfter(Expect(e), proto.end))
              && (status.Serving? ==>
                    Follows(s, Moment(proto.buf, proto.pristine, proto.chunks, out, store.View()), e))
  {
    hide Enter, Expect, LeftIn, Answer, AfterOp, Replies.Encode, Serviceable, TablesFit, WholeReads, LSMStore.View;
    hide Reports, Logs;
    ghost var e := Enter(proto.buf, proto.pristine, proto.chunks);
    StatusExact(e, proto.end);
    out := before;
    var read := proto.Read();
    if read.Err? {
      status := Failed(read.error);
    } else if read.op.SysClose? || read.op.Cancelled? {
      status := Disconnected;
    } else {
      NeverEnds(proto.end);
      var reply := Dispatch(store, read.op, id, noise, reading);
      if reply.None? { return out, Panicked; }
      status := Serving;
      out := out + reply.value;
    }
  }

  // ---------------------------------------------------------------- flushes between turns

  /** No table is lost or changed. */
  ghost predicate Grown(tables: map<Name, Table>, tables': map<Name, Table>) {
    forall n :: n in tables ==> n in tables' && tables'[n] == tables[n]
  }

  lemma GrownFurther(a: map<Name, Table>, b: map<Name, Table>, c: map<Name, Table>)
    requires Grown(a, b) && Grown(b, c)
    ensures Grown(a, c)
  {
  }

  lemma GrownNot(a: map<Name, Table>)
    ensures Grown(a, a)
  {
  }

  lemma FlushStamped(s: Lsm.State, now: nat)
    requires s.memory.Some? && StampedUpTo(s.disk.tables, now)
    ensures var tables := AfterFlush(s, now).disk.tables;
            && StampedUpTo(tables, now)
            && (TablesFit(tables) ==> TablesFit(s.disk.tables))
            && Grown(s.disk.tables, tables)
  {
    hide Decimal, SstName, SSTables.FitsTable, EndLines, Ids;
    var tables := AfterFlush(s, now).disk.tables;
    if TablesFit(tables) {
      forall n | n in s.disk.tables ensures SSTables.FitsTable(s.disk.tables[n]) { TableFits(tables, n); }
    }
  }

  /** The background task's flush, if one is due: clients see nothing of it. */
  method FlushBetween(store: LSMStore, due: bool, now: nat)
    requires store.Valid() && Serviceable(store.Snapshot()) && StampedUpTo(store.disk.tables, now)
    modifies store
    ensures store.Valid() && Serviceable(store.Snapshot()) && StampedUpTo(store.disk.tables, now)
    ensures store.View() == old(store.View())
    ensures store.Snapshot() == if due then AfterFlush(old(store.Snapshot()), now) else old(store.Snapshot())
    ensures TablesFit(store.disk.tables) ==> old(TablesFit(store.disk.tables))
    ensures Grown(old(store.disk.tables), store.disk.tables)
    ensures old(Kept(store.Snapshot())) ==>
              Kept(store.Snapshot()) && forall id :: old(FreshId(store.disk.log, id)) ==> FreshId(store.disk.log, id)
  {
    hide Serviceable, StampedUpTo, TablesFit, LSMStore.View, AfterFlush, SstName, NotOlder, IsFlushAnswer;
    hide Legal, Final, FlushSteps, Grown, Kept, FreshId;
    GrownNot(store.disk.tables);
    if !due { return; }
    ghost var s := store.Snapshot();
    Unstamp(s.disk.tables, now);
    FlushServes(s, now);
    FlushStamped(s, now);
    if Kept(s) {
      FlushIsKept(s, now);
      forall id | FreshId(s.disk.log, id) ensures FreshId(AfterFlush(s, now).disk.log, id) {
        FlushKeepsFresh(s, now, id);
      }
    }
    var result := store.WriteSSTable(now);
  }

  /** Without a flush that is due no table appears; one that is due before the first turn is made. */
  ghost predicate FlushesAsDue(s: Lsm.State, now: nat, tables: map<Name, Table>, due: nat -> bool, turns: nat)
    requires s.memory.Some?
  {
    && ((forall t :: 0 <= t < turns ==> !due(t)) ==> tables == s.disk.tables)
    && (turns > 0 && due(0) ==> Grown(AfterFlush(s, now).disk.tables, tables))
  }

  lemma NothingDue(s: Lsm.State, now: nat, due: nat -> bool)
    requires s.memory.Some?
    ensures FlushesAsDue(s, now, s.disk.tables, due, 0)
  {
  }

  lemma DueStep(s: Lsm.State, now: nat, tables: map<Name, Table>, tables': map<Name, Table>,
                due: nat -> bool, turn: nat)
    requires s.memory.Some? && FlushesAsDue(s, now, tables, due, turn) && Grown(tables, tables')
    requires turn == 0 && due(0) ==> tables' == AfterFlush(s, now).disk.tables
    requires !due(turn) ==> tables' == tables
    ensures FlushesAsDue(s, now, tables', due, turn + 1)
  {
    hide AfterFlush, Grown;
    var first := AfterFlush(s, now).disk.tables;
    GrownNot(first);
    if turn > 0 && due(0) { GrownFurther(first, tables, tables'); }
  }

  lemma DueLonger(s: Lsm.State, now: nat, tables: map<Name, Table>, due: nat -> bool, turn: nat, turns: nat)
    requires s.memory.Some? && FlushesAsDue(s, now, tables, due, turn) && turn <= turns && (turns > 0 ==> turn > 0)
    ensures FlushesAsDue(s, now, tables, due, turns)
  {
    hide AfterFlush, Grown;
  }

  // ---------------------------------------------------------------- nothing answered is lost

  /** The ids of the turns to come are different ones and new to the log. */
  ghost predicate NewIds(ids: nat -> Uuid, from: nat, turns: nat, log: seq<CommitLog.Line>) {
    && (forall i, j | from <= i < j < turns :: ids(i) != ids(j))
    && (forall i | from <= i < turns :: FreshId(log, ids(i)))
  }

  /** An answered command leaves a store from which a crash takes nothing. */
  lemma LogsIsKept(s: Lsm.State, s': Lsm.State, op: ProtoOp, id: Uuid)
    requires Kept(s) && FreshId(s.disk.log, id) && Logs(s, s', op, id)
    ensures Kept(s')
    ensures forall id' :: id' != id && FreshId(s.disk.log, id') ==> FreshId(s'.disk.log, id')
  {
    hide Kept, Legal, Final;
    if op.Set? { TransactionIsKept(s, Transaction(id, [Store.Set(op.key, op.value)])); }
  }

  lemma NewIdsHead(ids: nat -> Uuid, turn: nat, turns: nat, log: seq<CommitLog.Line>)
    requires NewIds(ids, turn, turns, log) && turn < turns
    ensures FreshId(log, ids(turn))
  {
    hide FreshId;
  }

  lemma NewIdsLater(ids: nat -> Uuid, turn: nat, turns: nat, log: seq<CommitLog.Line>, log': seq<CommitLog.Line>)
    requires NewIds(ids, turn, turns, log) && turn < turns
    requires forall id :: id != ids(turn) && FreshId(log, id) ==> FreshId(log', id)
    ensures NewIds(ids, turn + 1, turns, log')
  {
    hide FreshId;
  }

  // ---------------------------------------------------------------- the loop

  /** A flush if one is due, and a turn. */
  method Round(proto: Proto, store: LSMStore, id: Uuid, noise: (Name, Key) -> bool, reading: Reads,
               due: bool, now: nat, before: Bytes)
    returns (out: Bytes, status: Status)
    requires proto.Valid() && store.Valid() && Serviceable(store.Snapshot()) && StampedUpTo(store.disk.tables, now)
    modifies proto, store
    ensures proto.Valid() && store.Valid() && Serviceable(store.Snapshot()) && StampedUpTo(store.disk.tables, now)
    ensures Grown(old(store.disk.tables), store.disk.tables)
    ensures store.disk.tables == if due then AfterFlush(old(store.Snapshot()), now).disk.tables
                                 else old(store.disk.tables)
    ensures !status.Serving? ==> out == before && store.View() == old(store.View())
    ensures var o := Expect(Enter(old(proto.buf), old(proto.pristine), old(proto.chunks)));
            if status.Panicked? then o.Complete? && o.op.Get? else Reports(status, o, proto.end)
    ensures TablesFit(store.disk.tables) ==>
              var s := Moment(old(proto.buf), old(proto.pristine), old(proto.chunks), before, old(store.View()));
              && old(TablesFit(store.disk.tables))
              && (if status.Panicked? then !WholeReads(store.disk.tables, reading)
                  else status == StatusAfter(Expect(Server.Next(s)), proto.end))
              && (status.Serving? ==>
                    Follows(s, Moment(proto.buf, proto.pristine, proto.chunks, out, store.View()), Server.Next(s)))
    ensures old(Kept(store.Snapshot()) && FreshId(store.disk.log, id)) ==>
              && Kept(store.Snapshot())
              && forall id' :: id' != id && old(FreshId(store.disk.log, id')) ==> FreshId(store.disk.log, id')
  {
    hide Enter, Expect, Follows, StatusAfter, Serviceable, TablesFit, WholeReads, StampedUpTo, Grown;
    hide LSMStore.View, Kept, FreshId, Logs, AfterFlush;
    ghost var kept := Kept(store.Snapshot()) && FreshId(store.disk.log, id);
    FlushBetween(store, due, now);
    ghost var s := store.Snapshot();
    out, status := Turn(proto, store, id, noise, reading, before);
    if kept && status.Serving? {
      LogsIsKept(s, store.Snapshot(), Expect(Enter(old(proto.buf), old(proto.pristine), old(proto.chunks))).op, id);
    }
  }

  /** The moments of a run of the loop that a short read of a table file may stop. */
  ghost predicate ServesOrPanics(trace: seq<Moment>, turns: nat, status: Status, end: End,
                                 tables: map<Name, Table>, reading: nat -> Reads) {
    if status.Panicked? then
      && Runs(trace) && |trace| <= turns && !WholeReads(tables, reading(|trace| - 1))
      && Expect(Server.Next(Last(trace))).Complete? && Expect(Server.Next(Last(trace))).op.Get?
    else Serves(trace, turns, status, end)
  }

  /** What a run over a well-cut session has answered, and how it ended. */
  ghost predicate SessionAnswered(trace: seq<Moment>, turns: nat, status: Status, end: End, ms: seq<Message>)
    requires trace != []
  {
    var k, data := |trace| - 1, trace[0].data;
    && k <= |ms|
    && Last(trace).out == Replies.EncodeAll(Answers(data, ms[..k])) && Last(trace).data == AfterAll(data, ms[..k])
    && (if status.Panicked? then k < turns && k < |ms| && ms[k].op.Get?
        else
          && k == Min(turns, |ms|)
          && status == if turns <= |ms| then Serving else if end.Broken? then Failed(SocketError) else Disconnected)
  }

  lemma SessionRun(trace: seq<Moment>, turns: nat, status: Status, end: End, tables: map<Name, Table>,
                   reading: nat -> Reads, parts: seq<seq<Bytes>>, ms: seq<Message>)
    requires ServesOrPanics(trace, turns, status, end, tables, reading)
    requires trace != [] && SentTurn(trace[0], parts, ms, trace[0].data, 0)
    ensures SessionAnswered(trace, turns, status, end, ms)
  {
    hide SentTurn, Runs, Expect, Enter, Answers, AfterAll, Replies.EncodeAll, WholeReads, StatusAfter;
    SentSoFar(trace, parts, ms);
    if !status.Panicked? { SentRun(trace, turns, status, end, parts, ms); }
  }

  lemma RunStarts(trace: seq<Moment>, end: End, tables: map<Name, Table>, reading: nat -> Reads)
    requires |trace| == 1
    ensures ServesOrPanics(trace, 0, Serving, end, tables, reading)
  {
  }

  lemma OneMore(trace: seq<Moment>, turn: nat, status: Status, end: End,
                before: map<Name, Table>, tables: map<Name, Table>, reading: nat -> Reads, now: Moment)
    requires ServesOrPanics(trace, turn, Serving, end, before, reading)
    requires if status.Panicked? then
               && !WholeReads(tables, reading(turn))
               && Expect(Server.Next(Last(trace))).Complete? && Expect(Server.Next(Last(trace))).op.Get?
             else status == StatusAfter(Expect(Server.Next(Last(trace))), end)
    requires status.Serving? ==> Follows(Last(trace), now, Server.Next(Last(trace)))
    ensures ServesOrPanics(if status.Serving? then trace + [now] else trace, turn + 1, status, end, tables, reading)
  {
    hide Expect, Follows, WholeReads, StatusAfter, Server.Next;
  }

  lemma StoppedLonger(trace: seq<Moment>, turn: nat, turns: nat, status: Status, end: End, tables: map<Name, Table>,
                      reading: nat -> Reads)
    requires ServesOrPanics(trace, turn, status, end, tables, reading) && turn <= turns && !status.Serving?
    ensures ServesOrPanics(trace, turns, status, end, tables, reading)
  {
    hide Runs, Expect, WholeReads, StatusAfter, Server.Next;
  }

  /** The first `turns` turns of `Connection::handle`, with a flush before every turn that `due` names. The moments
      between the turns are in `trace`; each turn does what the reader's outcome says, whenever tables are written and
      whatever the filters answer, unless a read of a table file comes short in a lookup, which makes it panic.

      On a session cut message by message it answers, turn by turn, exactly as a plain map with the store's visible
      contents, and then closes.

      Started on a store that a crash would not change, with new ids, it leaves such a store after any number of turns:
      a start from the disk alone shows exactly the contents that the answers so far made. */
  method Handle(proto: Proto, store: LSMStore, ids: nat -> Uuid, noise: nat -> ((Name, Key) -> bool),
                reading: nat -> Reads, due: nat -> bool, clock: nat -> nat, turns: nat,
                ghost parts: seq<seq<Bytes>>, ghost ms: seq<Message>)
    returns (out: Bytes, status: Status, ghost trace: seq<Moment>)
    requires proto.Valid() && store.Valid() && Serviceable(store.Snapshot())
    requires SteadyClock(clock) && StampedUpTo(store.disk.tables, clock(0))
    modifies proto, store
    ensures store.Valid() && Serviceable(store.Snapshot())
    ensures Grown(old(store.disk.tables), store.disk.tables)
    ensures FlushesAsDue(old(store.Snapshot()), clock(0), store.disk.tables, due, turns)
    ensures trace != [] && out == Last(trace).out && store.View() == Last(trace).data
            && trace[0] == Moment(old(proto.buf), old(proto.pristine), old(proto.chunks), [], old(store.View()))
    ensures TablesFit(store.disk.tables) ==>
              ServesOrPanics(trace, turns, status, proto.end, store.disk.tables, reading)
    ensures TablesFit(store.disk.tables)
            && AllWellCut(parts, ms) && old(Between(proto.buf, proto.pristine, proto.chunks, parts)) ==>
              SessionAnswered(trace, turns, status, proto.end, ms)
    ensures old(Kept(store.Snapshot()) && NewIds(ids, 0, turns, store.disk.log)) ==>
              Kept(store.Snapshot()) && Restored(store.disk) == store.View()
  {
    hide Enter, Expect, Follows, Reports, StatusAfter, SentTurn, AllWellCut, Between, SessionAnswered, ServesOrPanics;
    hide Serviceable, TablesFit, WholeReads, StampedUpTo, SteadyClock, Grown, LSMStore.View, Kept, FreshId, NewIds;
    hide Restored, AfterFlush, FlushesAsDue;
    GrownNot(store.disk.tables);
    ghost var s := store.Snapshot();
    NothingDue(s, clock(0), due);
    ghost var kept := Kept(store.Snapshot()) && NewIds(ids, 0, turns, store.disk.log);
    out, status := [], Serving;
    trace := [Moment(proto.buf, proto.pristine, proto.chunks, out, store.View())];
    RunStarts(trace, proto.end, store.disk.tables, reading);
    var turn := 0;
    while turn < turns && status.Serving?
      invariant proto.Valid() && store.Valid() && Serviceable(store.Snapshot()) && turn <= turns
      invariant StampedUpTo(store.disk.tables, clock(turn)) && Grown(old(store.disk.tables), store.disk.tables)
      invariant FlushesAsDue(s, clock(0), store.disk.tables, due, turn)
      invariant turn == 0 ==> store.Snapshot() == s && status.Serving?
      invariant trace != [] && out == Last(trace).out && store.View() == Last(trace).data
      invariant trace[0] == Moment(old(proto.buf), old(proto.pristine), old(proto.chunks), [], old(store.View()))
      invariant status.Serving? ==> Last(trace) == Moment(proto.buf, proto.pristine, proto.chunks, out, store.View())
      invariant TablesFit(store.disk.tables) ==>
                  ServesOrPanics(trace, turn, status, proto.end, store.disk.tables, reading)
      invariant kept ==> Kept(store.Snapshot()) && NewIds(ids, turn, turns, store.disk.log)
      decreases turns - turn
    {
      ghost var tables, log := store.disk.tables, store.disk.log;
      if kept { NewIdsHead(ids, turn, turns, log); }
      out, status := Round(proto, store, ids(turn), noise(turn), reading(turn), due(turn), clock(turn), out);
      GrownFurther(old(store.disk.tables), tables, store.disk.tables);
      DueStep(s, clock(0), tables, store.disk.tables, due, turn);
      LaterStamp(store.disk.tables, clock, turn);
      if kept { NewIdsLater(ids, turn, turns, log, store.disk.log); }
      ghost var now := Moment(proto.buf, proto.pristine, proto.chunks, out, store.View());
      if TablesFit(store.disk.tables) {
        OneMore(trace, turn, status, proto.end, tables, store.disk.tables, reading, now);
      }
      if status.Serving? { trace := trace + [now]; }
      turn := turn + 1;
    }
    DueLonger(s, clock(0), store.disk.tables, due, turn, turns);
    if TablesFit(store.disk.tables) {
      if !status.Serving? { StoppedLonger(trace, turn, turns, status, proto.end, store.disk.tables, reading); }
      if AllWellCut(parts, ms) && old(Between(proto.buf, proto.pristine, proto.chunks, parts)) {
        SentStart(trace[0], parts, ms);
        SessionRun(trace, turns, status, proto.end, store.disk.tables, reading, parts, ms);
      }
    }
    if kept { ViewIsRestored(store); }
  }

  lemma ViewIsRestored(store: LSMStore)
    requires Kept(store.Snapshot())
    ensures Restored(store.disk) == store.View()
  {
    hide Kept, Restored, Visible, Overlay;
    KeptIsRestored(store.Snapshot());
  }
}
