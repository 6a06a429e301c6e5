/** What a flush settles, and a clean restart. */
module LsmShutdown {
  import opened Bytes
  import opened Store
  import opened Tables
  import opened CommitLog
  import opened FileNames
  import opened Lsm
  import opened LsmReplay
  import opened LsmInvariant
  import opened LsmReaders
  import opened LsmStore

  /** Whenever no flush is under way, the log's unfinished transactions are exactly those in the memtable's batch and
      those not yet applied: a finished flush leaves nothing of its batch to be replayed, and loses nothing else. */
  lemma UnfinishedIsOpenWork(run: seq<Action>)
    requires Legal(INITIAL, run) && Readable(Final(INITIAL, run))
    ensures var s := Final(INITIAL, run);
            forall t :: t in Unfinished(s.disk.log) <==> t in s.memory.value.batch || t in s.memory.value.pending
  {
    hide Do, Enabled, Legal, Final, Replay, Unfinished, Begins, OriginOk, FlushOk, NothingLost;
    BaseInitially();
    BaseAlways(INITIAL, run);
    OpenWork(Final(INITIAL, run));
  }

  lemma OpenWork(s: State)
    requires Base(s) && Readable(s)
    ensures forall t :: t in Unfinished(s.disk.log) <==> t in s.memory.value.batch || t in s.memory.value.pending
  {
    hide Replay, Unfinished, Begins, OriginOk, FlushOk, NothingLost;
  }

  /** After a flush that is not refused the memtable is empty, so whatever is still unfinished writes nothing. If there
      was anything to flush, nothing is unfinished. */
  lemma FlushSettles(s: State, millis: nat)
    requires Base(s) && Readable(s) && s.memory.value.pending == {} && NotOlder(s.disk.tables, SstName(millis))
    requires s.memory.value.memtable == map[] || SstName(millis) !in s.disk.tables
    ensures var s1 := AfterFlush(s, millis);
            && Base(s1) && Readable(s1) && s1.memory.value.pending == {} && s1.memory.value.memtable == map[]
            && Replay(Unfinished(s1.disk.log)) == map[]
            && (s.memory.value.memtable != map[] ==> Unfinished(s1.disk.log) == [] && s1.memory.value.batch == [])
  {
    hide Do, Enabled, Legal, Final, Base, FlushSteps, Replay, Unfinished, NotOlder, SstName;
    FlushRun(s, millis);
    BaseAlways(s, FlushSteps(s, millis));
    var s1 := AfterFlush(s, millis);
    OpenWork(s1);
    NothingToReplay(s1);
  }

  lemma NothingToReplay(s: State)
    requires Base(s) && Readable(s) && s.memory.value.pending == {} && s.memory.value.memtable == map[]
    ensures Replay(Unfinished(s.disk.log)) == map[]
    ensures s.memory.value.batch == [] ==> Unfinished(s.disk.log) == []
  {
    hide Replay, Unfinished, Begins, OriginOk, FlushOk, NothingLost;
    var open, batch := Unfinished(s.disk.log), s.memory.value.batch;
    OpenWork(s);
    assert forall i :: 0 <= i < |open| ==> open[i] in open;
    BatchKeysAreOpen(open, batch);
    assert batch == [] && open != [] ==> open[0] in batch;
  }

  /** A clean shutdown and the next start: with nothing in flight, the store comes up with an empty memtable, with the
      very filters it saved, and readers see the same contents; if there was anything to flush, its memory is as the
      shutdown left it. */
  lemma CleanRestart(run: seq<Action>, millis: nat)
    requires Legal(INITIAL, run) && Readable(Final(INITIAL, run))
    requires var s := Final(INITIAL, run);
             && s.memory.value.pending == {} && NotOlder(s.disk.tables, SstName(millis))
             && (s.memory.value.memtable == map[] || SstName(millis) !in s.disk.tables)
    ensures var s := Final(INITIAL, run);
            var down := AfterShutdown(s, millis);
            down.memory.Some? && Enabled(down, Crash) &&
            var up := Do(Do(down, Crash), Recover);
            && up.memory.value.memtable == map[]
            && Visible(LiveTable(up)) == Visible(LiveTable(s))
            && (down.memory.value.filters != map[] ==> up.memory.value.filters == down.memory.value.filters)
            && (s.memory.value.memtable != map[] ==> up.memory == down.memory)
  {
    hide Legal, Final, Base, Indexing, Replay, Unfinished, NotOlder, SstName, Visible, Overlay, FlushSteps, AfterFlush;
    var s := Final(INITIAL, run);
    BaseInitially();
    IndexingInitially();
    IndexingAlways(INITIAL, run);
    FlushSettles(s, millis);
    FlushKeepsLive(s, millis);
    FlushRun(s, millis);
    IndexingAlways(s, FlushSteps(s, millis));
    var s1 := AfterFlush(s, millis);
    Restart(s1);
    if s.memory.value.memtable != map[] { FlushHasFilter(s, millis); }
  }

  lemma FlushHasFilter(s: State, millis: nat)
    requires Readable(s) && s.memory.value.memtable != map[] && SstName(millis) !in s.disk.tables
    ensures AfterFlush(s, millis).memory.Some? && AfterFlush(s, millis).memory.value.filters != map[]
  {
    hide SstName;
    assert SstName(millis) in AfterFlush(s, millis).memory.value.filters;
  }

  lemma Restart(s: State)
    requires Indexing(s) && Readable(s) && s.memory.value.pending == {} && s.memory.value.memtable == map[]
    requires Replay(Unfinished(s.disk.log)) == map[]
    ensures var down := Do(s, WriteBloomFile);
            var up := Do(Do(down, Crash), Recover);
            && down.memory == s.memory && up.memory.value.memtable == map[] && LiveTable(up) == LiveTable(s)
            && (s.memory.value.filters != map[] ==> up.memory.value.filters == s.memory.value.filters)
            && (s.memory.value.filters != map[] && Unfinished(s.disk.log) == [] && s.memory.value.batch == [] ==>
                  up.memory == s.memory)
  {
    hide Replay, Unfinished, Overlay, FiltersOk;
  }

  // ---------------------------------------------------------------- what a crash would leave

  /** A store between two operations whose batch is exactly what the log would replay, in the same order. */
  ghost predicate Kept(s: State) {
    && Base(s) && Readable(s) && s.memory.value.pending == {}
    && s.memory.value.batch == Unfinished(s.disk.log)
  }

  /** The contents that a store started from the disk alone shows. */
  function Restored(d: Disk): map<Key, Bytes> {
    Visible(Overlay(d.tables) + Recovered(d).memtable)
  }

  /** From such a store a crash takes nothing. */
  lemma KeptIsRestored(s: State)
    requires Kept(s)
    ensures Restored(s.disk) == Visible(LiveTable(s))
  {
    hide Visible, Overlay, Replay, Unfinished, Begins, LogOk, OriginOk, NothingLost, Accounted, KeySets;
  }

  /** Whatever happened before, a store that has just started is such a one. */
  lemma StartedIsKept(s: State)
    requires Base(s) && s.memory.None?
    ensures Kept(Do(s, Recover))
  {
    hide Base, Replay, Unfinished, KeySets;
    BaseStep(s, Recover);
  }

  lemma TransactionIsKept(s: State, tx: Transaction)
    requires Kept(s) && FreshId(s.disk.log, tx.id)
    ensures Legal(s, [Begin(tx), Apply(tx)]) && Kept(Final(s, [Begin(tx), Apply(tx)]))
  {
    hide Base, Unfinished, Legal, Final, Effects;
    TransactRun(s, tx);
    BaseAlways(s, [Begin(tx), Apply(tx)]);
    BeginIsOpen(s, tx);
  }

  lemma BeginIsOpen(s: State, tx: Transaction)
    requires Base(s) && FreshId(s.disk.log, tx.id)
    ensures Unfinished(s.disk.log + [BeginTx(tx)]) == Unfinished(s.disk.log) + [tx]
  {
    hide Begins, Unfinished, FreshId, MemoryOk, OriginOk, NothingLost;
    FreshIsNew(s.disk.log, tx);
    BeginLog(s.disk.log, tx, Begins(s.disk.log), Unfinished(s.disk.log));
  }

  lemma FlushIsKept(s: State, millis: nat)
    requires Kept(s) && NotOlder(s.disk.tables, SstName(millis))
    ensures Kept(AfterFlush(s, millis))
  {
    hide Base, Unfinished, NotOlder, SstName, AfterFlush, Replay;
    if s.memory.value.memtable != map[] && SstName(millis) !in s.disk.tables {
      FlushSettles(s, millis);
    } else {
      NoFlush(s, millis);
    }
  }

  /** A flush ends only what the log has begun, so ids that were new stay new. */
  lemma FlushKeepsFresh(s: State, millis: nat, id: Uuid)
    requires Kept(s) && FreshId(s.disk.log, id)
    ensures FreshId(AfterFlush(s, millis).disk.log, id)
  {
    hide Begins, Unfinished, Replay, OriginOk, NothingLost, FlushOk, MemtableOk, SstName;
    var m := s.memory.value;
    forall i | 0 <= i < |m.batch| ensures m.batch[i].id != id {
      assert m.batch[i] in m.batch;
      BeginsAreLines(s.disk.log, m.batch[i]);
    }
  }
}
