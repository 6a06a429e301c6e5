/** Bloom files that recovery accepts although tables were written since: what lies behind the tables they lack. */
module LsmStale {
  import opened Bytes
  import opened Store
  import opened Tables
  import opened CommitLog
  import opened FileNames
  import opened Lsm
  import opened LsmReplay
  import opened LsmInvariant
  import opened LsmReaders

  ghost predicate HasNewer(names: set<Name>, n: Name) {
    exists n' :: n' in names && Less(n, n')
  }

  /** The indexed tables, without the one a flush is still ending. */
  function Settled(m: Memory): set<Name> {
    if m.flush.Idle? then m.filters.Keys else m.filters.Keys - {m.flush.name}
  }

  /** Behind a table that is not indexed: if a newer table is settled, nothing is open; otherwise all is in `work`. */
  ghost predicate LackingOk(origin: map<Name, seq<Transaction>>, indexed: set<Name>, settled: set<Name>,
                            open: seq<Transaction>, work: seq<Transaction>) {
    forall n, t | n in origin && n !in indexed && t in origin[n] ::
      if HasNewer(settled, n) then t !in open else t in work
  }

  ghost predicate OriginLogged(origin: map<Name, seq<Transaction>>, begun: seq<Transaction>) {
    forall n :: n in origin ==> origin[n] != [] && forall t :: t in origin[n] ==> t in begun
  }

  ghost predicate FileLackingOk(s: State)
    requires s.disk.bloomFile.Some?
  {
    var names, open := s.disk.bloomFile.value.filters.Keys, Unfinished(s.disk.log);
    LackingOk(s.origin, names, names, open, open)
  }

  ghost predicate MemoryLackingOk(s: State)
    requires s.memory.Some?
  {
    var m := s.memory.value;
    && LackingOk(s.origin, m.filters.Keys, Settled(m), Unfinished(s.disk.log), m.batch)
    && (m.flush.Wrote? ==> m.flush.name !in m.filters)
  }

  ghost predicate Lacking(s: State) {
    && OriginLogged(s.origin, Begins(s.disk.log))
    && (AcceptsBloomFile(s.disk) ==> FileLackingOk(s))
    && (s.memory.Some? ==> MemoryLackingOk(s))
  }

  // ---------------------------------------------------------------- every step keeps it

  lemma LackingBegin(s: State, tx: Transaction)
    requires Base(s) && Indexing(s) && Lacking(s) && Enabled(s, Begin(tx))
    ensures Lacking(Do(s, Begin(tx)))
  {
    hide Accounted, Replay, OriginOk, NothingLost, FlushOk, MemtableOk, LogOk, Begins, Unfinished, FiltersOk, HasNewer;
    var log := s.disk.log;
    FreshIsNew(log, tx);
    BeginLog(log, tx, Begins(log), Unfinished(log));
  }

  lemma LackingEnd(s: State)
    requires Base(s) && Indexing(s) && Lacking(s) && Enabled(s, AppendEnd)
    ensures Lacking(Do(s, AppendEnd))
  {
    hide Replay, OriginOk, NothingLost, FlushOk, MemtableOk, LogOk, Begins, Unfinished, FiltersOk, HasNewer, Accounted;
    var log, m := s.disk.log, s.memory.value;
    var begun, open := Begins(log), Unfinished(log);
    var i := BatchIsOpen(begun, open, m.batch, m.flush.ended, m.pending);
    EndLog(log, begun, open, i);
    assert forall t :: t in open[..i] + open[i + 1..] ==> t in open;
    var s' := Do(s, AppendEnd);
    assert s'.disk.log == log + [EndTx(open[i].id)];
    assert Settled(s'.memory.value) == Settled(m);
    FewerOpen(s.origin, m.filters.Keys, Settled(m), open, Unfinished(s'.disk.log), m.batch);
  }

  lemma FewerOpen(origin: map<Name, seq<Transaction>>, indexed: set<Name>, settled: set<Name>,
                  open: seq<Transaction>, open': seq<Transaction>, work: seq<Transaction>)
    requires LackingOk(origin, indexed, settled, open, work) && forall t :: t in open' ==> t in open
    ensures LackingOk(origin, indexed, settled, open', work)
  {
    hide HasNewer;
  }

  lemma LackingApply(s: State, tx: Transaction)
    requires Lacking(s) && Enabled(s, Apply(tx))
    ensures Lacking(Do(s, Apply(tx)))
  {
    hide Effects, Begins, Unfinished, HasNewer;
  }

  /** No name on disk is newer than one that is not older than all of them. */
  lemma NothingNewer(tables: map<Name, Table>, names: set<Name>, name: Name)
    requires names <= tables.Keys && NotOlder(tables, name)
    ensures !HasNewer(names, name)
  {
    hide Less;
    forall n | n in names ensures !Less(name, n) {
      LessIrreflexive(name);
      if n != name { LessAsymmetric(n, name); }
    }
  }

  lemma LackingWriteTable(s: State, millis: nat)
    requires Base(s) && Indexing(s) && Lacking(s) && Enabled(s, WriteTable(millis))
    ensures Lacking(Do(s, WriteTable(millis)))
  {
    hide Replay, Unfinished, Begins, SstName, NotOlder, LogOk, NothingLost, HasNewer, Shadowed;
    var d, m, name := s.disk, s.memory.value, SstName(millis);
    if m.memtable != map[] && name !in d.tables {
      ReplayNone();
      assert m.batch != [];
      NothingNewer(d.tables, m.filters.Keys, name);
      assert m.filters.Keys - {name} == m.filters.Keys;
      if AcceptsBloomFile(d) { NothingNewer(d.tables, d.bloomFile.value.filters.Keys, name); }
    }
  }

  lemma LackingAddFilter(s: State)
    requires Lacking(s) && Enabled(s, AddFilter)
    ensures Lacking(Do(s, AddFilter))
  {
    hide Unfinished, Begins, HasNewer;
    var m, m' := s.memory.value, Do(s, AddFilter).memory.value;
    assert m'.filters.Keys == m.filters.Keys + {m.flush.name};
    assert Settled(m') == Settled(m);
  }

  /** The end of a flush settles its table, the newest; by then all of its batch is ended. */
  lemma LackingFinish(s: State)
    requires Base(s) && Indexing(s) && Lacking(s) && Enabled(s, FinishFlush)
    ensures Lacking(Do(s, FinishFlush))
  {
    hide Replay, Unfinished, Begins, LogOk, NothingLost, FiltersOk, Less, MemtableOk;
    var m := s.memory.value;
    var open, name := Unfinished(s.disk.log), m.flush.name;
    forall n, t | n in s.origin && n !in m.filters && t in s.origin[n]
      ensures HasNewer(m.filters.Keys, n) && t !in open
    {
      assert name in m.filters && Less(n, name);
      if !HasNewer(Settled(m), n) {
        assert t in m.batch;
        var i :| 0 <= i < |m.batch| && m.batch[i] == t;
      }
    }
  }

  lemma LackingSave(s: State)
    requires Base(s) && Lacking(s) && Enabled(s, WriteBloomFile)
    ensures Lacking(Do(s, WriteBloomFile))
  {
    hide Replay, Unfinished, Begins, LogOk, NothingLost, HasNewer, MemtableOk, OriginOk, FlushOk;
    var m := s.memory.value;
    assert forall t :: t in m.batch ==> t in Unfinished(s.disk.log);
  }

  lemma LackingRecover(s: State)
    requires Base(s) && Lacking(s) && s.memory.None?
    ensures Lacking(Do(s, Recover))
  {
    hide Replay, Unfinished, Begins, LogOk, NothingLost, HasNewer;
  }

  lemma LackingRest(s: State, a: Action)
    requires Lacking(s) && Enabled(s, a) && (a.ClearMemtable? || a.Crash?)
    ensures Lacking(Do(s, a))
  {
    hide Unfinished, Begins, HasNewer;
  }

  lemma LackingStep(s: State, a: Action)
    requires Base(s) && Indexing(s) && Lacking(s) && Enabled(s, a)
    ensures Lacking(Do(s, a))
  {
    hide Base, Indexing, Lacking, Do, Enabled;
    match a
    case Begin(tx) => LackingBegin(s, tx);
    case Apply(tx) => LackingApply(s, tx);
    case WriteTable(millis) => LackingWriteTable(s, millis);
    case AddFilter => LackingAddFilter(s);
    case AppendEnd => LackingEnd(s);
    case FinishFlush => LackingFinish(s);
    case WriteBloomFile => LackingSave(s);
    case Recover => EnabledRecover(s); LackingRecover(s);
    case _ => LackingRest(s, a);
  }

  lemma {:induction false} LackingAlways(s: State, run: seq<Action>)
    requires Base(s) && Indexing(s) && Lacking(s) && Legal(s, run)
    ensures Base(Final(s, run)) && Indexing(Final(s, run)) && Lacking(Final(s, run))
    decreases |run|
  {
    hide Base, Indexing, Lacking, Do, Enabled;
    if run != [] {
      BaseStep(s, run[0]);
      IndexingStep(s, run[0]);
      LackingStep(s, run[0]);
      LackingAlways(Do(s, run[0]), run[1..]);
    }
  }

  // ---------------------------------------------------------------- main result

  /** A bloom file that recovery accepts is harmless even when it is stale: each key of a table it lacks is in a newer
      table it has, or is replayed from the log. And the names on disk tell which. If the file has no table newer than
      the one it lacks, every transaction behind that table is unfinished; if it has one, not a single one is. */
  lemma StaleBloomFileIsHarmless(run: seq<Action>, n: Name)
    requires Legal(INITIAL, run) && AcceptsBloomFile(Final(INITIAL, run).disk)
    requires var s := Final(INITIAL, run); n in s.disk.tables && n !in s.disk.bloomFile.value.filters
    ensures var s := Final(INITIAL, run);
            var filters, open := s.disk.bloomFile.value.filters, Unfinished(s.disk.log);
            && n in s.origin
            && (forall k :: k in s.disk.tables[n] ==> k in Replay(open) || Shadowed(s.disk.tables, filters, n, k))
            && ((forall t :: t in s.origin[n] ==> t in open) <==> !exists n' :: n' in filters && Less(n, n'))
            && ((exists n' :: n' in filters && Less(n, n')) ==> forall t :: t in s.origin[n] ==> t !in open)
  {
    hide Do, Enabled, Legal, Final, Replay, Unfinished, Shadowed, Begins, Less, LogOk, NothingLost;
    BaseInitially();
    IndexingInitially();
    LackingAlways(INITIAL, run);
    var s := Final(INITIAL, run);
    assert s.origin[n][0] in s.origin[n];
  }
}
