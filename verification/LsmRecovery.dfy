/** Durability of every interleaving, and recovery of every disciplined one. */
module LsmRecovery {
  import opened Bytes
  import opened Store
  import opened Tables
  import opened CommitLog
  import opened FileNames
  import opened Lsm
  import opened LsmReplay
  import opened LsmInvariant

  // ---------------------------------------------------------------- durability

  /** Applying a transaction acknowledges it, and nothing takes that back. */
  lemma {:induction false} AckedStays(s: State, run: seq<Action>)
    requires Legal(s, run)
    ensures s.acked <= Final(s, run).acked
    ensures forall i :: 0 <= i < |run| && run[i].Apply? ==> run[i].tx in Final(s, run).acked
    decreases |run|
  {
    if run != [] {
      AckedStep(s, run[0]);
      hide Do, Enabled;
      AckedStays(Do(s, run[0]), run[1..]);
      assert forall i :: 0 < i < |run| ==> run[i] == run[1..][i - 1];
    }
  }

  lemma AckedStep(s: State, a: Action)
    requires Enabled(s, a)
    ensures s.acked <= Do(s, a).acked && (a.Apply? ==> a.tx in Do(s, a).acked)
  {
    hide Replay, Unfinished, Effects, SstName, NotOlder;
  }

  /** At every moment of every interleaving: every transaction that was ever applied is acknowledged, and an
      acknowledged transaction is unfinished in the log, or a table on disk was written from a batch that contains
      it and holds an entry for each of its keys; and a transaction that is logged but not applied has not been
      ended. */
  lemma ConcurrentDurability(run: seq<Action>)
    requires Legal(INITIAL, run)
    ensures var s := Final(INITIAL, run);
            && (forall i :: 0 <= i < |run| && run[i].Apply? ==> run[i].tx in s.acked)
            && (forall t :: t in s.acked ==> t in Unfinished(s.disk.log) || IsStored(s, t))
            && (s.memory.Some? ==> forall t :: t in s.memory.value.pending ==> t in Unfinished(s.disk.log))
  {
    hide Do, Enabled, Replay, Unfinished, Begins, IsStored;
    BaseInitially();
    BaseAlways(INITIAL, run);
    AckedStays(INITIAL, run);
    var s := Final(INITIAL, run);
    forall t | t in s.acked && t !in Unfinished(s.disk.log) ensures IsStored(s, t) {
      StoredMeans(s, t);
    }
  }

  ghost predicate IsStored(s: State, t: Transaction) {
    exists n :: n in s.disk.tables && n in s.origin && t in s.origin[n]
                && s.disk.tables[n] == Replay(s.origin[n])
                && (forall k :: k in Touches(t) ==> k in s.disk.tables[n])
  }

  lemma StoredMeans(s: State, t: Transaction)
    requires OriginOk(s.disk.tables, s.origin) && Stored(s.origin, t)
    ensures IsStored(s, t)
  {
    hide Replay, Touches;
    var n :| n in s.origin && t in s.origin[n];
    var i :| 0 <= i < |s.origin[n]| && s.origin[n][i] == t;
    forall k | k in Touches(t) ensures k in s.disk.tables[n] { ReplayKeys(s.origin[n], k); }
  }

  // ---------------------------------------------------------------- the tables as a whole

  lemma OverlayAdd(tables: map<Name, Table>, name: Name, t: Table)
    requires name !in tables && NotOlder(tables, name)
    ensures Overlay(tables[name := t]) == Overlay(tables) + t
  {
    hide SortedKeys, Less;
    var names, names' := SortedKeys(tables.Keys), SortedKeys(tables[name := t].Keys);
    assert forall i :: 0 <= i < |names| ==> names[i] in names;
    SortedUnique(names', names + [name]);
    assert Stack(tables[name := t], names') == Stack(tables, names) + [t];
    MergePush(Stack(tables, names), t);
  }

  lemma MergePush(ts: seq<Table>, t: Table)
    ensures Merge(ts + [t]) == Merge(ts) + t
  {
    assert (ts + [t])[..|ts|] == ts;
  }

  lemma OverlayTop(tables: map<Name, Table>, name: Name)
    requires name in tables && NotOlder(tables, name)
    ensures Overlay(tables) + tables[name] == Overlay(tables)
  {
    hide Overlay, Less;
    var rest := tables - {name};
    OverlayAdd(rest, name, tables[name]);
    assert rest[name := tables[name]] == tables;
  }

  // ---------------------------------------------------------------- order of conflicting transactions

  /** Conflicting transactions enter the batch in log order. */
  ghost predicate Ordered(open: seq<Transaction>, batch: seq<Transaction>) {
    forall i, j, p | 0 <= i < j < |open| && 0 <= p < |batch| ::
      open[j] == batch[p] && !(Touches(open[i]) !! Touches(open[j])) ==> open[i] in batch[..p]
  }

  /** Nothing logged after a pending transaction conflicts with it. */
  ghost predicate PendingDisjoint(txs: seq<Transaction>, pending: set<Transaction>) {
    forall i, j | 0 <= i < j < |txs| :: txs[i] in pending ==> Touches(txs[i]) !! Touches(txs[j])
  }

  /** Replaying what is unfinished over the tables gives the whole log's effect. */
  ghost predicate Recovers(t: Table, open: seq<Transaction>, begun: seq<Transaction>) {
    t + Replay(open) == Replay(begun)
  }

  /** Tables and batch together are the log-order effect of everything applied. */
  ghost predicate LiveOk(t: Table, batch: seq<Transaction>, begun: seq<Transaction>, pending: set<Transaction>) {
    t + Replay(batch) == Replay(Applied(begun, pending))
  }

  ghost predicate OrderOk(t: Table, begun: seq<Transaction>, open: seq<Transaction>,
                          batch: seq<Transaction>, pending: set<Transaction>) {
    && PendingDisjoint(begun, pending) && PendingDisjoint(open, pending)
    && Ordered(open, batch) && LiveOk(t, batch, begun, pending)
  }

  ghost predicate Order(s: State) {
    var t, begun, open := Overlay(s.disk.tables), Begins(s.disk.log), Unfinished(s.disk.log);
    && Recovers(t, open, begun)
    && (s.memory.Some? ==> OrderOk(t, begun, open, s.memory.value.batch, s.memory.value.pending))
  }

  // ---------------------------------------------------------------- begin

  lemma DisjointBegin(txs: seq<Transaction>, pending: set<Transaction>, tx: Transaction)
    requires PendingDisjoint(txs, pending)
    requires forall t :: t in pending ==> Touches(t) !! Touches(tx)
    requires tx !in txs
    ensures PendingDisjoint(txs + [tx], pending + {tx})
  {
    hide Touches;
    var txs' := txs + [tx];
    forall i, j | 0 <= i < j < |txs'| && txs'[i] in pending + {tx}
      ensures Touches(txs'[i]) !! Touches(txs'[j])
    {
      assert txs'[i] == txs[i] && txs[i] in txs;
    }
  }

  lemma OrderBegin(t: Table, begun: seq<Transaction>, open: seq<Transaction>,
                   batch: seq<Transaction>, pending: set<Transaction>, tx: Transaction)
    requires OrderOk(t, begun, open, batch, pending) && Recovers(t, open, begun)
    requires tx !in begun && tx !in open && tx !in batch
    requires forall u :: u in pending ==> Touches(u) !! Touches(tx)
    ensures OrderOk(t, begun + [tx], open + [tx], batch, pending + {tx})
    ensures Recovers(t, open + [tx], begun + [tx])
  {
    hide Touches, Replay, Applied, PendingDisjoint;
    DisjointBegin(begun, pending, tx);
    DisjointBegin(open, pending, tx);
    ReplayPush(open, tx);
    ReplayPush(begun, tx);
    AppliedPushPending(begun, pending, tx);
    OrderedBegin(open, batch, tx);
  }

  lemma OrderedBegin(open: seq<Transaction>, batch: seq<Transaction>, tx: Transaction)
    requires Ordered(open, batch) && tx !in batch
    ensures Ordered(open + [tx], batch)
  {
    hide Touches;
    var open' := open + [tx];
    forall i, j, p | 0 <= i < j < |open'| && 0 <= p < |batch|
                     && open'[j] == batch[p] && !(Touches(open'[i]) !! Touches(open'[j]))
      ensures open'[i] in batch[..p]
    {
      assert batch[p] in batch;
      assert open'[j] == open[j] && open'[i] == open[i];
    }
  }

  lemma AppliedPushPending(begun: seq<Transaction>, pending: set<Transaction>, tx: Transaction)
    requires tx !in begun
    ensures Applied(begun + [tx], pending + {tx}) == Applied(begun, pending)
  {
    assert (begun + [tx])[..|begun|] == begun;
    assert forall i :: 0 <= i < |begun| ==> begun[i] in begun;
    AppliedSame(begun, pending, pending + {tx});
  }

  // ---------------------------------------------------------------- apply

  lemma OrderApply(t: Table, begun: seq<Transaction>, open: seq<Transaction>,
                   batch: seq<Transaction>, pending: set<Transaction>, tx: Transaction)
    requires OrderOk(t, begun, open, batch, pending)
    requires Accounted(begun, open, batch, 0, pending) && LogOk(begun, open)
    requires tx in pending && tx in begun
    ensures OrderOk(t, begun, open, batch + [tx], pending - {tx})
  {
    hide Touches, Replay, Applied, Distinct;
    OrderedApply(begun, open, batch, pending, tx);
    ReplayPush(batch, tx);
    LiveApply(begun, pending, tx);
  }

  lemma OrderedApply(begun: seq<Transaction>, open: seq<Transaction>,
                     batch: seq<Transaction>, pending: set<Transaction>, tx: Transaction)
    requires Ordered(open, batch) && PendingDisjoint(open, pending)
    requires Accounted(begun, open, batch, 0, pending) && tx in pending
    ensures Ordered(open, batch + [tx])
  {
    hide Touches;
    var batch' := batch + [tx];
    forall i, j, p | 0 <= i < j < |open| && 0 <= p < |batch'|
                     && open[j] == batch'[p] && !(Touches(open[i]) !! Touches(open[j]))
      ensures open[i] in batch'[..p]
    {
      if p < |batch| {
        assert batch'[..p] == batch[..p];
      } else {
        assert open[i] in open && open[i] !in pending;
        assert batch'[..p] == batch;
      }
    }
  }

  /** Applying a pending transaction late is the same as having applied it in log order. */
  lemma LiveApply(begun: seq<Transaction>, pending: set<Transaction>, tx: Transaction)
    requires Distinct(begun) && PendingDisjoint(begun, pending)
    requires tx in pending && tx in begun
    ensures Replay(Applied(begun, pending - {tx})) == Replay(Applied(begun, pending)) + Effects(tx.operations)
  {
    hide Touches, Replay, Applied, Effects;
    var i :| 0 <= i < |begun| && begun[i] == tx;
    var a, b := begun[..i], begun[i + 1..];
    var pending' := pending - {tx};
    AppliedAround(begun, i, pending);
    AppliedAround(begun, i, pending');
    AppliedSame(a, pending, pending');
    AppliedSame(b, pending, pending');
    var later := Applied(b, pending);
    forall j | 0 <= j < |later| ensures Touches(tx) !! Touches(later[j]) {
      AppliedMembers(b, pending, j);
      var n :| 0 <= n < |b| && b[n] == later[j];
      assert b[n] == begun[i + 1 + n];
    }
    ReplayCommutes(Applied(a, pending), tx, later);
    assert Applied(a, pending) + [] + later == Applied(a, pending) + later;
  }

  lemma AppliedAround(txs: seq<Transaction>, i: nat, pending: set<Transaction>)
    requires i < |txs|
    ensures Applied(txs, pending)
         == Applied(txs[..i], pending) + (if txs[i] in pending then [] else [txs[i]]) + Applied(txs[i + 1..], pending)
  {
    var front := txs[..i] + [txs[i]];
    assert txs == front + txs[i + 1..];
    AppliedAppend(front, txs[i + 1..], pending);
    assert front[..i] == txs[..i];
  }

  // ---------------------------------------------------------------- flush

  lemma OrderWrite(t: Table, begun: seq<Transaction>, open: seq<Transaction>,
                   batch: seq<Transaction>, pending: set<Transaction>)
    requires OrderOk(t, begun, open, batch, pending) && Recovers(t, open, begun)
    requires Accounted(begun, open, batch, 0, pending)
    ensures OrderOk(t + Replay(batch), begun, open, batch, pending)
    ensures Recovers(t + Replay(batch), open, begun)
  {
    hide Touches, Replay, Applied, Ordered, PendingDisjoint;
    ReplayAbsorbs(t, batch, open);
    assert t + Replay(batch) + Replay(batch) == t + Replay(batch);
  }

  /** Ending the next transaction of a stored batch loses nothing: whatever it wrote last is in the youngest table. */
  lemma RecoversEnd(t: Table, begun: seq<Transaction>, open: seq<Transaction>,
                    batch: seq<Transaction>, ended: nat, pending: set<Transaction>, i: nat)
    requires Recovers(t, open, begun) && Ordered(open, batch) && t + Replay(batch) == t
    requires Accounted(begun, open, batch, ended, pending) && Distinct(open)
    requires ended < |batch| && i < |open| && open[i] == batch[ended]
    ensures Recovers(t, open[..i] + open[i + 1..], begun)
  {
    hide Touches, Replay, Effects, Ordered, Accounted, Distinct;
    var e := Effects(open[i].operations);
    ReplaySplit(open, i);
    ReplayAppend(open[..i], open[i + 1..]);
    ReplaySplit(batch, ended);
    TouchesAre(open[i]);
    forall k | k in e ensures k !in Replay(open[..i]) {
      NoEarlierWriter(begun, open, batch, ended, pending, i, k);
    }
    forall k | k in Replay(batch[ended + 1..]) ensures k in Replay(open[..i]) || k in Replay(open[i + 1..]) {
      LaterWriterIsOpen(begun, open, batch, ended, pending, i, k);
    }
    EndAlgebra(t, Replay(open[..i]), e, Replay(open[i + 1..]),
               Replay(batch[..ended]), Replay(batch[ended + 1..]));
  }

  lemma TouchesAre(tx: Transaction)
    ensures Touches(tx) == Effects(tx.operations).Keys
  {
  }

  lemma EndAlgebra(t: Table, x: Table, e: Table, y: Table, b: Table, c: Table)
    requires t + (b + e + c) == t
    requires forall k :: k in e ==> k !in x
    requires forall k :: k in c ==> k in x || k in y
    ensures t + (x + e + y) == t + (x + y)
  {
    forall k | k in e && k !in y ensures k in t && t[k] == e[k] {
      assert k in t + (b + e + c) && (t + (b + e + c))[k] == e[k];
    }
  }

  lemma NoEarlierWriter(begun: seq<Transaction>, open: seq<Transaction>, batch: seq<Transaction>,
                        ended: nat, pending: set<Transaction>, i: nat, k: Key)
    requires Ordered(open, batch) && Accounted(begun, open, batch, ended, pending)
    requires ended < |batch| && i < |open| && open[i] == batch[ended] && k in Touches(open[i])
    ensures k !in Replay(open[..i])
  {
    hide Touches, Replay;
    ReplayKeys(open[..i], k);
    forall j | 0 <= j < i ensures k !in Touches(open[..i][j]) {
      assert open[j] in open;
      assert open[j] !in batch[..ended];
      assert Touches(open[j]) !! Touches(open[i]);
    }
  }

  lemma LaterWriterIsOpen(begun: seq<Transaction>, open: seq<Transaction>, batch: seq<Transaction>,
                          ended: nat, pending: set<Transaction>, i: nat, k: Key)
    requires Accounted(begun, open, batch, ended, pending)
    requires ended < |batch| && i < |open| && open[i] == batch[ended]
    requires k in Replay(batch[ended + 1..])
    ensures k in Replay(open[..i]) || k in Replay(open[i + 1..])
  {
    hide Touches, Replay;
    ReplayKeys(batch[ended + 1..], k);
    var p :| 0 <= p < |batch[ended + 1..]| && k in Touches(batch[ended + 1..][p]);
    var u := batch[ended + 1 + p];
    assert u in open && u != open[i];
    var j :| 0 <= j < |open| && open[j] == u;
    if j < i {
      ReplayKeys(open[..i], k);
      assert open[..i][j] == u;
    } else {
      ReplayKeys(open[i + 1..], k);
      assert open[i + 1..][j - i - 1] == u;
    }
  }

  lemma OrderedRemove(open: seq<Transaction>, batch: seq<Transaction>, i: nat)
    requires Ordered(open, batch) && i < |open|
    ensures Ordered(open[..i] + open[i + 1..], batch)
  {
    hide Touches;
    var open' := open[..i] + open[i + 1..];
    forall j, n, p | 0 <= j < n < |open'| && 0 <= p < |batch|
                     && open'[n] == batch[p] && !(Touches(open'[j]) !! Touches(open'[n]))
      ensures open'[j] in batch[..p]
    {
      assert open'[j] == open[if j < i then j else j + 1];
      assert open'[n] == open[if n < i then n else n + 1];
    }
  }

  lemma DisjointRemove(open: seq<Transaction>, pending: set<Transaction>, i: nat)
    requires PendingDisjoint(open, pending) && i < |open|
    ensures PendingDisjoint(open[..i] + open[i + 1..], pending)
  {
    hide Touches;
    var open' := open[..i] + open[i + 1..];
    forall j, n | 0 <= j < n < |open'| && open'[j] in pending
      ensures Touches(open'[j]) !! Touches(open'[n])
    {
      assert open'[j] == open[if j < i then j else j + 1];
      assert open'[n] == open[if n < i then n else n + 1];
    }
  }

  // ---------------------------------------------------------------- every step

  lemma StepBegin(s: State, tx: Transaction)
    requires Base(s) && Order(s) && Enabled(s, Begin(tx))
    requires forall t :: t in s.memory.value.pending ==> Touches(t) !! Touches(tx)
    ensures Order(Do(s, Begin(tx)))
  {
    hide OrderOk, Recovers, Touches, Begins, Unfinished, Overlay, MemtableOk, FlushOk, Distinct, FreshId;
    var log, m := s.disk.log, s.memory.value;
    var begun, open := Begins(log), Unfinished(log);
    FreshIsNew(log, tx);
    BeginLog(log, tx, begun, open);
    OrderBegin(Overlay(s.disk.tables), begun, open, m.batch, m.pending, tx);
  }

  lemma StepApply(s: State, tx: Transaction)
    requires Base(s) && Order(s) && Enabled(s, Apply(tx))
    ensures Order(Do(s, Apply(tx)))
  {
    hide OrderOk, Recovers, Touches, Begins, Unfinished, Overlay, MemtableOk, FlushOk, Distinct, Effects;
    var m := s.memory.value;
    var begun, open := Begins(s.disk.log), Unfinished(s.disk.log);
    OrderApply(Overlay(s.disk.tables), begun, open, m.batch, m.pending, tx);
  }

  lemma StepWriteTable(s: State, millis: nat)
    requires Base(s) && Order(s) && Enabled(s, WriteTable(millis))
    ensures Order(Do(s, WriteTable(millis)))
  {
    hide OrderOk, Recovers, Begins, Unfinished, Overlay, Accounted, Replay, SstName, NotOlder, LogOk;
    var d, m := s.disk, s.memory.value;
    var name := SstName(millis);
    if m.memtable != map[] && name !in d.tables {
      OverlayAdd(d.tables, name, m.memtable);
      OrderWrite(Overlay(d.tables), Begins(d.log), Unfinished(d.log), m.batch, m.pending);
    }
  }

  lemma StepAppendEnd(s: State)
    requires Base(s) && Order(s) && Enabled(s, AppendEnd)
    ensures Order(Do(s, AppendEnd))
  {
    hide Recovers, Begins, Unfinished, Overlay, Accounted, Replay, NotOlder, Distinct, PendingDisjoint, Ordered, LiveOk;
    var d, m := s.disk, s.memory.value;
    var begun, open, t := Begins(d.log), Unfinished(d.log), Overlay(d.tables);
    var i := BatchIsOpen(begun, open, m.batch, m.flush.ended, m.pending);
    EndLog(d.log, begun, open, i);
    OverlayTop(d.tables, m.flush.name);
    RecoversEnd(t, begun, open, m.batch, m.flush.ended, m.pending, i);
    OrderedRemove(open, m.batch, i);
    DisjointRemove(open, m.pending, i);
  }

  lemma StepFinishFlush(s: State)
    requires Base(s) && Order(s) && Enabled(s, FinishFlush)
    ensures Order(Do(s, FinishFlush))
  {
    hide Recovers, Begins, Unfinished, Overlay, Accounted, Replay, NotOlder, Distinct, PendingDisjoint, Applied;
    var d, m := s.disk, s.memory.value;
    OverlayTop(d.tables, m.flush.name);
    ReplayNone();
    assert Overlay(d.tables) + map[] == Overlay(d.tables);
  }

  lemma StepRecover(s: State)
    requires Base(s) && Order(s) && s.memory.None?
    ensures Order(Do(s, Recover))
  {
    hide Begins, Unfinished, Overlay, Replay, Touches, Applied;
    var begun, open := Begins(s.disk.log), Unfinished(s.disk.log);
    AppliedNone(begun);
    OrderedSelf(open);
  }

  lemma OrderedSelf(open: seq<Transaction>)
    requires Distinct(open)
    ensures Ordered(open, open)
  {
    hide Touches;
    forall i, j, p | 0 <= i < j < |open| && 0 <= p < |open| && open[j] == open[p]
      ensures open[i] in open[..p]
    {
      assert j == p;
      assert open[..p][i] == open[i];
    }
  }

  lemma StepRest(s: State, a: Action)
    requires Order(s) && Enabled(s, a)
    requires a in {AddFilter, ClearMemtable, WriteBloomFile, Crash}
    ensures Order(Do(s, a))
  {
    hide OrderOk, Recovers, Begins, Unfinished, Overlay;
  }

  lemma OrderStep(s: State, a: Action)
    requires Base(s) && Order(s) && Enabled(s, a)
    requires a.Begin? ==> s.memory.Some? && forall t :: t in s.memory.value.pending ==> Touches(t) !! Touches(a.tx)
    ensures Order(Do(s, a))
  {
    hide Base, Order, Do, Enabled, Touches;
    match a
    case Begin(tx) => StepBegin(s, tx);
    case Apply(tx) => StepApply(s, tx);
    case WriteTable(millis) => StepWriteTable(s, millis);
    case AppendEnd => StepAppendEnd(s);
    case FinishFlush => StepFinishFlush(s);
    case Recover => EnabledRecover(s); StepRecover(s);
    case _ => StepRest(s, a);
  }

  lemma OrderInitially()
    ensures Order(INITIAL)
  {
    ReplayNone();
    assert Stack(map[], []) == [];
    assert SortedKeys({}) == [];
  }

  lemma {:induction false} OrderAlways(s: State, run: seq<Action>)
    requires Base(s) && Order(s) && Legal(s, run) && Disciplined(s, run)
    ensures Order(Final(s, run)) && Base(Final(s, run))
    decreases |run|
  {
    hide Base, Order, Do, Touches;
    if run != [] {
      BaseStep(s, run[0]);
      OrderStep(s, run[0]);
      OrderAlways(Do(s, run[0]), run[1..]);
    }
  }

  // ---------------------------------------------------------------- main results

  /** Whether a flush has not begun, has written its table, or is among its end marks: the live table has the batch on
      top. */
  lemma BatchIsLive(s: State)
    requires Base(s) && s.memory.Some?
    ensures LiveTable(s) == Overlay(s.disk.tables) + Replay(s.memory.value.batch)
  {
    hide Overlay, Replay, Unfinished, Begins, OriginOk, NothingLost, NotOlder, LogOk, Accounted;
    var m := s.memory.value;
    if !m.flush.Idle? { OverlayTop(s.disk.tables, m.flush.name); }
  }

  /** In every disciplined run, readers see the effect of exactly the applied transactions, in the order in which the
      run logged them, also between any two steps of a flush. */
  lemma LiveIsLogOrder(run: seq<Action>)
    requires Legal(INITIAL, run) && Disciplined(INITIAL, run)
    requires Final(INITIAL, run).memory.Some?
    ensures var s := Final(INITIAL, run);
            Visible(LiveTable(s)) == ApplyTxs(map[], Applied(Begun(run), s.memory.value.pending))
  {
    hide Do, Enabled, Begins, Unfinished, Replay, Applied, Visible, Overlay, Base, Ordered, PendingDisjoint, Begun;
    BaseInitially();
    OrderInitially();
    OrderAlways(INITIAL, run);
    LogOfRun(run);
    BatchIsLive(Final(INITIAL, run));
    VisibleReplay(Applied(Begun(run), Final(INITIAL, run).memory.value.pending));
  }

  /** Crash a disciplined run anywhere, even inside a flush, even again and again: after recovery readers
      see the effect of every transaction the run ever logged, in the order in which it logged them. */
  lemma CrashRecovery(run: seq<Action>)
    requires Legal(INITIAL, run) && Disciplined(INITIAL, run)
    ensures var s := Final(INITIAL, run);
            var down := if s.memory.Some? then Do(s, Crash) else s;
            var up := Do(down, Recover);
            && Readable(up)
            && Visible(LiveTable(up)) == ApplyTxs(map[], Begun(run))
  {
    hide Begins, Unfinished, Replay, Visible, Overlay, OrderOk, KeySets, Base, Legal, Final, Disciplined, Begun;
    BaseInitially();
    OrderInitially();
    OrderAlways(INITIAL, run);
    LogOfRun(run);
    VisibleReplay(Begun(run));
  }
}
