/** What every step keeps, whatever the interleaving: the accounts of the batch, the log and the tables. */
module LsmInvariant {
  import opened Bytes
  import opened Store
  import opened Tables
  import opened CommitLog
  import opened FileNames
  import opened Lsm
  import opened LsmReplay

  ghost predicate LogOk(begun: seq<Transaction>, open: seq<Transaction>) {
    Distinct(begun) && Distinct(open) && forall t :: t in open ==> t in begun
  }

  /** Unfinished means: pending, or in the batch and not ended yet. Only batch members are ever ended. */
  ghost predicate Accounted(begun: seq<Transaction>, open: seq<Transaction>,
                            batch: seq<Transaction>, ended: nat, pending: set<Transaction>) {
    && ended <= |batch|
    && (forall i, j :: 0 <= i < j < |batch| ==> batch[i] != batch[j])
    && (forall t :: t in batch ==> t in begun)
    && (forall t :: t in pending ==> t in open && t !in batch)
    && (forall i :: ended <= i < |batch| ==> batch[i] in open)
    && (forall i :: 0 <= i < ended ==> batch[i] !in open)
    && (forall t :: t in open ==> t in pending || t in batch)
  }

  function Ended(m: Memory): nat {
    if m.flush.Ending? then m.flush.ended else 0
  }

  ghost predicate MemtableOk(m: Memory) {
    m.memtable == if m.flush.Ending? then map[] else Replay(m.batch)
  }

  /** From the write of its table to its end, a flush has its batch in the youngest table. */
  ghost predicate FlushOk(tables: map<Name, Table>, origin: map<Name, seq<Transaction>>, m: Memory) {
    !m.flush.Idle? ==>
      && m.flush.name in tables && tables[m.flush.name] == Replay(m.batch)
      && m.flush.name in origin && origin[m.flush.name] == m.batch
      && NotOlder(tables, m.flush.name)
  }

  ghost predicate Stored(origin: map<Name, seq<Transaction>>, t: Transaction) {
    exists n :: n in origin && t in origin[n]
  }

  ghost predicate OriginOk(tables: map<Name, Table>, origin: map<Name, seq<Transaction>>) {
    origin.Keys == tables.Keys && forall n :: n in tables ==> tables[n] == Replay(origin[n])
  }

  /** Every transaction ever logged is unfinished or stored. */
  ghost predicate NothingLost(begun: seq<Transaction>, open: seq<Transaction>, origin: map<Name, seq<Transaction>>) {
    forall t :: t in begun ==> t in open || Stored(origin, t)
  }

  ghost predicate MemoryOk(s: State)
    requires s.memory.Some?
  {
    var m := s.memory.value;
    && Accounted(Begins(s.disk.log), Unfinished(s.disk.log), m.batch, Ended(m), m.pending)
    && MemtableOk(m)
    && FlushOk(s.disk.tables, s.origin, m)
  }

  ghost predicate Base(s: State) {
    var begun, open := Begins(s.disk.log), Unfinished(s.disk.log);
    && LogOk(begun, open)
    && OriginOk(s.disk.tables, s.origin)
    && NothingLost(begun, open, s.origin)
    && (forall t :: t in s.acked ==> t in begun)
    && (s.memory.Some? ==> MemoryOk(s))
  }

  // ---------------------------------------------------------------- the log grows

  lemma LogOkBegin(begun: seq<Transaction>, open: seq<Transaction>, tx: Transaction)
    requires LogOk(begun, open) && forall t :: t in begun ==> t.id != tx.id
    ensures LogOk(begun + [tx], open + [tx])
  {
    assert forall i :: 0 <= i < |open| ==> open[i] in open && open[i] in begun;
    assert forall i :: 0 <= i < |begun| ==> begun[i] in begun;
  }

  lemma AccountedBegin(begun: seq<Transaction>, open: seq<Transaction>, batch: seq<Transaction>,
                       ended: nat, pending: set<Transaction>, tx: Transaction)
    requires Accounted(begun, open, batch, ended, pending) && tx !in begun
    ensures Accounted(begun + [tx], open + [tx], batch, ended, pending + {tx})
  {
  }

  lemma LogOkEnd(begun: seq<Transaction>, open: seq<Transaction>, i: nat)
    requires LogOk(begun, open) && i < |open|
    ensures LogOk(begun, open[..i] + open[i + 1..])
  {
  }

  lemma AccountedEnd(begun: seq<Transaction>, open: seq<Transaction>, batch: seq<Transaction>,
                     ended: nat, pending: set<Transaction>, i: nat)
    requires Accounted(begun, open, batch, ended, pending) && LogOk(begun, open)
    requires ended < |batch| && i < |open| && open[i] == batch[ended]
    ensures Accounted(begun, open[..i] + open[i + 1..], batch, ended + 1, pending)
  {
    var open' := open[..i] + open[i + 1..];
    RemoveMembers(open, i);
    assert batch[ended] in batch;
    assert forall t :: t in open' <==> t in open && t != batch[ended];
  }

  lemma RemoveMembers(open: seq<Transaction>, i: nat)
    requires Distinct(open) && i < |open|
    ensures forall t :: t in open[..i] + open[i + 1..] <==> t in open && t != open[i]
  {
    forall t | t in open && t != open[i] ensures t in open[..i] + open[i + 1..] {
      var j :| 0 <= j < |open| && open[j] == t;
      if j < i { assert open[..i][j] == t; } else { assert open[i + 1..][j - i - 1] == t; }
    }
  }

  // ---------------------------------------------------------------- steps that write the log

  lemma BaseBegin(s: State, tx: Transaction)
    requires Base(s) && Enabled(s, Begin(tx))
    ensures Base(Do(s, Begin(tx)))
  {
    hide Accounted, Replay, NotOlder, OriginOk, Stored, LogOk, Begins, Unfinished, Without;
    var log, m := s.disk.log, s.memory.value;
    var begun, open := Begins(log), Unfinished(log);
    FreshIsNew(log, tx);
    BeginLog(log, tx, begun, open);
    LogOkBegin(begun, open, tx);
    AccountedBegin(begun, open, m.batch, Ended(m), m.pending, tx);
  }

  lemma BeginLog(log: seq<Line>, tx: Transaction, begun: seq<Transaction>, open: seq<Transaction>)
    requires begun == Begins(log) && open == Unfinished(log) && LogOk(begun, open)
    requires forall t :: t in begun ==> t.id != tx.id
    ensures Begins(log + [BeginTx(tx)]) == begun + [tx]
    ensures Unfinished(log + [BeginTx(tx)]) == open + [tx]
  {
    hide Begins, Unfinished;
    BeginsAppend(log, BeginTx(tx));
    UnfinishedAppend(log, BeginTx(tx));
    assert forall i :: 0 <= i < |open| ==> open[i] in open;
    WithoutNone(open, tx.id);
  }

  lemma EndLog(log: seq<Line>, begun: seq<Transaction>, open: seq<Transaction>, i: nat)
    requires begun == Begins(log) && open == Unfinished(log) && LogOk(begun, open) && i < |open|
    ensures Begins(log + [EndTx(open[i].id)]) == begun
    ensures Unfinished(log + [EndTx(open[i].id)]) == open[..i] + open[i + 1..]
  {
    hide Begins, Unfinished;
    BeginsAppend(log, EndTx(open[i].id));
    UnfinishedAppend(log, EndTx(open[i].id));
    WithoutOne(open, i);
  }

  lemma BaseAppendEnd(s: State)
    requires Base(s) && Enabled(s, AppendEnd)
    ensures Base(Do(s, AppendEnd))
  {
    hide MemtableOk, FlushOk, OriginOk, Stored, LogOk, Begins, Unfinished, Accounted;
    var log, m := s.disk.log, s.memory.value;
    var begun, open := Begins(log), Unfinished(log);
    var i := BatchIsOpen(begun, open, m.batch, m.flush.ended, m.pending);
    EndLog(log, begun, open, i);
    LogOkEnd(begun, open, i);
    AccountedEnd(begun, open, m.batch, m.flush.ended, m.pending, i);
    EndedIsStored(s, m.batch[m.flush.ended]);
    LostNothingByEnd(begun, open, s.origin, i);
    FlushOkSame(s, m);
  }

  lemma BatchIsOpen(begun: seq<Transaction>, open: seq<Transaction>, batch: seq<Transaction>,
                    ended: nat, pending: set<Transaction>) returns (i: nat)
    requires Accounted(begun, open, batch, ended, pending) && ended < |batch|
    ensures i < |open| && open[i] == batch[ended]
  {
    assert batch[ended] in open;
    i :| 0 <= i < |open| && open[i] == batch[ended];
  }

  lemma EndedIsStored(s: State, t: Transaction)
    requires s.memory.Some? && FlushOk(s.disk.tables, s.origin, s.memory.value)
    requires !s.memory.value.flush.Idle? && t in s.memory.value.batch
    ensures Stored(s.origin, t)
  {
  }

  lemma LostNothingByEnd(begun: seq<Transaction>, open: seq<Transaction>, origin: map<Name, seq<Transaction>>, i: nat)
    requires NothingLost(begun, open, origin) && LogOk(begun, open) && i < |open| && Stored(origin, open[i])
    ensures NothingLost(begun, open[..i] + open[i + 1..], origin)
  {
    hide Stored;
    RemoveMembers(open, i);
  }

  lemma FlushOkSame(s: State, m: Memory)
    requires FlushOk(s.disk.tables, s.origin, m) && MemtableOk(m) && m.flush.Ending?
    ensures var m' := m.(flush := Ending(m.flush.name, m.flush.ended + 1));
            FlushOk(s.disk.tables, s.origin, m') && MemtableOk(m')
  {
    hide Replay;
  }

  // ---------------------------------------------------------------- steps that do not

  lemma BaseApply(s: State, tx: Transaction)
    requires Base(s) && Enabled(s, Apply(tx))
    ensures Base(Do(s, Apply(tx)))
  {
    hide OriginOk, Stored, LogOk, Begins, Unfinished, Replay, Effects, NothingLost;
    var m := s.memory.value;
    ReplayPush(m.batch, tx);
    var begun, open := Begins(s.disk.log), Unfinished(s.disk.log);
    OpenIsBegun(begun, open, tx);
    AccountedApply(begun, open, m.batch, m.pending, tx);
  }

  lemma OpenIsBegun(begun: seq<Transaction>, open: seq<Transaction>, tx: Transaction)
    requires LogOk(begun, open) && tx in open
    ensures tx in begun
  {
  }

  lemma AccountedApply(begun: seq<Transaction>, open: seq<Transaction>, batch: seq<Transaction>,
                       pending: set<Transaction>, tx: Transaction)
    requires Accounted(begun, open, batch, 0, pending) && tx in pending && tx in begun
    ensures Accounted(begun, open, batch + [tx], 0, pending - {tx})
  {
  }

  lemma BaseWriteTable(s: State, millis: nat)
    requires Base(s) && Enabled(s, WriteTable(millis))
    ensures Base(Do(s, WriteTable(millis)))
  {
    hide LogOk, Begins, Unfinished, Replay, Accounted, SstName, Less;
    var m := s.memory.value;
    var name := SstName(millis);
    if m.memtable != map[] && name !in s.disk.tables {
      var origin' := s.origin[name := m.batch];
      forall t | Stored(s.origin, t) ensures Stored(origin', t) {
        var n :| n in s.origin && t in s.origin[n];
        assert n in origin' && t in origin'[n];
      }
    }
  }

  lemma BaseRest(s: State, a: Action)
    requires Base(s) && Enabled(s, a)
    requires a in {AddFilter, ClearMemtable, FinishFlush, WriteBloomFile, Crash}
    ensures Base(Do(s, a))
  {
    hide OriginOk, Stored, LogOk, Begins, Unfinished, Replay, NothingLost;
    if a.FinishFlush? { ReplayNone(); }
  }

  lemma BaseRecover(s: State)
    requires Base(s) && s.memory.None?
    ensures Base(Do(s, Recover))
  {
    hide OriginOk, Stored, Begins, Unfinished, Replay, NothingLost;
    var open := Unfinished(s.disk.log);
    assert forall i :: 0 <= i < |open| ==> open[i] in open;
  }

  /** Every step keeps the accounts. */
  lemma BaseStep(s: State, a: Action)
    requires Base(s) && Enabled(s, a)
    ensures Base(Do(s, a))
  {
    hide Base, Do, Enabled;
    match a
    case Begin(tx) => BaseBegin(s, tx);
    case Apply(tx) => BaseApply(s, tx);
    case WriteTable(millis) => BaseWriteTable(s, millis);
    case AppendEnd => BaseAppendEnd(s);
    case Recover => EnabledRecover(s); BaseRecover(s);
    case _ => BaseRest(s, a);
  }

  lemma EnabledRecover(s: State)
    requires Enabled(s, Recover)
    ensures s.memory.None?
  {
  }

  lemma BaseInitially()
    ensures Base(INITIAL)
  {
  }

  lemma {:induction false} BaseAlways(s: State, run: seq<Action>)
    requires Base(s) && Legal(s, run)
    ensures Base(Final(s, run))
    decreases |run|
  {
    hide Base, Do, Enabled;
    if run != [] {
      BaseStep(s, run[0]);
      BaseAlways(Do(s, run[0]), run[1..]);
    }
  }
}
