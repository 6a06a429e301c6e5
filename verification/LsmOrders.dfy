/** Every interleaving, disciplined or not: readers see the apply order, recovery the log order, and a condition
    says when the two show the same map. */
module LsmOrders {
  import opened Bytes
  import opened Store
  import opened Tables
  import opened CommitLog
  import opened FileNames
  import opened Lsm
  import opened LsmReplay
  import opened LsmInvariant
  import opened LsmRecovery
  import opened LsmReaders
  import opened LsmTheorems

  // ---------------------------------------------------------------- between recoveries: apply order

  predicate KeepsRunning(run: seq<Action>) {
    forall i :: 0 <= i < |run| ==> !run[i].Crash? && !run[i].Recover?
  }

  /** The transactions a run applies, in the order in which it applies them. */
  function Applies(run: seq<Action>): seq<Transaction> {
    if run == [] then []
    else Applies(run[..|run| - 1]) + (if run[|run| - 1].Apply? then [run[|run| - 1].tx] else [])
  }

  /** No step but an apply changes what lies on top; an apply overlays its transaction. */
  lemma LiveStep(s: State, a: Action)
    requires Base(s) && s.memory.Some? && Enabled(s, a) && !a.Crash?
    ensures Do(s, a).memory.Some?
    ensures LiveTable(Do(s, a)) == if a.Apply? then LiveTable(s) + Effects(a.tx.operations) else LiveTable(s)
  {
    hide Overlay, Replay, Effects, SstName, NotOlder, LogOk, Accounted, OriginOk, NothingLost, Begins, Unfinished;
    var d, m := s.disk, s.memory.value;
    match a
    case WriteTable(millis) =>
      if m.memtable != map[] && SstName(millis) !in d.tables { OverlayAdd(d.tables, SstName(millis), m.memtable); }
    case ClearMemtable =>
      OverlayTop(d.tables, m.flush.name);
    case _ =>
  }

  lemma {:induction false} LiveRun(s: State, run: seq<Action>)
    requires Base(s) && s.memory.Some? && Legal(s, run) && KeepsRunning(run)
    ensures Final(s, run).memory.Some?
    ensures LiveTable(Final(s, run)) == LiveTable(s) + Replay(Applies(run))
    decreases |run|
  {
    hide Base, Do, Enabled, Replay, LiveTable, Applies, Effects;
    if run == [] {
      AppliesNone();
      ReplayNone();
    } else {
      var a, rest := run[0], run[1..];
      assert run == [a] + rest;
      BaseStep(s, a);
      LiveStep(s, a);
      LiveRun(Do(s, a), rest);
      AppliesFirst(a, rest);
      ReplayFirst(a, Applies(rest));
    }
  }

  lemma AppliesNone()
    ensures Applies([]) == []
  {
  }

  lemma {:induction false} AppliesFirst(a: Action, rest: seq<Action>)
    ensures Applies([a] + rest) == (if a.Apply? then [a.tx] else []) + Applies(rest)
  {
    var run, n := [a] + rest, |rest|;
    if rest == [] {
      assert run == [a] && [a][..0] == [];
    } else {
      assert run[..n] == [a] + rest[..n - 1] && run[n] == rest[n - 1];
      AppliesFirst(a, rest[..n - 1]);
    }
  }

  lemma ReplayFirst(a: Action, txs: seq<Transaction>)
    ensures Replay((if a.Apply? then [a.tx] else []) + txs)
         == if a.Apply? then Effects(a.tx.operations) + Replay(txs) else Replay(txs)
  {
    hide Replay, Effects;
    if a.Apply? {
      ReplayAppend([a.tx], txs);
      ReplaySingle(a.tx);
    } else {
      assert [] + txs == txs;
    }
  }

  lemma {:induction false} VisibleOnto(t: Table, txs: seq<Transaction>)
    ensures Visible(t + Replay(txs)) == ApplyTxs(Visible(t), txs)
  {
    hide Visible, Replay, Effects, ApplyOps;
    if txs == [] {
      ReplayNone();
      assert t + map[] == t;
    } else {
      var n := |txs| - 1;
      assert txs == txs[..n] + [txs[n]];
      ReplayPush(txs[..n], txs[n]);
      assert t + Replay(txs) == t + Replay(txs[..n]) + Effects(txs[n].operations);
      VisibleApply(t + Replay(txs[..n]), txs[n].operations);
      VisibleOnto(t, txs[..n]);
    }
  }

  /** Whatever overlaps and whenever tables are written: from any reachable state to the next crash, readers
      see the plain map on which the transactions were run in the order they were applied. */
  lemma LiveIsApplyOrder(before: seq<Action>, run: seq<Action>)
    requires Legal(INITIAL, before) && Final(INITIAL, before).memory.Some?
    requires Legal(Final(INITIAL, before), run) && KeepsRunning(run)
    ensures var s := Final(INITIAL, before);
            var s' := Final(s, run);
            && s'.memory.Some?
            && Visible(LiveTable(s')) == ApplyTxs(Visible(LiveTable(s)), Applies(run))
  {
    hide Base, Do, Enabled, Legal, Final, Visible, LiveTable, Applies, KeepsRunning;
    BaseInitially();
    BaseAlways(INITIAL, before);
    LiveRun(Final(INITIAL, before), run);
    VisibleOnto(LiveTable(Final(INITIAL, before)), Applies(run));
  }

  /** So a scan returns what `MemoryStore` would after those transactions, and cannot tell when tables were
      written. */
  lemma ScanIsApplyOrderScan(before: seq<Action>, run: seq<Action>, from: Key, to: Key)
    requires Legal(INITIAL, before) && Final(INITIAL, before).memory.Some?
    requires Legal(Final(INITIAL, before), run) && KeepsRunning(run)
    requires Final(Final(INITIAL, before), run).memory.Some?
    ensures var s := Final(INITIAL, before);
            Scan(Final(s, run), from, to)
            == ScanValues(ApplyTxs(Visible(LiveTable(s)), Applies(run)), from, to)
  {
    hide Do, Enabled, Legal, Final, Visible, LiveTable, Applies, KeepsRunning, ScanValues, DataValues;
    LiveIsApplyOrder(before, run);
    ScanRefinesPlainScan(LiveTable(Final(Final(INITIAL, before), run)), from, to);
  }

  /** And a lookup returns what `MemoryStore` would after those transactions, except exactly when a memtable tombstone
      hides data in the newest indexed table with that key. */
  lemma GetIsApplyOrderGet(before: seq<Action>, run: seq<Action>, noise: (Name, Key) -> bool, k: Key)
    requires Legal(INITIAL, before) && Final(INITIAL, before).memory.Some?
    requires Legal(Final(INITIAL, before), run) && KeepsRunning(run)
    requires Readable(Final(Final(INITIAL, before), run))
    ensures var s := Final(INITIAL, before);
            var s', plain := Final(s, run), ApplyTxs(Visible(LiveTable(s)), Applies(run));
            && s'.memory.value.filters.Keys <= s'.disk.tables.Keys
            && (Get(s', noise, k) == Lookup(plain, k) <==> !exists n :: IsResurrectedFrom(s', k, n))
            && (forall n :: IsResurrectedFrom(s', k, n) ==>
                  Get(s', noise, k) == Some(s'.disk.tables[n][k].bytes) && k !in plain)
  {
    hide Do, Enabled, Legal, Final, Visible, LiveTable, Applies, KeepsRunning, Get, IsNewestWith;
    LiveIsApplyOrder(before, run);
    LegalAppend(INITIAL, before, run);
    GetInEveryRun(before + run, noise, k);
  }

  // ---------------------------------------------------------------- across a recovery: log order

  /** The `i`-th transaction is the last of the sequence to write the key. */
  ghost predicate IsLastWriter(txs: seq<Transaction>, i: int, k: Key) {
    0 <= i < |txs| && k in Touches(txs[i]) && forall j :: i < j < |txs| ==> k !in Touches(txs[j])
  }

  /** For every key, the last writers of the two orders write the same entry. */
  ghost predicate OrdersAgree(a: seq<Transaction>, b: seq<Transaction>) {
    forall k, i, j | IsLastWriter(a, i, k) && IsLastWriter(b, j, k) ::
      Effects(a[i].operations)[k] == Effects(b[j].operations)[k]
  }

  lemma LastWriterDecides(txs: seq<Transaction>, i: int, k: Key)
    requires IsLastWriter(txs, i, k)
    ensures k in Replay(txs) && Replay(txs)[k] == Effects(txs[i].operations)[k]
  {
    hide Replay, Effects;
    ReplaySplit(txs, i);
    ReplayKeys(txs[i + 1..], k);
  }

  lemma {:induction false} LastWriterExists(txs: seq<Transaction>, k: Key) returns (i: int)
    requires exists j :: 0 <= j < |txs| && k in Touches(txs[j])
    ensures IsLastWriter(txs, i, k)
    decreases |txs|
  {
    hide Touches;
    i := |txs| - 1;
    if k !in Touches(txs[i]) {
      var j :| 0 <= j < |txs| && k in Touches(txs[j]);
      assert k in Touches(txs[..i][j]);
      var n := i;
      i := LastWriterExists(txs[..n], k);
      assert forall j :: i < j < n ==> txs[..n][j] == txs[j];
    }
  }

  predicate MembersOf(b: seq<Transaction>, a: seq<Transaction>) {
    forall t :: t in b ==> t in a
  }

  lemma WriterElsewhere(a: seq<Transaction>, b: seq<Transaction>, k: Key)
    requires MembersOf(b, a) && k in Replay(b)
    ensures k in Replay(a) && exists i :: 0 <= i < |a| && k in Touches(a[i])
  {
    hide Replay, Touches;
    ReplayKeys(b, k);
    ReplayKeys(a, k);
    var j :| 0 <= j < |b| && k in Touches(b[j]);
    assert b[j] in a;
    var i :| 0 <= i < |a| && a[i] == b[j];
    assert k in Touches(a[i]);
  }

  /** Replaying some of the transactions again, in another order, changes nothing if and only if the last writers
      of the two orders agree. */
  lemma ReplayAgainIff(a: seq<Transaction>, b: seq<Transaction>)
    requires MembersOf(b, a)
    ensures Replay(a) + Replay(b) == Replay(a) <==> OrdersAgree(a, b)
    ensures (Replay(a) + Replay(b)).Keys == Replay(a).Keys
  {
    hide Replay, Effects, MembersOf;
    forall k | k in Replay(b) ensures k in Replay(a) { WriterElsewhere(a, b, k); }
    if Replay(a) + Replay(b) == Replay(a) {
      forall k, i, j | IsLastWriter(a, i, k) && IsLastWriter(b, j, k)
        ensures Effects(a[i].operations)[k] == Effects(b[j].operations)[k]
      {
        LastWriterDecides(a, i, k);
        LastWriterDecides(b, j, k);
        assert (Replay(a) + Replay(b))[k] == Replay(b)[k];
      }
    }
    if OrdersAgree(a, b) {
      forall k | k in Replay(b) ensures Replay(a)[k] == Replay(b)[k] { AgreeAt(a, b, k); }
    }
  }

  lemma AgreeAt(a: seq<Transaction>, b: seq<Transaction>, k: Key)
    requires MembersOf(b, a) && OrdersAgree(a, b) && k in Replay(b)
    ensures k in Replay(a) && Replay(a)[k] == Replay(b)[k]
  {
    hide Replay, Effects, IsLastWriter, MembersOf, Touches;
    ReplayKeys(b, k);
    WriterElsewhere(a, b, k);
    var i := LastWriterExists(a, k);
    var j := LastWriterExists(b, k);
    LastWriterDecides(a, i, k);
    LastWriterDecides(b, j, k);
  }

  /** Two orders of the same transactions replay alike if and only if their last writers agree. */
  lemma ReplaysAgreeIff(a: seq<Transaction>, b: seq<Transaction>)
    requires MembersOf(a, b) && MembersOf(b, a)
    ensures Replay(a) == Replay(b) <==> OrdersAgree(a, b)
  {
    hide Replay, OrdersAgree, MembersOf;
    ReplayAgainIff(a, b);
    forall k | k in Replay(a) ensures k in Replay(b) { WriterElsewhere(b, a, k); }
    assert Replay(a) + Replay(b) == Replay(b);
  }

  /** Over the same tables, entries on the same keys show the same map only if they are the same. */
  lemma OverlaysAgree(t: Table, a: Table, b: Table)
    requires a.Keys == b.Keys
    ensures t + a == t + b <==> a == b
    ensures Visible(t + a) == Visible(t + b) <==> a == b
  {
    if t + a == t + b {
      forall k | k in a ensures a[k] == b[k] { assert (t + a)[k] == a[k] && (t + b)[k] == b[k]; }
    }
    if Visible(t + a) == Visible(t + b) {
      forall k | k in a ensures a[k] == b[k] { SameShownSameEntry(t, a, b, k); }
    }
  }

  lemma SameShownSameEntry(t: Table, a: Table, b: Table, k: Key)
    requires k in a && k in b && Visible(t + a) == Visible(t + b)
    ensures a[k] == b[k]
  {
    assert (t + a)[k] == a[k] && (t + b)[k] == b[k];
    assert k in Visible(t + a) <==> a[k].Data?;
    assert k in Visible(t + b) <==> b[k].Data?;
  }

  /** Over any tables: the same for what readers are shown. */
  lemma AgainOnTopIff(t: Table, batch: seq<Transaction>, open: seq<Transaction>)
    requires MembersOf(open, batch)
    ensures t + Replay(batch) + Replay(open) == t + Replay(batch) <==> OrdersAgree(batch, open)
    ensures Visible(t + Replay(batch) + Replay(open)) == Visible(t + Replay(batch)) <==> OrdersAgree(batch, open)
  {
    hide Replay, OrdersAgree, MembersOf, Visible;
    ReplayAgainIff(batch, open);
    OverlaysAgree(t, Replay(batch) + Replay(open), Replay(batch));
    assert t + (Replay(batch) + Replay(open)) == t + Replay(batch) + Replay(open);
  }

  /** A sequence that lists the transactions in flight. */
  ghost predicate Lists(p: seq<Transaction>, pending: set<Transaction>) {
    forall t :: t in p <==> t in pending
  }

  /** After recovery what is unfinished lies over the batch and over whatever was in flight. */
  lemma BatchOnTop(s: State, p: seq<Transaction>)
    requires Base(s) && s.memory.Some? && Lists(p, s.memory.value.pending)
    ensures var t, batch, open := Overlay(s.disk.tables), s.memory.value.batch, Unfinished(s.disk.log);
            && MembersOf(open, batch + p)
            && t + Replay(open) == t + Replay(batch + p) + Replay(open)
  {
    hide Overlay, Replay, Unfinished, Begins, OriginOk, NothingLost, NotOlder, LogOk;
    var m, t, open := s.memory.value, Overlay(s.disk.tables), Unfinished(s.disk.log);
    if m.flush.Idle? {
      ReplayAbsorbs(t, m.batch + p, open);
    } else {
      OverlayTop(s.disk.tables, m.flush.name);
      ReplayAppend(m.batch, p);
      ReplayAbsorbs(t, p, open);
      assert t + (Replay(m.batch) + Replay(p)) == t + Replay(m.batch) + Replay(p);
    }
  }

  /** In every run, disciplined or not, whatever is in flight, a crash after any step, also between any two steps of a
      flush: recovery shows readers the map they would have seen had the transactions in flight been applied next, in
      the order `p`, if and only if, for every key, the last writer of the batch and `p` and the last writer of what
      is still unfinished in log order write the same entry. */
  lemma RecoveryFinishesIff(run: seq<Action>, p: seq<Transaction>)
    requires Legal(INITIAL, run) && Final(INITIAL, run).memory.Some?
    requires Lists(p, Final(INITIAL, run).memory.value.pending)
    ensures var s := Final(INITIAL, run);
            var agree := OrdersAgree(s.memory.value.batch + p, Unfinished(s.disk.log));
            var up := Do(Do(s, Crash), Recover);
            && (LiveTable(up) == LiveTable(s) + Replay(p) <==> agree)
            && (Visible(LiveTable(up)) == ApplyTxs(Visible(LiveTable(s)), p) <==> agree)
  {
    hide Legal, Final, Overlay, Visible, Replay, Unfinished, OrdersAgree, MembersOf, Base, Lists;
    BaseInitially();
    BaseAlways(INITIAL, run);
    var s := Final(INITIAL, run);
    var t, batch := Overlay(s.disk.tables), s.memory.value.batch;
    BatchIsLive(s);
    BatchOnTop(s, p);
    AgainOnTopIff(t, batch + p, Unfinished(s.disk.log));
    ReplayAppend(batch, p);
    assert t + (Replay(batch) + Replay(p)) == t + Replay(batch) + Replay(p);
    VisibleOnto(LiveTable(s), p);
  }

  /** With nothing in flight: recovery shows readers the map they saw before if and only if, for every key, the last
      writer of the batch in apply order and the last writer of what is unfinished write the same entry. */
  lemma RecoveryIsHarmlessIff(run: seq<Action>)
    requires Legal(INITIAL, run) && Final(INITIAL, run).memory.Some?
    requires Final(INITIAL, run).memory.value.pending == {}
    ensures var s := Final(INITIAL, run);
            var agree := OrdersAgree(s.memory.value.batch, Unfinished(s.disk.log));
            var up := Do(Do(s, Crash), Recover);
            && (LiveTable(up) == LiveTable(s) <==> agree)
            && (Visible(LiveTable(up)) == Visible(LiveTable(s)) <==> agree)
  {
    hide Legal, Final, Visible, Unfinished, OrdersAgree, LiveTable;
    RecoveryFinishesIff(run, []);
    var s := Final(INITIAL, run);
    assert s.memory.value.batch + [] == s.memory.value.batch;
    ReplayNone();
    assert LiveTable(s) + map[] == LiveTable(s);
  }

  // ---------------------------------------------------------------- two transactions

  function Overlapping(t1: Transaction, t2: Transaction): seq<Action> {
    [Recover, Begin(t1), Begin(t2), Apply(t2), Apply(t1)]
  }

  function BothLogged(t1: Transaction, t2: Transaction): State {
    State(Disk([BeginTx(t1), BeginTx(t2)], map[], None, 2, 2),
          Some(Memory(map[], [], map[], {t1, t2}, Idle)), {}, map[])
  }

  lemma LogBoth(t1: Transaction, t2: Transaction)
    requires t1.id != t2.id
    ensures Legal(INITIAL, [Recover, Begin(t1), Begin(t2)])
    ensures Final(INITIAL, [Recover, Begin(t1), Begin(t2)]) == BothLogged(t1, t2)
  {
    hide Effects, Replay;
    ReplayNone();
    UnfinishedNothing();
    var s1 := Do(INITIAL, Recover);
    var s2 := Do(s1, Begin(t1));
    assert s2.disk.log == [BeginTx(t1)];
    assert FreshId(s2.disk.log, t2.id);
    var s3 := Do(s2, Begin(t2));
    assert KeySets(map[]) == map[];
    assert s3.disk.log == [BeginTx(t1), BeginTx(t2)] && s3.memory.value.pending == {t1, t2};
    assert s3 == BothLogged(t1, t2);
    LegalPair(s2, Begin(t2), []);
    LegalPair(s1, Begin(t1), [Begin(t2)]);
    LegalPair(INITIAL, Recover, [Begin(t1), Begin(t2)]);
  }

  lemma ApplyBoth(t1: Transaction, t2: Transaction)
    requires t1.id != t2.id
    ensures Legal(BothLogged(t1, t2), [Apply(t2), Apply(t1)])
    ensures var s := Final(BothLogged(t1, t2), [Apply(t2), Apply(t1)]);
            && s.disk.tables == map[]
            && s.disk.log == [BeginTx(t1), BeginTx(t2)]
            && s.memory == Some(Memory(Effects(t2.operations) + Effects(t1.operations), [t2, t1], map[], {}, Idle))
  {
    hide Effects;
    var s3 := BothLogged(t1, t2);
    var s4 := Do(s3, Apply(t2));
    assert s4.memory.value.memtable == Effects(t2.operations);
    var s5 := Do(s4, Apply(t1));
    assert s5.memory.value.pending == {} && s5.memory.value.batch == [t2, t1];
    LegalPair(s4, Apply(t1), []);
    LegalPair(s3, Apply(t2), [Apply(t1)]);
  }

  lemma OverlapStates(t1: Transaction, t2: Transaction)
    requires t1.id != t2.id
    ensures Legal(INITIAL, Overlapping(t1, t2))
    ensures var s := Final(INITIAL, Overlapping(t1, t2));
            && s.disk.tables == map[]
            && s.disk.log == [BeginTx(t1), BeginTx(t2)]
            && s.memory == Some(Memory(Effects(t2.operations) + Effects(t1.operations), [t2, t1], map[], {}, Idle))
  {
    hide Effects, Legal, Final, BothLogged;
    LogBoth(t1, t2);
    ApplyBoth(t1, t2);
    LegalAppend(INITIAL, [Recover, Begin(t1), Begin(t2)], [Apply(t2), Apply(t1)]);
    assert [Recover, Begin(t1), Begin(t2)] + [Apply(t2), Apply(t1)] == Overlapping(t1, t2);
  }

  /** Why the discipline is needed. Two transactions logged in one order and applied in the other: a crash
      and recovery show readers the same map if and only if the two agree on every key they share. */
  lemma OverlapIsHarmlessIffValuesAgree(t1: Transaction, t2: Transaction)
    requires t1.id != t2.id
    ensures Legal(INITIAL, Overlapping(t1, t2))
    ensures var s := Final(INITIAL, Overlapping(t1, t2));
            && s.memory.Some?
            && (Visible(LiveTable(Do(Do(s, Crash), Recover))) == Visible(LiveTable(s)) <==>
                forall k :: k in Effects(t1.operations) && k in Effects(t2.operations) ==>
                  Effects(t1.operations)[k] == Effects(t2.operations)[k])
  {
    hide Effects, Replay, Legal, Final, LiveTable, Visible, OrdersAgree, Unfinished;
    OverlapStates(t1, t2);
    UnfinishedPair(t1, t2);
    RecoveryIsHarmlessIff(Overlapping(t1, t2));
    PairAgrees(t1, t2);
  }

  lemma PairAgrees(t1: Transaction, t2: Transaction)
    ensures OrdersAgree([t2, t1], [t1, t2]) <==>
            forall k :: k in Effects(t1.operations) && k in Effects(t2.operations) ==>
              Effects(t1.operations)[k] == Effects(t2.operations)[k]
  {
    hide Effects;
    if OrdersAgree([t2, t1], [t1, t2]) {
      forall k | k in Effects(t1.operations) && k in Effects(t2.operations)
        ensures Effects(t1.operations)[k] == Effects(t2.operations)[k]
      {
        assert IsLastWriter([t2, t1], 1, k) && IsLastWriter([t1, t2], 1, k);
      }
    } else {
      var k, i, j :| IsLastWriter([t2, t1], i, k) && IsLastWriter([t1, t2], j, k)
                     && Effects([t2, t1][i].operations)[k] != Effects([t1, t2][j].operations)[k];
      PairWriter(t2, t1, i, k);
      PairWriter(t1, t2, j, k);
      assert k in Effects(t1.operations) && k in Effects(t2.operations);
    }
  }

  lemma PairWriter(a: Transaction, b: Transaction, i: int, k: Key)
    requires IsLastWriter([a, b], i, k)
    ensures if k in Touches(b) then [a, b][i] == b else [a, b][i] == a && k in Touches(a)
  {
    assert k in Touches(b) ==> k in Touches([a, b][1]);
  }

  lemma UnfinishedPair(t1: Transaction, t2: Transaction)
    requires t1.id != t2.id
    ensures Unfinished([BeginTx(t1), BeginTx(t2)]) == [t1, t2]
  {
    hide Unfinished;
    assert [] + [BeginTx(t1)] == [BeginTx(t1)];
    assert [BeginTx(t1)] + [BeginTx(t2)] == [BeginTx(t1), BeginTx(t2)];
    UnfinishedAppend([], BeginTx(t1));
    UnfinishedNothing();
    UnfinishedAppend([BeginTx(t1)], BeginTx(t2));
    WithoutNone([], t1.id);
    WithoutNone([t1], t2.id);
  }
}
