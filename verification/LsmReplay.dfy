/** Facts about replaying transactions: which keys a replay writes, when transactions commute, and when
    replaying one again changes nothing. */
module LsmReplay {
  import Bytes
  import opened Store
  import opened Tables
  import opened CommitLog
  import opened Lsm

  // ---------------------------------------------------------------- replay, key by key

  /** A transaction touches the keys its operations name, set or deleted. */
  lemma TouchesExact(tx: Transaction, k: Key)
    ensures k in Touches(tx) <==> exists i :: 0 <= i < |tx.operations| && tx.operations[i].key == k
  {
    hide Effects;
    EffectsKeys(tx.operations, k);
  }

  lemma {:induction false} EffectsKeys(ops: seq<Operation>, k: Key)
    ensures k in Effects(ops) <==> exists i :: 0 <= i < |ops| && ops[i].key == k
  {
    if ops != [] {
      var n := |ops| - 1;
      EffectsKeys(ops[..n], k);
      if k in Effects(ops[..n]) {
        var i :| 0 <= i < n && ops[..n][i].key == k;
        assert ops[i].key == k;
      }
      if ops[n].key != k {
        forall i | 0 <= i < |ops| && ops[i].key == k ensures k in Effects(ops[..n]) {
          assert ops[..n][i].key == k;
        }
      }
    }
  }

  lemma {:induction false} ReplayKeys(txs: seq<Transaction>, k: Key)
    ensures k in Replay(txs) <==> exists i :: 0 <= i < |txs| && k in Touches(txs[i])
  {
    hide Effects, Replay;
    if txs == [] {
      ReplayNone();
    } else {
      var n := |txs| - 1;
      ReplayPush(txs[..n], txs[n]);
      assert txs == txs[..n] + [txs[n]];
      ReplayKeys(txs[..n], k);
      if k in Replay(txs[..n]) {
        var i :| 0 <= i < n && k in Touches(txs[..n][i]);
        assert k in Touches(txs[i]);
      }
    }
  }

  lemma ReplayNone()
    ensures Replay([]) == map[]
  {
    assert EffectsOf([]) == [];
  }

  lemma ReplayPush(txs: seq<Transaction>, tx: Transaction)
    ensures Replay(txs + [tx]) == Replay(txs) + Effects(tx.operations)
  {
    ReplayAppend(txs, [tx]);
    ReplaySingle(tx);
  }

  lemma ReplaySplit(txs: seq<Transaction>, i: nat)
    requires i < |txs|
    ensures Replay(txs) == Replay(txs[..i]) + Effects(txs[i].operations) + Replay(txs[i + 1..])
  {
    hide Replay, Effects;
    assert txs == (txs[..i] + [txs[i]]) + txs[i + 1..];
    ReplayAppend(txs[..i] + [txs[i]], txs[i + 1..]);
    ReplayPush(txs[..i], txs[i]);
  }

  /** Transactions that are all replayed again later leave no trace. */
  lemma ReplayAbsorbs(t: Table, batch: seq<Transaction>, again: seq<Transaction>)
    requires forall i :: 0 <= i < |batch| ==> batch[i] in again
    ensures t + Replay(batch) + Replay(again) == t + Replay(again)
  {
    hide Replay, Touches;
    forall k | k in Replay(batch) ensures k in Replay(again) {
      ReplayKeys(batch, k);
      ReplayKeys(again, k);
      var i :| 0 <= i < |batch| && k in Touches(batch[i]);
      var j :| 0 <= j < |again| && again[j] == batch[i];
    }
  }

  // ---------------------------------------------------------------- log order and unfinished transactions

  predicate Distinct(txs: seq<Transaction>) {
    forall i, j :: 0 <= i < j < |txs| ==> txs[i].id != txs[j].id
  }

  function Without(txs: seq<Transaction>, id: Uuid): seq<Transaction> {
    if txs == [] then []
    else Without(txs[..|txs| - 1], id) + (if txs[|txs| - 1].id == id then [] else [txs[|txs| - 1]])
  }

  lemma {:induction false} WithoutNone(txs: seq<Transaction>, id: Uuid)
    requires forall i :: 0 <= i < |txs| ==> txs[i].id != id
    ensures Without(txs, id) == txs
  {
    if txs != [] {
      WithoutNone(txs[..|txs| - 1], id);
      assert txs == txs[..|txs| - 1] + [txs[|txs| - 1]];
    }
  }

  lemma {:induction false} WithoutAppend(a: seq<Transaction>, b: seq<Transaction>, id: Uuid)
    ensures Without(a + b, id) == Without(a, id) + Without(b, id)
  {
    if b == [] {
      assert a + b == a;
    } else {
      var n := |b| - 1;
      WithoutAppend(a, b[..n], id);
      assert (a + b)[..|a + b| - 1] == a + b[..n];
    }
  }

  lemma WithoutOne(txs: seq<Transaction>, i: nat)
    requires Distinct(txs) && i < |txs|
    ensures Without(txs, txs[i].id) == txs[..i] + txs[i + 1..]
  {
    hide Without;
    var id, a, b := txs[i].id, txs[..i], txs[i + 1..];
    WithoutNone(a, id);
    WithoutNone(b, id);
    hide Distinct;
    WithoutPush(a, txs[i]);
    WithoutAppend(a + [txs[i]], b, id);
    assert txs == (a + [txs[i]]) + b;
  }

  lemma WithoutPush(txs: seq<Transaction>, tx: Transaction)
    ensures Without(txs + [tx], tx.id) == Without(txs, tx.id)
  {
    assert (txs + [tx])[..|txs|] == txs;
  }

  lemma {:induction false} OpenBeforeAppend(log: seq<Line>, line: Line, n: nat)
    requires n <= |log|
    ensures OpenBefore(log + [line], n) == Without(OpenBefore(log, n), LineId(line))
  {
    hide IsOpen;
    if n > 0 {
      OpenBeforeAppend(log, line, n - 1);
      OpenAppend(log, line, n - 1);
      if IsOpen(log, n - 1) {
        var before, tx := OpenBefore(log, n - 1), log[n - 1].tx;
        assert (before + [tx])[..|before|] == before;
      } else {
        assert OpenBefore(log, n) == OpenBefore(log, n - 1);
      }
    }
  }

  lemma OpenAppend(log: seq<Line>, line: Line, i: nat)
    requires i < |log|
    ensures (log + [line])[i] == log[i]
    ensures IsOpen(log, i) ==> log[i].BeginTx?
    ensures IsOpen(log + [line], i) <==> IsOpen(log, i) && log[i].tx.id != LineId(line)
  {
    var log' := log + [line];
    assert log'[i] == log[i] && log'[|log|] == line;
    if IsOpen(log', i) {
      forall j | i < j < |log| ensures LineId(log[j]) != log[i].tx.id { assert log'[j] == log[j]; }
    }
  }

  /** One more line: its id is no longer open, unless the line opens it. */
  lemma UnfinishedAppend(log: seq<Line>, line: Line)
    ensures Unfinished(log + [line])
         == Without(Unfinished(log), LineId(line)) + (if line.BeginTx? then [line.tx] else [])
  {
    OpenBeforeAppend(log, line, |log|);
    var log' := log + [line];
    assert log'[|log|] == line;
  }

  lemma UnfinishedNothing()
    ensures Unfinished([]) == []
  {
  }

  lemma BeginsAppend(log: seq<Line>, line: Line)
    ensures Begins(log + [line]) == Begins(log) + (if line.BeginTx? then [line.tx] else [])
  {
    var log' := log + [line];
    assert log'[..|log'| - 1] == log;
  }

  lemma BeginsStep(s: State, a: Action)
    requires Enabled(s, a)
    ensures Begins(Do(s, a).disk.log) == Begins(s.disk.log) + (if a.Begin? then [a.tx] else [])
  {
    hide Begins;
    match a
    case Begin(tx) => BeginsAppend(s.disk.log, BeginTx(tx));
    case AppendEnd => BeginsAppend(s.disk.log, EndTx(s.memory.value.batch[s.memory.value.flush.ended].id));
    case _ =>
  }

  /** The log begins exactly what the run logged: nothing is lost, doubled or reordered by flushes and crashes. */
  lemma {:induction false} BeginsOfRun(s: State, run: seq<Action>)
    requires Legal(s, run)
    ensures Begins(Final(s, run).disk.log) == Begins(s.disk.log) + Begun(run)
    decreases |run|
  {
    hide Begins, Do, Enabled;
    if run != [] {
      BeginsStep(s, run[0]);
      BeginsOfRun(Do(s, run[0]), run[1..]);
      Bytes.Associates(Begins(s.disk.log), if run[0].Begin? then [run[0].tx] else [], Begun(run[1..]));
    }
  }

  lemma LogOfRun(run: seq<Action>)
    requires Legal(INITIAL, run)
    ensures Begins(Final(INITIAL, run).disk.log) == Begun(run)
  {
    hide Legal, Final, Begun;
    BeginsOfRun(INITIAL, run);
  }

  lemma {:induction false} BeginsAreLines(log: seq<Line>, tx: Transaction)
    requires tx in Begins(log)
    ensures exists i :: 0 <= i < |log| && LineId(log[i]) == tx.id
  {
    var n := |log| - 1;
    if tx in Begins(log[..n]) {
      BeginsAreLines(log[..n], tx);
      var i :| 0 <= i < n && LineId(log[..n][i]) == tx.id;
      assert LineId(log[i]) == tx.id;
    } else {
      assert LineId(log[n]) == tx.id;
    }
  }

  lemma FreshIsNew(log: seq<Line>, tx: Transaction)
    requires FreshId(log, tx.id)
    ensures forall t :: t in Begins(log) ==> t.id != tx.id
  {
    forall t | t in Begins(log) ensures t.id != tx.id { BeginsAreLines(log, t); }
  }

  // ---------------------------------------------------------------- pending transactions

  lemma {:induction false} AppliedAppend(a: seq<Transaction>, b: seq<Transaction>, pending: set<Transaction>)
    ensures Applied(a + b, pending) == Applied(a, pending) + Applied(b, pending)
  {
    if b == [] {
      assert a + b == a;
    } else {
      var n := |b| - 1;
      AppliedAppend(a, b[..n], pending);
      assert (a + b)[..|a + b| - 1] == a + b[..n];
    }
  }

  lemma {:induction false} AppliedSame(txs: seq<Transaction>, p: set<Transaction>, q: set<Transaction>)
    requires forall i :: 0 <= i < |txs| ==> (txs[i] in p <==> txs[i] in q)
    ensures Applied(txs, p) == Applied(txs, q)
  {
    if txs != [] { AppliedSame(txs[..|txs| - 1], p, q); }
  }

  lemma {:induction false} AppliedNone(txs: seq<Transaction>)
    ensures Applied(txs, {}) == txs
  {
    if txs != [] {
      AppliedNone(txs[..|txs| - 1]);
      assert txs == txs[..|txs| - 1] + [txs[|txs| - 1]];
    }
  }

  lemma {:induction false} AppliedMembers(txs: seq<Transaction>, pending: set<Transaction>, i: nat)
    requires i < |Applied(txs, pending)|
    ensures Applied(txs, pending)[i] in txs && Applied(txs, pending)[i] !in pending
  {
    var n := |txs| - 1;
    if i < |Applied(txs[..n], pending)| { AppliedMembers(txs[..n], pending, i); }
  }

  /** A transaction that shares no key with those behind it may as well come last. */
  lemma ReplayCommutes(a: seq<Transaction>, tx: Transaction, later: seq<Transaction>)
    requires forall i :: 0 <= i < |later| ==> Touches(tx) !! Touches(later[i])
    ensures Replay(a + [tx] + later) == Replay(a + later) + Effects(tx.operations)
  {
    hide Replay, Effects;
    ReplayAppend(a + [tx], later);
    ReplayPush(a, tx);
    ReplayAppend(a, later);
    forall k | k in Touches(tx) ensures k !in Replay(later) { ReplayKeys(later, k); }
    MapsCommute(Replay(a), Effects(tx.operations), Replay(later));
  }

  lemma MapsCommute(a: Table, b: Table, c: Table)
    requires b.Keys !! c.Keys
    ensures a + b + c == a + c + b
  {
  }
}
