/** Transactions and `MemoryStore`, the plain-map store that serves as the specification of every other. */
module Store {
  import opened Bytes

  type Key = Bytes
  type Uuid = Bytes

  datatype Operation = Set(key: Key, value: Bytes) | Delete(key: Key)

  datatype Transaction = Transaction(id: Uuid, operations: seq<Operation>)

  // ---------------------------------------------------------------- meaning of a transaction

  function ApplyOp(m: map<Key, Bytes>, op: Operation): map<Key, Bytes> {
    match op
    case Set(key, value) => m[key := value]
    case Delete(key) => m - {key}
  }

  function ApplyOps(m: map<Key, Bytes>, ops: seq<Operation>): map<Key, Bytes> {
    if ops == [] then m
    else ApplyOp(ApplyOps(m, ops[..|ops| - 1]), ops[|ops| - 1])
  }

  /** A plain map after a sequence of transactions. */
  function ApplyTxs(m: map<Key, Bytes>, txs: seq<Transaction>): map<Key, Bytes> {
    if txs == [] then m
    else ApplyOps(ApplyTxs(m, txs[..|txs| - 1]), txs[|txs| - 1].operations)
  }

  function Lookup<V>(m: map<Key, V>, k: Key): Option<V> {
    if k in m then Some(m[k]) else None
  }

  /** The values of a plain map in a key range, in key order. */
  function ScanValues(m: map<Key, Bytes>, from: Key, to: Key): seq<Bytes> {
    var ks := SortedKeys(KeyRange(m.Keys, from, to));
    seq(|ks|, i requires 0 <= i < |ks| => assert ks[i] in ks; m[ks[i]])
  }

  /** The last operation on `k` decides: a set's value, a delete's absence, the old entry if there is none. */
  lemma {:induction false} LastWriteWins(m: map<Key, Bytes>, ops: seq<Operation>, i: int, k: Key)
    requires -1 <= i < |ops| && (i >= 0 ==> ops[i].key == k)
    requires forall j :: i < j < |ops| ==> ops[j].key != k
    ensures Lookup(ApplyOps(m, ops), k)
         == if i == -1 then Lookup(m, k) else if ops[i].Set? then Some(ops[i].value) else None
    decreases |ops|
  {
    if i < |ops| - 1 { LastWriteWins(m, ops[..|ops| - 1], i, k); }
  }

  // ---------------------------------------------------------------- what a scan returns

  lemma ScanOfKeys(m: map<Key, Bytes>, from: Key, to: Key, ks: seq<Key>)
    requires StrictlySorted(ks) && forall k :: k in ks <==> k in KeyRange(m.Keys, from, to)
    ensures |ScanValues(m, from, to)| == |ks|
    ensures forall i :: 0 <= i < |ks| ==> ks[i] in m && ScanValues(m, from, to)[i] == m[ks[i]]
  {
    hide SortedKeys, KeyRange;
    SortedUnique(SortedKeys(KeyRange(m.Keys, from, to)), ks);
    assert forall i :: 0 <= i < |ks| ==> ks[i] in ks;
    RangeInside(m.Keys, from, to);
  }

  lemma RangeInside(s: set<Key>, from: Key, to: Key)
    ensures KeyRange(s, from, to) <= s
  {
  }

  /** A scan of adjacent ranges is the two scans one after the other: no key is returned twice, none is lost. */
  lemma ScanSplit(m: map<Key, Bytes>, a: Key, b: Key, c: Key)
    requires !Less(b, a) && !Less(c, b)
    ensures ScanValues(m, a, c) == ScanValues(m, a, b) + ScanValues(m, b, c)
  {
    hide SortedKeys, Less, ScanValues;
    var low, high := SortedKeys(KeyRange(m.Keys, a, b)), SortedKeys(KeyRange(m.Keys, b, c));
    var ks := low + high;
    forall k ensures k in ks <==> k in KeyRange(m.Keys, a, c) { RangeSplit(k, a, b, c); }
    forall i, j | 0 <= i < |low| && 0 <= j < |high| ensures Less(low[i], high[j]) {
      assert low[i] in low && high[j] in high;
      LowIsLess(low[i], b, high[j]);
    }
    SortedJoin(low, high);
    ScanOfKeys(m, a, c, ks);
    ScanOfKeys(m, a, b, low);
    ScanOfKeys(m, b, c, high);
  }

  lemma SortedJoin(low: seq<Key>, high: seq<Key>)
    requires StrictlySorted(low) && StrictlySorted(high)
    requires forall i, j | 0 <= i < |low| && 0 <= j < |high| :: Less(low[i], high[j])
    ensures StrictlySorted(low + high)
  {
    hide Less;
    var ks := low + high;
    forall i, j | 0 <= i < j < |ks| ensures Less(ks[i], ks[j]) {
      if i < |low| <= j { assert Less(low[i], high[j - |low|]); }
    }
  }

  lemma LowIsLess(k: Key, b: Key, k': Key)
    requires Less(k, b) && !Less(k', b)
    ensures Less(k, k')
  {
    hide Less;
    LessTotal(b, k');
    if b != k' { LessTransitive(k, b, k'); }
  }

  lemma RangeSplit(k: Key, a: Key, b: Key, c: Key)
    requires !Less(b, a) && !Less(c, b)
    ensures (!Less(k, a) && Less(k, c)) <==> (!Less(k, a) && Less(k, b)) || (!Less(k, b) && Less(k, c))
  {
    hide Less;
    if Less(k, a) && !Less(k, b) {
      LowIsLess(k, a, b);
    }
    if Less(k, b) && !Less(k, c) { LowIsLess(k, b, c); }
  }

  /** A range that ends where it starts is empty: the upper end is excluded. */
  lemma ScanEmpty(m: map<Key, Bytes>, a: Key)
    ensures ScanValues(m, a, a) == []
  {
    hide Less;
    ScanOfKeys(m, a, a, []);
  }

  /** The smallest range from a key holds that key alone: the lower end is included. */
  lemma ScanOne(m: map<Key, Bytes>, k: Key)
    ensures ScanValues(m, k, k + [0]) == if k in m then [m[k]] else []
  {
    hide Less, ScanValues;
    forall x ensures x in KeyRange(m.Keys, k, k + [0]) <==> x == k && k in m { NothingBetween(k, x); }
    ScanOfKeys(m, k, k + [0], if k in m then [k] else []);
  }

  // ---------------------------------------------------------------- MemoryStore

  class MemoryStore {
    var data: map<Key, Bytes>

    constructor ()
      ensures data == map[]
    {
      data := map[];
    }

    method Get(k: Key) returns (v: Option<Bytes>)
      ensures v == Lookup(data, k)
    {
      v := if k in data then Some(data[k]) else None;
    }

    /** `BTreeMap::range` panics when the range is reversed, hence the precondition. */
    method Scan(from: Key, to: Key) returns (values: seq<Bytes>)
      requires !Less(to, from)
      ensures values == ScanValues(data, from, to)
    {
      var ks := SortedKeys(KeyRange(data.Keys, from, to));
      values := [];
      for i := 0 to |ks|
        invariant values == ScanValues(data, from, to)[..i]
      {
        assert ks[i] in ks;
        values := values + [data[ks[i]]];
      }
    }

    method Transact(tx: Transaction)
      modifies this
      ensures data == ApplyOps(old(data), tx.operations)
    {
      assert tx.operations[..0] == [];
      for i := 0 to |tx.operations|
        invariant data == ApplyOps(old(data), tx.operations[..i])
      {
        assert tx.operations[..i + 1][..i] == tx.operations[..i];
        match tx.operations[i]
        case Set(key, value) => data := data[key := value];
        case Delete(key) => data := data - {key};
      }
      assert tx.operations[..|tx.operations|] == tx.operations;
    }
  }
}

/** Maps that remember deletions: the contents of memtables and SSTables. */
module Tables {
  import opened Bytes
  import opened Store

  datatype Value = Data(bytes: Bytes) | Tombstone {
    function AsOption(): Option<Bytes> {
      match this
      case Data(bytes) => Some(bytes)
      case Tombstone => None
    }
  }

  type Table = map<Key, Value>

  function Written(op: Operation): Value {
    match op
    case Set(_, value) => Data(value)
    case Delete(_) => Tombstone
  }

  /** The entries a list of operations leaves in a table. */
  function Effects(ops: seq<Operation>): Table {
    if ops == [] then map[]
    else Effects(ops[..|ops| - 1])[ops[|ops| - 1].key := Written(ops[|ops| - 1])]
  }

  /** Tables laid over one another, later ones on top. */
  function Merge(ts: seq<Table>): Table {
    if ts == [] then map[] else Merge(ts[..|ts| - 1]) + ts[|ts| - 1]
  }

  function EffectsOf(txs: seq<Transaction>): seq<Table> {
    seq(|txs|, i requires 0 <= i < |txs| => Effects(txs[i].operations))
  }

  /** What a sequence of transactions leaves in an empty table. */
  function Replay(txs: seq<Transaction>): Table {
    Merge(EffectsOf(txs))
  }

  /** The plain map a reader should see. */
  function Visible(t: Table): map<Key, Bytes> {
    map k | k in t && t[k].Data? :: t[k].bytes
  }

  // ---------------------------------------------------------------- algebra

  lemma {:induction false} MergeAppend(a: seq<Table>, b: seq<Table>)
    ensures Merge(a + b) == Merge(a) + Merge(b)
  {
    hide Merge;
    if b == [] {
      MergeEmpty();
      assert a + b == a;
    } else {
      var n := |b| - 1;
      MergeAppend(a, b[..n]);
      MergeLast(b);
      MergeLast(a + b);
      assert (a + b)[..|a + b| - 1] == a + b[..n];
      assert (a + b)[|a + b| - 1] == b[n];
    }
  }

  lemma MergeEmpty()
    ensures Merge([]) == map[]
  {
  }

  lemma MergeLast(ts: seq<Table>)
    requires ts != []
    ensures Merge(ts) == Merge(ts[..|ts| - 1]) + ts[|ts| - 1]
  {
  }

  lemma ReplayAppend(a: seq<Transaction>, b: seq<Transaction>)
    ensures Replay(a + b) == Replay(a) + Replay(b)
  {
    assert EffectsOf(a + b) == EffectsOf(a) + EffectsOf(b);
    MergeAppend(EffectsOf(a), EffectsOf(b));
  }

  lemma ReplaySingle(tx: Transaction)
    ensures Replay([tx]) == Effects(tx.operations)
  {
    var ts := EffectsOf([tx]);
    assert ts == [Effects(tx.operations)] && ts[..0] == [];
    assert Merge(ts[..0]) == map[];
  }

  /** Overlaying a transaction's entries does to the visible map what the transaction does to a plain map. */
  lemma {:induction false} VisibleApply(t: Table, ops: seq<Operation>)
    ensures Visible(t + Effects(ops)) == ApplyOps(Visible(t), ops)
  {
    if ops == [] {
      assert t + Effects(ops) == t;
    } else {
      var n := |ops| - 1;
      VisibleApply(t, ops[..n]);
      hide Visible, ApplyOp;
      assert t + Effects(ops) == (t + Effects(ops[..n]))[ops[n].key := Written(ops[n])];
      VisibleStep(t + Effects(ops[..n]), ops[n]);
    }
  }

  lemma VisibleStep(t: Table, op: Operation)
    ensures Visible(t[op.key := Written(op)]) == ApplyOp(Visible(t), op)
  {
  }

  /** Replaying transactions refines running them on a plain map. */
  lemma {:induction false} VisibleReplay(txs: seq<Transaction>)
    ensures Visible(Replay(txs)) == ApplyTxs(map[], txs)
  {
    if txs != [] {
      var n := |txs| - 1;
      VisibleReplay(txs[..n]);
      assert txs == txs[..n] + [txs[n]];
      ReplayAppend(txs[..n], [txs[n]]);
      ReplaySingle(txs[n]);
      VisibleApply(Replay(txs[..n]), txs[n].operations);
    }
  }

  // ---------------------------------------------------------------- scanning

  /** The last step of `LSMStore::scan`: keep the data, drop the tombstones. */
  function DataValues(t: Table, ks: seq<Key>): seq<Bytes>
    requires forall k :: k in ks ==> k in t
  {
    if ks == [] then []
    else
      var n := |ks| - 1;
      assert ks[n] in ks;
      assert forall k :: k in ks[..n] ==> k in ks;
      DataValues(t, ks[..n]) + (if t[ks[n]].Data? then [t[ks[n]].bytes] else [])
  }

  function LiveKeys(t: Table, ks: seq<Key>): seq<Key>
    requires forall k :: k in ks ==> k in t
  {
    if ks == [] then []
    else
      var n := |ks| - 1;
      assert ks[n] in ks;
      assert forall k :: k in ks[..n] ==> k in ks;
      LiveKeys(t, ks[..n]) + (if t[ks[n]].Data? then [ks[n]] else [])
  }

  lemma {:induction false} LiveKeysMembers(t: Table, ks: seq<Key>)
    requires forall k :: k in ks ==> k in t
    ensures forall k :: k in LiveKeys(t, ks) <==> k in ks && t[k].Data?
  {
    if ks != [] {
      var n := |ks| - 1;
      assert ks == ks[..n] + [ks[n]] && ks[n] in ks;
      assert forall k :: k in ks <==> k in ks[..n] || k == ks[n];
      LiveKeysMembers(t, ks[..n]);
    }
  }

  lemma {:induction false} LiveKeysSorted(t: Table, ks: seq<Key>)
    requires forall k :: k in ks ==> k in t
    requires StrictlySorted(ks)
    ensures StrictlySorted(LiveKeys(t, ks))
  {
    if ks != [] {
      var n := |ks| - 1;
      assert ks[n] in ks && forall k :: k in ks[..n] ==> k in ks;
      LiveKeysSorted(t, ks[..n]);
      LiveKeysMembers(t, ks[..n]);
      var live := LiveKeys(t, ks[..n]);
      forall i | 0 <= i < |live| ensures Less(live[i], ks[n]) {
        assert live[i] in live;
        var j :| 0 <= j < n && ks[j] == live[i];
      }
    }
  }

  lemma {:induction false} LiveKeysValues(t: Table, ks: seq<Key>)
    requires forall k :: k in ks ==> k in t
    ensures |DataValues(t, ks)| == |LiveKeys(t, ks)|
    ensures forall i :: 0 <= i < |LiveKeys(t, ks)| ==>
              LiveKeys(t, ks)[i] in Visible(t) && DataValues(t, ks)[i] == Visible(t)[LiveKeys(t, ks)[i]]
  {
    if ks != [] {
      var n := |ks| - 1;
      assert ks[n] in ks && forall k :: k in ks[..n] ==> k in ks;
      LiveKeysValues(t, ks[..n]);
    }
  }

  /** Scanning an overlay returns exactly what scanning the visible plain map returns. */
  lemma ScanRefinesPlainScan(t: Table, from: Key, to: Key)
    ensures var ks := SortedKeys(KeyRange(t.Keys, from, to));
            && (forall k :: k in ks ==> k in t)
            && DataValues(t, ks) == ScanValues(Visible(t), from, to)
  {
    var ks := SortedKeys(KeyRange(t.Keys, from, to));
    LiveKeysMembers(t, ks);
    LiveKeysSorted(t, ks);
    LiveKeysValues(t, ks);
    var plain := SortedKeys(KeyRange(Visible(t).Keys, from, to));
    SortedUnique(LiveKeys(t, ks), plain);
  }
}
