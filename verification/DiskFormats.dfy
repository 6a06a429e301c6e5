/** The formats on disk byte by byte, down to the numbers. */
module DiskFormats {
  import opened Bytes
  import opened Store
  import opened Tables
  import opened Bincode
  import opened CommitLog
  import opened SSTables
  import opened FileNames

  // ---------------------------------------------------------------- integers

  lemma IntegerLayout()
    ensures LittleEndian(0, 4) == [0, 0, 0, 0] && LittleEndian(1, 4) == [1, 0, 0, 0]
    ensures LittleEndian(0x0102, 8) == [2, 1, 0, 0, 0, 0, 0, 0]
    ensures BigEndian(0x0102, 8) == [0, 0, 0, 0, 0, 0, 1, 2]
  {
    ZeroLittle(8);
    ZeroBig(8);
    assert LittleEndian(0, 3) == [0, 0, 0] && LittleEndian(0, 4) == [0] + LittleEndian(0, 3);
    assert LittleEndian(1, 4) == [1] + LittleEndian(0, 3);
    assert LittleEndian(1, 7) == [1] + LittleEndian(0, 6);
    assert LittleEndian(0x0102, 8) == [2] + LittleEndian(1, 7);
    assert BigEndian(1, 7) == BigEndian(0, 6) + [1];
    assert BigEndian(0x0102, 8) == BigEndian(1, 7) + [2];
  }

  lemma {:induction false} ZeroLittle(w: nat)
    ensures forall v, i :: 0 <= i < v <= w ==> LittleEndian(0, v)[i] == 0
  {
    if w > 0 {
      ZeroLittle(w - 1);
      assert LittleEndian(0, w) == [0] + LittleEndian(0, w - 1);
    }
  }

  lemma {:induction false} ZeroBig(w: nat)
    ensures forall v, i :: 0 <= i < v <= w ==> BigEndian(0, v)[i] == 0
  {
    if w > 0 {
      ZeroBig(w - 1);
      assert BigEndian(0, w) == BigEndian(0, w - 1) + [0];
    }
  }

  /** Every byte of every number: the `i`-th from the low end is its `i`-th digit to the base 256. */
  lemma {:induction false} EndianLayout(n: nat, w: nat, i: nat)
    requires i < w
    ensures LittleEndian(n, w)[i] == n / Pow256(i) % 256
    ensures BigEndian(n, w)[w - 1 - i] == n / Pow256(i) % 256
    decreases w
  {
    if i > 0 {
      EndianLayout(n / 256, w - 1, i - 1);
      DivTwice(n, Pow256(i - 1));
    }
  }

  lemma DivTwice(n: nat, p: nat)
    requires p > 0
    ensures n / 256 / p == n / (256 * p)
  {
    var q, r := n / 256, n % 256;
    var c, d := q / p, q % p;
    assert q == c * p + d;
    assert (c * p) * 256 == c * (256 * p);
    DivUnique(n, 256 * p, c, 256 * d + r);
  }

  // ---------------------------------------------------------------- what is on disk

  /** A table value: its tag, and for data the length and the bytes. */
  lemma ValueLayout(bytes: Bytes)
    ensures EncodeValue(Data(bytes)) == [0, 0, 0, 0] + (LittleEndian(|bytes|, 8) + bytes)
    ensures EncodeValue(Tombstone) == [1, 0, 0, 0]
  {
    hide LittleEndian;
    IntegerLayout();
  }

  /** An operation: its tag, the key behind its length, and for a set the value behind its length. */
  lemma OpLayout(key: Key, value: Bytes, rest: Bytes)
    requires ValidUtf8(key) && |key| < U64_LIMIT && |value| < U64_LIMIT
    ensures DecodeOp([0, 0, 0, 0] + (LittleEndian(|key|, 8) + key + (LittleEndian(|value|, 8) + value)) + rest)
         == Parsed(Set(key, value), rest)
    ensures DecodeOp([1, 0, 0, 0] + (LittleEndian(|key|, 8) + key) + rest) == Parsed(Delete(key), rest)
  {
    hide LittleEndian, DecodeOp, ValidUtf8;
    IntegerLayout();
    OpRoundTrip(Set(key, value), rest);
    OpRoundTrip(Delete(key), rest);
  }

  /** A log line: its length big-endian, its tag, the id behind its length, and what a begun transaction does. */
  lemma LineLayout(tx: Transaction)
    ensures Body(BeginTx(tx)) == [0, 0, 0, 0] + (LittleEndian(|tx.id|, 8) + tx.id
                                 + (LittleEndian(|tx.operations|, 8) + EncodeOps(tx.operations)))
    ensures Body(EndTx(tx.id)) == [1, 0, 0, 0] + (LittleEndian(|tx.id|, 8) + tx.id)
    ensures forall line :: Encode(line) == BigEndian(|Body(line)|, 8) + Body(line)
  {
    hide LittleEndian, BigEndian, EncodeOps;
    IntegerLayout();
  }

  lemma SetBytes(key: Key, value: Bytes)
    ensures EncodeOp(Set(key, value))
         == [0, 0, 0, 0] + (LittleEndian(|key|, 8) + key + (LittleEndian(|value|, 8) + value))
  {
    hide LittleEndian;
    IntegerLayout();
  }

  lemma DeleteBytes(key: Key)
    ensures EncodeOp(Delete(key)) == [1, 0, 0, 0] + (LittleEndian(|key|, 8) + key)
  {
    hide LittleEndian;
    IntegerLayout();
  }

  /** The operations of a transaction stand one behind the other, in their order, however many. */
  lemma {:induction false} OpsFollow(ops: seq<Operation>, op: Operation)
    ensures EncodeOps([]) == []
    ensures EncodeOps(ops + [op]) == EncodeOps(ops) + EncodeOp(op)
  {
    hide EncodeOp;
    if ops == [] {
      assert ops + [op] == [op] && [op][1..] == [];
      assert EncodeOps([op]) == EncodeOp(op) + EncodeOps([]);
    } else {
      OpsFollow(ops[1..], op);
      assert (ops + [op])[1..] == ops[1..] + [op];
      Associates(EncodeOp(ops[0]), EncodeOps(ops[1..]), EncodeOp(op));
    }
  }

  lemma TwoOps(a: Operation, b: Operation)
    ensures EncodeOps([a, b]) == EncodeOp(a) + EncodeOp(b)
  {
    hide EncodeOp;
    assert [a, b][1..] == [b];
    assert [b][1..] == [];
    assert EncodeOps([b]) == EncodeOp(b) + [];
  }

  /** A set and a delete, for example. */
  lemma OpsLayout(key: Key, value: Bytes, key': Key)
    ensures EncodeOps([Set(key, value), Delete(key')])
         == [0, 0, 0, 0] + (LittleEndian(|key|, 8) + key + (LittleEndian(|value|, 8) + value))
            + ([1, 0, 0, 0] + (LittleEndian(|key'|, 8) + key'))
  {
    hide LittleEndian, EncodeOps, EncodeOp;
    SetBytes(key, value);
    DeleteBytes(key');
    TwoOps(Set(key, value), Delete(key'));
  }

  /** The file of a table with one entry: the size of the index; the index, with its one row of key, offset and size;
      and the value at that offset. */
  lemma FileLayout(k: Key, bytes: Bytes)
    ensures FileBytes(map[k := Data(bytes)])
         == BigEndian(32 + |k|, 8)
            + (LittleEndian(1, 8) + ((LittleEndian(|k|, 8) + k)
               + (LittleEndian(40 + |k|, 8) + LittleEndian(12 + |bytes|, 8))))
            + ([0, 0, 0, 0] + (LittleEndian(|bytes|, 8) + bytes))
  {
    hide *;
    var m := map[k := Data(bytes)];
    assert m.Keys == {k};
    SortedOne(k);
    ValueLayout(bytes);
    LittleLength(|bytes|);
    assert |EncodeValue(m[k])| == 12 + |bytes|;
    OneRow(m, k, 0);
    OneRow(m, k, 40 + |k|);
    OneValue(m, k);
    FileOf(m, 32 + |k|);
  }

  lemma LittleLength(n: nat)
    ensures |LittleEndian(n, 8)| == 8
  {
  }

  lemma FileOf(m: Table, size: nat)
    requires |EncodeIndex(IndexFrom(m, 0))| == size
    ensures FileBytes(m) == BigEndian(size, 8) + EncodeIndex(IndexFrom(m, 8 + size)) + DataBlock(m)
  {
    hide EncodeIndex, IndexFrom, BigEndian, DataBlock;
  }

  lemma OneRow(m: Table, k: Key, base: nat)
    requires m.Keys == {k} && SortedKeys({k}) == [k]
    ensures IndexFrom(m, base).Keys == {k} && IndexFrom(m, base)[k] == IndexEntry(base, |EncodeValue(m[k])|)
    ensures EncodeIndex(IndexFrom(m, base))
         == LittleEndian(1, 8) + (LittleEndian(|k|, 8) + k
            + (LittleEndian(base, 8) + LittleEndian(|EncodeValue(m[k])|, 8)))
    ensures |EncodeIndex(IndexFrom(m, base))| == 32 + |k|
  {
    hide LittleEndian, SortedKeys, EncodeValue, IndexFrom;
    var index := IndexFrom(m, base);
    IndexFromKeys(m, base);
    EntryFrom(m, base, 0);
    ConcatNone();
    assert ValueBytes(m, [k])[..0] == [];
    assert RowBytes(index, [k]) == [EncodeRow(k, index[k])];
    ConcatOne(EncodeRow(k, index[k]));
  }

  lemma OneValue(m: Table, k: Key)
    requires m.Keys == {k} && SortedKeys({k}) == [k]
    ensures DataBlock(m) == EncodeValue(m[k])
  {
    hide SortedKeys, EncodeValue;
    assert ValueBytes(m, [k]) == [EncodeValue(m[k])];
    ConcatOne(EncodeValue(m[k]));
  }

  /** With several keys, the rows of the index and the values behind it both follow the order of the keys. */
  lemma KeyOrderLayout(m: Table, base: nat, ks: seq<Key>)
    requires StrictlySorted(ks) && forall k :: k in ks <==> k in m
    ensures IndexFrom(m, base).Keys == m.Keys
    ensures EncodeIndex(IndexFrom(m, base)) == LittleEndian(|ks|, 8) + Concat(RowBytes(IndexFrom(m, base), ks))
    ensures DataBlock(m) == Concat(ValueBytes(m, ks))
    ensures |RowBytes(IndexFrom(m, base), ks)| == |ValueBytes(m, ks)| == |ks|
    ensures forall i :: 0 <= i < |ks| ==>
              && ks[i] in m
              && RowBytes(IndexFrom(m, base), ks)[i]
                 == LittleEndian(|ks[i]|, 8) + ks[i] + (LittleEndian(IndexFrom(m, base)[ks[i]].offset, 8)
                                                        + LittleEndian(IndexFrom(m, base)[ks[i]].size, 8))
              && ValueBytes(m, ks)[i] == EncodeValue(m[ks[i]])
  {
    hide SortedKeys, LittleEndian, Concat, StrictlySorted, EncodeValue, IndexFrom;
    IndexFromKeys(m, base);
    assert forall i :: 0 <= i < |ks| ==> ks[i] in ks;
    SortedUnique(SortedKeys(m.Keys), ks);
  }

  /** The name of a table file. */
  lemma NameLayout()
    ensures SstName(120) == Ascii("120.sst")
  {
    NumberLayout();
    assert Ascii("120.sst") == Ascii("120") + Ascii(".sst");
    assert DOT_SST == Ascii(".sst");
  }
}
