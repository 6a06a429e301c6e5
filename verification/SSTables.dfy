/** The SSTable file: an index size, a serialized index with absolute offsets, and the values. */
module SSTables {
  import opened Bytes
  import opened Store
  import opened Tables
  import opened Bincode

  datatype IndexEntry = IndexEntry(offset: nat, size: nat)

  type Index = map<Key, IndexEntry>

  datatype ReadResult<+T> = Ok(value: T) | Failed

  // ---------------------------------------------------------------- the index block

  function EncodeRow(k: Key, e: IndexEntry): Bytes {
    EncodeBytes(k) + (LittleEndian(e.offset, 8) + LittleEndian(e.size, 8))
  }

  function RowBytes(index: Index, ks: seq<Key>): seq<Bytes>
    requires forall k :: k in ks ==> k in index
  {
    seq(|ks|, i requires 0 <= i < |ks| => assert ks[i] in ks; EncodeRow(ks[i], index[ks[i]]))
  }

  function EncodeIndex(index: Index): Bytes {
    var ks := SortedKeys(index.Keys);
    LittleEndian(|ks|, 8) + Concat(RowBytes(index, ks))
  }

  function DecodeRow(b: Bytes): Parsed<(Key, IndexEntry)> {
    match DecodeString(b)
    case Malformed => Malformed
    case Parsed(k, rest) =>
      match DecodeInt(8, rest)
      case Malformed => Malformed
      case Parsed(offset, rest1) =>
        match DecodeInt(8, rest1)
        case Malformed => Malformed
        case Parsed(size, rest2) => Parsed((k, IndexEntry(offset, size)), rest2)
  }

  /** Rows are inserted one by one into an empty map. */
  function DecodeRows(n: nat, b: Bytes, index: Index): Parsed<Index> {
    if n == 0 then Parsed(index, b)
    else match DecodeRow(b)
      case Malformed => Malformed
      case Parsed(row, rest) => DecodeRows(n - 1, rest, index[row.0 := row.1])
  }

  function DecodeIndex(b: Bytes): Parsed<Index> {
    match DecodeInt(8, b)
    case Malformed => Malformed
    case Parsed(n, rest) => DecodeRows(n, rest, map[])
  }

  predicate FitsRow(k: Key, e: IndexEntry) {
    ValidUtf8(k) && |k| < U64_LIMIT && e.offset < U64_LIMIT && e.size < U64_LIMIT
  }

  lemma RowRoundTrip(k: Key, e: IndexEntry, rest: Bytes)
    requires FitsRow(k, e)
    ensures DecodeRow(EncodeRow(k, e) + rest) == Parsed((k, e), rest)
  {
    hide EncodeBytes, DecodeBytes, LittleEndian, DecodeInt, ValidUtf8;
    Pow256Eight();
    var o, z := LittleEndian(e.offset, 8), LittleEndian(e.size, 8);
    assert EncodeRow(k, e) + rest == EncodeBytes(k) + (o + (z + rest));
    BytesRoundTrip(k, o + (z + rest));
    IntRoundTrip(e.offset, 8, z + rest);
    IntRoundTrip(e.size, 8, rest);
  }

  lemma RowExtends(b: Bytes, q: Bytes)
    requires DecodeRow(b).Parsed?
    ensures DecodeRow(b + q) == Parsed(DecodeRow(b).value, DecodeRow(b).rest + q)
  {
    BytesExtends(b, q);
    var k := DecodeString(b);
    IntExtends(8, k.rest, q);
    IntExtends(8, DecodeInt(8, k.rest).rest, q);
  }

  function Picked(index: Index, ks: seq<Key>): Index
    requires forall k :: k in ks ==> k in index
  {
    map k | k in ks :: index[k]
  }

  lemma {:induction false} RowsRoundTrip(index: Index, ks: seq<Key>, rest: Bytes, acc: Index)
    requires forall k :: k in ks ==> k in index && FitsRow(k, index[k])
    ensures DecodeRows(|ks|, Concat(RowBytes(index, ks)) + rest, acc)
         == Parsed(acc + Picked(index, ks), rest)
  {
    hide DecodeRow, EncodeRow, FitsRow;
    if ks == [] {
      assert Concat(RowBytes(index, ks)) + rest == rest;
      assert acc + Picked(index, ks) == acc;
    } else {
      var k, tail := ks[0], ks[1..];
      assert k in ks && forall j :: j in tail ==> j in ks;
      assert RowBytes(index, ks)[1..] == RowBytes(index, tail);
      var later := Concat(RowBytes(index, tail)) + rest;
      assert Concat(RowBytes(index, ks)) + rest == EncodeRow(k, index[k]) + later;
      RowRoundTrip(k, index[k], later);
      RowsRoundTrip(index, tail, rest, acc[k := index[k]]);
      OverlayStep(index, ks, acc);
    }
  }

  lemma OverlayStep(index: Index, ks: seq<Key>, acc: Index)
    requires ks != [] && forall k :: k in ks ==> k in index
    ensures ks[0] in ks && forall j :: j in ks[1..] ==> j in ks
    ensures acc[ks[0] := index[ks[0]]] + Picked(index, ks[1..]) == acc + Picked(index, ks)
  {
    assert forall j :: j in ks <==> j == ks[0] || j in ks[1..];
  }

  lemma {:induction false} RowsExtends(n: nat, b: Bytes, q: Bytes, acc: Index)
    requires DecodeRows(n, b, acc).Parsed?
    ensures DecodeRows(n, b + q, acc) == Parsed(DecodeRows(n, b, acc).value, DecodeRows(n, b, acc).rest + q)
  {
    hide DecodeRow;
    if n > 0 {
      RowExtends(b, q);
      var row := DecodeRow(b);
      RowsExtends(n - 1, row.rest, q, acc[row.value.0 := row.value.1]);
    }
  }

  predicate FitsIndex(index: Index) {
    && |SortedKeys(index.Keys)| < U64_LIMIT
    && forall k :: k in index ==> FitsRow(k, index[k])
  }

  lemma IndexRoundTrip(index: Index, rest: Bytes)
    requires FitsIndex(index)
    ensures DecodeIndex(EncodeIndex(index) + rest) == Parsed(index, rest)
  {
    hide FitsRow, RowBytes, DecodeRows, DecodeInt, SortedKeys, EncodeRow, Concat, LittleEndian;
    Pow256Eight();
    var ks := SortedKeys(index.Keys);
    var rows := Concat(RowBytes(index, ks));
    assert map[] + Picked(index, ks) == index;
    assert EncodeIndex(index) + rest == LittleEndian(|ks|, 8) + (rows + rest);
    IntRoundTrip(|ks|, 8, rows + rest);
    RowsRoundTrip(index, ks, rest, map[]);
  }

  /** An index cut short never decodes. */
  lemma TruncatedIndexFails(index: Index, n: nat)
    requires FitsIndex(index) && n < |EncodeIndex(index)|
    ensures DecodeIndex(EncodeIndex(index)[..n]).Malformed?
  {
    hide EncodeIndex, FitsIndex, DecodeRows, DecodeInt;
    var whole := EncodeIndex(index);
    var cut := whole[..n];
    if DecodeIndex(cut).Parsed? {
      IntExtends(8, cut, whole[n..]);
      var p := DecodeInt(8, cut);
      RowsExtends(p.value, p.rest, whole[n..], map[]);
      assert cut + whole[n..] == whole == whole + [];
      IndexRoundTrip(index, []);
    }
  }

  // ---------------------------------------------------------------- the file

  function ValueBytes(m: Table, ks: seq<Key>): seq<Bytes>
    requires forall k :: k in ks ==> k in m
  {
    seq(|ks|, i requires 0 <= i < |ks| => assert ks[i] in ks; EncodeValue(m[ks[i]]))
  }

  function KeysBefore(m: Table, k: Key): seq<Key> {
    SortedKeys(set j | j in m && Less(j, k))
  }

  /** The index of a table whose data block starts at byte `base`: a value is preceded by exactly the
      values of the smaller keys. */
  function IndexFrom(m: Table, base: nat): Index {
    map k | k in m :: IndexEntry(base + BytesBefore(m, k), |EncodeValue(m[k])|)
  }

  function BytesBefore(m: Table, k: Key): nat {
    |Concat(ValueBytes(m, KeysBefore(m, k)))|
  }

  function IndexSize(m: Table): nat {
    |EncodeIndex(IndexFrom(m, 0))|
  }

  function DataStart(m: Table): nat { 8 + IndexSize(m) }

  function DataBlock(m: Table): Bytes {
    Concat(ValueBytes(m, SortedKeys(m.Keys)))
  }

  /** The bytes of a table's file. */
  function FileBytes(m: Table): Bytes {
    BigEndian(IndexSize(m), 8) + EncodeIndex(IndexFrom(m, DataStart(m))) + DataBlock(m)
  }

  /** A table whose keys are Rust strings and whose file length fits in a u64. */
  predicate FitsTable(m: Table) {
    |FileBytes(m)| < U64_LIMIT && forall k :: k in m ==> ValidUtf8(k)
  }

  /** Integers are fixed-width, so indexes over the same keys have the same size. */
  lemma SameKeysSameSize(a: Index, b: Index)
    requires a.Keys == b.Keys
    ensures |EncodeIndex(a)| == |EncodeIndex(b)|
  {
    var ks := SortedKeys(a.Keys);
    ConcatLength(RowBytes(a, ks), RowBytes(b, ks));
  }

  /** Patching the offsets leaves the index size unchanged, so the data block starts where the patch says. */
  lemma PatchKeepsIndexSize(m: Table)
    ensures |EncodeIndex(IndexFrom(m, DataStart(m)))| == IndexSize(m)
    ensures |FileBytes(m)| == DataStart(m) + |DataBlock(m)|
    ensures FileBytes(m)[DataStart(m)..] == DataBlock(m)
  {
    hide EncodeIndex;
    SameKeysSameSize(IndexFrom(m, 0), IndexFrom(m, DataStart(m)));
  }

  lemma KeysBeforeIsPrefix(m: Table, i: nat)
    requires i < |SortedKeys(m.Keys)|
    ensures KeysBefore(m, SortedKeys(m.Keys)[i]) == SortedKeys(m.Keys)[..i]
  {
    var ks := SortedKeys(m.Keys);
    var smaller := set j | j in m && Less(j, ks[i]);
    forall j ensures j in ks[..i] <==> j in smaller {
      if j in ks[..i] {
        var n :| 0 <= n < i && ks[n] == j;
        assert j in ks;
      }
      if j in smaller {
        assert j in ks;
        var n :| 0 <= n < |ks| && ks[n] == j;
        LessIrreflexive(j);
        if n > i { LessAsymmetric(ks[i], ks[n]); }
        assert ks[..i][n] == j;
      }
    }
    SortedUnique(ks[..i], SortedKeys(smaller));
  }

  /** The index entry the file holds for `k`. */
  function EntryOf(m: Table, k: Key): IndexEntry
    requires k in m
  {
    IndexFrom(m, DataStart(m))[k]
  }

  lemma EntryFrom(m: Table, base: nat, i: nat)
    requires i < |SortedKeys(m.Keys)|
    ensures var ks := SortedKeys(m.Keys);
            var parts := ValueBytes(m, ks);
            && ks[i] in m
            && IndexFrom(m, base)[ks[i]] == IndexEntry(base + |Concat(parts[..i])|, |parts[i]|)
            && parts[i] == EncodeValue(m[ks[i]])
  {
    hide EncodeValue, EncodeIndex, SortedKeys;
    var ks := SortedKeys(m.Keys);
    assert ks[i] in ks;
    KeysBeforeIsPrefix(m, i);
    assert ValueBytes(m, ks)[..i] == ValueBytes(m, ks[..i]);
  }

  lemma EntryAt(m: Table, i: nat)
    requires i < |SortedKeys(m.Keys)|
    ensures var ks := SortedKeys(m.Keys);
            var parts := ValueBytes(m, ks);
            && ks[i] in m
            && EntryOf(m, ks[i]) == IndexEntry(DataStart(m) + |Concat(parts[..i])|, |parts[i]|)
            && parts[i] == EncodeValue(m[ks[i]])
  {
    hide EncodeValue, IndexFrom, DataStart, SortedKeys, ValueBytes;
    EntryFrom(m, DataStart(m), i);
  }

  /** The intervals `[offset, offset + size)` tile the data block in key order, from its start to the end of
      the file. */
  lemma OffsetsTileTheDataBlock(m: Table, i: nat)
    requires i < |SortedKeys(m.Keys)|
    ensures var ks := SortedKeys(m.Keys);
            && ks[i] in m
            && (var e := EntryOf(m, ks[i]);
                && (i == 0 ==> e.offset == DataStart(m))
                && (i + 1 < |ks| ==> ks[i + 1] in m && e.offset + e.size == EntryOf(m, ks[i + 1]).offset)
                && (i + 1 == |ks| ==> e.offset + e.size == |FileBytes(m)|))
  {
    hide *;
    PatchKeepsIndexSize(m);
    DataBlockParts(m);
    var ks := SortedKeys(m.Keys);
    var parts := ValueBytes(m, ks);
    EntryAt(m, i);
    ConcatAt(parts, i);
    if i == 0 {
      assert parts[..i] == [];
      ConcatNone();
    }
    if i + 1 < |ks| {
      EntryAt(m, i + 1);
    } else {
      assert parts[..i + 1] == parts;
    }
  }

  lemma DataBlockParts(m: Table)
    ensures DataBlock(m) == Concat(ValueBytes(m, SortedKeys(m.Keys)))
    ensures |ValueBytes(m, SortedKeys(m.Keys))| == |SortedKeys(m.Keys)|
  {
  }

  /** The interval of a key holds the encoding of its value. */
  lemma ValueAtOffset(m: Table, k: Key)
    requires k in m
    ensures var e := EntryOf(m, k);
            && e.size == |EncodeValue(m[k])|
            && e.offset + e.size <= |FileBytes(m)|
            && FileBytes(m)[e.offset..e.offset + e.size] == EncodeValue(m[k])
  {
    hide *;
    var ks := SortedKeys(m.Keys);
    assert k in ks;
    var i :| 0 <= i < |ks| && ks[i] == k;
    var parts := ValueBytes(m, ks);
    PatchKeepsIndexSize(m);
    DataBlockParts(m);
    EntryAt(m, i);
    ConcatAt(parts, i);
    Slice(FileBytes(m), DataStart(m), |Concat(parts[..i])|, |parts[i]|);
  }

  lemma Slice(s: Bytes, base: nat, start: nat, size: nat)
    requires base <= |s| && start + size <= |s[base..]|
    ensures s[base + start..base + start + size] == s[base..][start..start + size]
  {
  }

  // ---------------------------------------------------------------- reading

  /** The header, then ONE `read_buf` into a buffer of the size the header names. */
  function ReadIndex(file: Bytes, delivered: nat): ReadResult<Index> {
    if |file| < 8 then Failed
    else
      var size := FromBigEndian(file[..8]);
      match DecodeIndex(file[8..8 + Min(delivered, Min(size, |file| - 8))])
      case Malformed => Failed
      case Parsed(index, _) => Ok(index)
  }

  /** A seek, which may pass the end of the file, then ONE `read_buf` into a buffer of the entry's size. */
  function ReadValue(file: Bytes, e: IndexEntry, delivered: nat): ReadResult<Value> {
    var start := Min(e.offset, |file|);
    match DecodeValue(file[start..start + Min(delivered, Min(e.size, |file| - start))])
    case Malformed => Failed
    case Parsed(v, _) => Ok(v)
  }

  /** The header names the size of the index. */
  lemma HeaderIsIndexSize(m: Table)
    requires FitsTable(m)
    ensures |FileBytes(m)| >= 8 && FromBigEndian(FileBytes(m)[..8]) == IndexSize(m)
  {
    hide EncodeIndex, IndexFrom, BigEndian, FromBigEndian, DataBlock, IndexSize, Pow256;
    FileParts(m);
    Pow256Eight();
    BigEndianRoundTrip(IndexSize(m), 8);
    assert FileBytes(m)[..8] == BigEndian(IndexSize(m), 8);
  }

  lemma FileParts(m: Table)
    ensures var file := FileBytes(m);
            && |file| >= DataStart(m) == 8 + IndexSize(m)
            && file[8..DataStart(m)] == EncodeIndex(IndexFrom(m, DataStart(m)))
  {
    hide EncodeIndex, IndexFrom, BigEndian, DataBlock;
    PatchKeepsIndexSize(m);
  }

  lemma FitsTableIndex(m: Table)
    requires FitsTable(m)
    ensures FitsIndex(IndexFrom(m, DataStart(m)))
  {
    hide EncodeValue, EncodeIndex, IndexFrom, FileBytes, DataStart, SortedKeys;
    FileParts(m);
    var index := IndexFrom(m, DataStart(m));
    IndexFromKeys(m, DataStart(m));
    RowsFit(index);
    forall k | k in index ensures FitsRow(k, index[k]) {
      ValueAtOffset(m, k);
      RowFits(index, k);
    }
  }

  lemma IndexFromKeys(m: Table, base: nat)
    ensures IndexFrom(m, base).Keys == m.Keys
  {
  }

  lemma RowsFit(index: Index)
    ensures |SortedKeys(index.Keys)| <= |EncodeIndex(index)|
  {
    hide SortedKeys, EncodeRow;
    RowsLong(index, SortedKeys(index.Keys));
  }

  lemma {:induction false} RowsLong(index: Index, ks: seq<Key>)
    requires forall k :: k in ks ==> k in index
    ensures |ks| <= |Concat(RowBytes(index, ks))|
  {
    hide EncodeRow;
    if ks != [] {
      assert forall k :: k in ks[1..] ==> k in ks;
      RowsLong(index, ks[1..]);
      assert RowBytes(index, ks)[1..] == RowBytes(index, ks[1..]);
      assert ks[0] in ks;
      RowLong(ks[0], index[ks[0]]);
    }
  }

  lemma RowLong(k: Key, e: IndexEntry)
    ensures |EncodeRow(k, e)| == 24 + |k|
  {
  }

  lemma RowFits(index: Index, k: Key)
    requires k in index
    ensures |k| <= |EncodeIndex(index)|
  {
    hide SortedKeys, EncodeRow;
    var ks := SortedKeys(index.Keys);
    assert k in ks;
    var i :| 0 <= i < |ks| && ks[i] == k;
    ConcatAt(RowBytes(index, ks), i);
    RowLong(k, index[k]);
  }

  lemma FitsTableValue(m: Table, k: Key)
    requires FitsTable(m) && k in m
    ensures FitsValue(m[k])
  {
    hide FileBytes, EntryOf;
    ValueAtOffset(m, k);
  }

  /** The index comes back exactly when the read delivers at least the index. */
  lemma ReadIndexExact(m: Table, delivered: nat)
    requires FitsTable(m)
    ensures ReadIndex(FileBytes(m), delivered)
         == if delivered >= IndexSize(m) then Ok(IndexFrom(m, DataStart(m))) else Failed
  {
    hide EncodeIndex, DecodeIndex, IndexFrom, FileBytes, IndexSize, FitsTable, FitsIndex, FromBigEndian;
    var file, index := FileBytes(m), IndexFrom(m, DataStart(m));
    FitsTableIndex(m);
    FileParts(m);
    HeaderIsIndexSize(m);
    var n := Min(delivered, IndexSize(m));
    assert file[8..8 + n] == EncodeIndex(index)[..n];
    if delivered >= IndexSize(m) {
      assert EncodeIndex(index)[..n] == EncodeIndex(index) + [];
      IndexRoundTrip(index, []);
    } else {
      TruncatedIndexFails(index, n);
    }
  }

  /** A value comes back exactly when the read delivers at least the value. */
  lemma ReadValueExact(m: Table, k: Key, delivered: nat)
    requires FitsTable(m) && k in m
    ensures var e := EntryOf(m, k);
            ReadValue(FileBytes(m), e, delivered) == if delivered >= e.size then Ok(m[k]) else Failed
  {
    hide EncodeValue, DecodeValue, EntryOf, FileBytes, FitsTable, FitsValue;
    var file, e := FileBytes(m), EntryOf(m, k);
    ValueAtOffset(m, k);
    FitsTableValue(m, k);
    var n := Min(delivered, e.size);
    SliceStart(file, e.offset, n, e.size);
    if delivered >= e.size {
      assert file[e.offset..e.offset + n] == EncodeValue(m[k]) + [];
      ValueRoundTrip(m[k], []);
    } else {
      TruncatedValueFails(m[k], n);
    }
  }

  lemma SliceStart(s: Bytes, start: nat, n: nat, size: nat)
    requires n <= size && start + size <= |s|
    ensures s[start..start + n] == s[start..start + size][..n]
  {
  }

  // ---------------------------------------------------------------- the operations

  /** The rows of a table in a key range, in key order. */
  function RangeRows(m: Table, from: Key, to: Key): seq<(Key, Value)> {
    var ks := SortedKeys(KeyRange(m.Keys, from, to));
    seq(|ks|, i requires 0 <= i < |ks| => assert ks[i] in ks; (ks[i], m[ks[i]]))
  }

  /** How many bytes each single read hands over: the index read, and the value read at each offset. */
  datatype Delivery = Delivery(index: nat, value: nat -> nat)

  /** No read of the index or of a wanted value comes short. */
  predicate DeliversKeys(m: Table, wanted: set<Key>, d: Delivery)
    requires wanted <= m.Keys
  {
    && d.index >= IndexSize(m)
    && forall k :: k in wanted ==> d.value(EntryOf(m, k).offset) >= EntryOf(m, k).size
  }

  /** `search` on the bytes of a file. */
  function SearchFile(file: Bytes, key: Key, d: Delivery): ReadResult<Option<Value>> {
    match ReadIndex(file, d.index)
    case Failed => Failed
    case Ok(index) =>
      if key !in index then Ok(None)
      else match ReadValue(file, index[key], d.value(index[key].offset))
        case Failed => Failed
        case Ok(v) => Ok(Some(v))
  }

  /** On the file of a table it finds the table's entry, or fails exactly when a needed read comes short. */
  lemma SearchFileExact(m: Table, key: Key, d: Delivery)
    requires FitsTable(m)
    ensures SearchFile(FileBytes(m), key, d)
         == if DeliversKeys(m, {key} * m.Keys, d) then Ok(Lookup(m, key)) else Failed
  {
    hide FileBytes, FitsTable, IndexFrom, IndexSize, ReadIndex, ReadValue, DataStart;
    ReadIndexExact(m, d.index);
    IndexFromKeys(m, DataStart(m));
    if key in m { ReadValueExact(m, key, d.value(EntryOf(m, key).offset)); }
  }

  class SSTable {
    var present: bool
    var bytes: Bytes

    /** The file holds a written table. */
    ghost predicate Holds(m: Table)
      reads this
    {
      present && bytes == FileBytes(m) && FitsTable(m)
    }

    constructor ()
      ensures !present
    {
      present, bytes := false, [];
    }

    /** Refuses an existing file; otherwise lays out index and values. */
    method Write(memtable: Table) returns (ok: bool)
      modifies this
      ensures ok <==> !old(present)
      ensures present && bytes == if ok then FileBytes(memtable) else old(bytes)
    {
      hide EncodeIndex, BigEndian, IndexFrom, DataBlock;
      if present { return false; }
      var index := BuildIndex(memtable);
      IndexFromKeys(memtable, 0);
      var indexSize := |EncodeIndex(index)|;
      index := PatchOffsets(index, 8 + indexSize);
      PatchedIndex(memtable, index, 8 + indexSize);
      bytes := BigEndian(indexSize, 8) + EncodeIndex(index);
      present := true;
      AppendValues(memtable);
      ok := true;
    }

    /** The loop that writes the values behind the index, in key order. */
    method AppendValues(memtable: Table)
      modifies this`bytes
      ensures bytes == old(bytes) + DataBlock(memtable)
    {
      hide EncodeValue, SortedKeys, IndexFrom, ValueBytes;
      var ks := SortedKeys(memtable.Keys);
      ghost var parts := ValueBytes(memtable, ks);
      DataBlockParts(memtable);
      assert parts[..0] == [];
      for i := 0 to |ks|
        invariant bytes == old(bytes) + Concat(parts[..i])
      {
        EntryFrom(memtable, 0, i);
        assert parts[..i + 1] == parts[..i] + [parts[i]];
        ConcatPush(parts[..i], parts[i]);
        bytes := bytes + EncodeValue(memtable[ks[i]]);
      }
      assert parts[..|ks|] == parts;
    }

    /** Every reader opens the file with `create`, so a missing file comes into being empty. */
    method Open()
      modifies this
      ensures present && bytes == if old(present) then old(bytes) else []
    {
      if !present { present, bytes := true, []; }
    }

    /** On a written table: the value under the key, unless a needed read comes short. */
    method Search(key: Key, d: Delivery, ghost m: Table) returns (r: ReadResult<Option<Value>>)
      modifies this
      ensures old(present) ==> present && bytes == old(bytes)
      ensures !old(present) ==> r.Failed?
      ensures old(Holds(m)) ==>
                r == if DeliversKeys(m, {key} * m.Keys, d) then Ok(Lookup(m, key)) else Failed
    {
      hide FileBytes, FitsTable, IndexSize, DecodeIndex, DecodeValue, DeliversKeys;
      Open();
      if Holds(m) { SearchFileExact(m, key, d); }
      match ReadIndex(bytes, d.index) {
        case Failed => r := Failed;
        case Ok(index) =>
          if key in index {
            match ReadValue(bytes, index[key], d.value(index[key].offset)) {
              case Failed => r := Failed;
              case Ok(v) => r := Ok(Some(v));
            }
          } else {
            r := Ok(None);
          }
      }
    }

    /** On a written table: the rows of the range in key order, unless a needed read comes short. */
    method Scan(from: Key, to: Key, d: Delivery, ghost m: Table) returns (r: ReadResult<seq<(Key, Value)>>)
      requires !Less(to, from)
      modifies this
      ensures old(present) ==> present && bytes == old(bytes)
      ensures !old(present) ==> r.Failed?
      ensures old(Holds(m)) ==>
                r == if DeliversKeys(m, KeyRange(m.Keys, from, to), d) then Ok(RangeRows(m, from, to)) else Failed
    {
      hide FileBytes, FitsTable, IndexFrom, IndexSize, DecodeIndex, DecodeValue, DataStart, SortedKeys, ReadValue;
      Open();
      if Holds(m) { ReadIndexExact(m, d.index); }
      IndexFromKeys(m, DataStart(m));
      match ReadIndex(bytes, d.index) {
        case Failed => return Failed;
        case Ok(index) =>
          var ks := SortedKeys(KeyRange(index.Keys, from, to));
          var result := [];
          for i := 0 to |ks|
            invariant present && bytes == if old(present) then old(bytes) else []
            invariant Holds(m) ==> result == RangeRows(m, from, to)[..i]
            invariant Holds(m) ==> forall j :: 0 <= j < i ==>
                        ks[j] in m && d.value(EntryOf(m, ks[j]).offset) >= EntryOf(m, ks[j]).size
          {
            assert ks[i] in ks;
            assert Holds(m) ==> ks[i] in KeyRange(m.Keys, from, to);
            if Holds(m) { ReadValueExact(m, ks[i], d.value(EntryOf(m, ks[i]).offset)); }
            match ReadValue(bytes, index[ks[i]], d.value(index[ks[i]].offset)) {
              case Failed => return Failed;
              case Ok(v) => result := result + [(ks[i], v)];
            }
          }
          if Holds(m) {
            forall k | k in KeyRange(m.Keys, from, to)
              ensures d.value(EntryOf(m, k).offset) >= EntryOf(m, k).size
            {
              assert k in ks;
            }
            assert RangeRows(m, from, to)[..|ks|] == RangeRows(m, from, to);
          }
          r := Ok(result);
      }
    }

    /** On a written table: its keys in order, unless the index read comes short. */
    method Keys(d: Delivery, ghost m: Table) returns (r: ReadResult<seq<Key>>)
      modifies this
      ensures old(present) ==> present && bytes == old(bytes)
      ensures !old(present) ==> r.Failed?
      ensures old(Holds(m)) ==>
                r == if d.index >= IndexSize(m) then Ok(SortedKeys(m.Keys)) else Failed
    {
      hide FileBytes, FitsTable, IndexFrom, IndexSize, DecodeIndex, DataStart, SortedKeys;
      Open();
      if Holds(m) { ReadIndexExact(m, d.index); }
      IndexFromKeys(m, DataStart(m));
      match ReadIndex(bytes, d.index) {
        case Failed => r := Failed;
        case Ok(index) => r := Ok(SortedKeys(index.Keys));
      }
    }
  }

  /** First pass of `write`: offsets from the start of the data block. */
  method BuildIndex(memtable: Table) returns (index: Index)
    ensures index == IndexFrom(memtable, 0)
  {
    hide EncodeValue, SortedKeys, IndexFrom, ValueBytes, StrictlySorted, Concat;
    ConcatNone();
    IndexFromKeys(memtable, 0);
    DataBlockParts(memtable);
    var ks := SortedKeys(memtable.Keys);
    var offset := 0;
    index := map[];
    ghost var parts := ValueBytes(memtable, ks);
    assert parts[..0] == [];
    for i := 0 to |ks|
      invariant offset == |Concat(parts[..i])|
      invariant forall k :: k in index <==> k in ks[..i]
      invariant forall k :: k in index ==> k in memtable && index[k] == IndexFrom(memtable, 0)[k]
    {
      EntryFrom(memtable, 0, i);
      var size := |EncodeValue(memtable[ks[i]])|;
      index := index[ks[i] := IndexEntry(offset, size)];
      assert ks[..i + 1] == ks[..i] + [ks[i]];
      ConcatAt(parts, i);
      offset := offset + size;
    }
    assert ks[..|ks|] == ks;
  }

  /** Second pass of `write`: offsets from the start of the file. */
  method PatchOffsets(index: Index, shift: nat) returns (patched: Index)
    ensures patched.Keys == index.Keys
    ensures forall k :: k in index ==> patched[k] == IndexEntry(index[k].offset + shift, index[k].size)
  {
    hide SortedKeys, Less;
    var ks := SortedKeys(index.Keys);
    ghost var done: set<Key> := {};
    patched := index;
    for i := 0 to |ks|
      invariant patched.Keys == index.Keys
      invariant forall k :: k in done <==> exists j :: 0 <= j < i && ks[j] == k
      invariant forall k :: k in index ==>
                  patched[k] == if k in done then IndexEntry(index[k].offset + shift, index[k].size) else index[k]
    {
      LessIrreflexive(ks[i]);
      assert ks[i] in ks && ks[i] !in done;
      patched := patched[ks[i] := patched[ks[i]].(offset := patched[ks[i]].offset + shift)];
      done := done + {ks[i]};
    }
    assert forall k :: k in index ==> k in ks && k in done;
  }

  lemma PatchedIndex(m: Table, patched: Index, shift: nat)
    requires patched.Keys == m.Keys
    requires forall k :: k in m ==>
               patched[k] == IndexEntry(IndexFrom(m, 0)[k].offset + shift, IndexFrom(m, 0)[k].size)
    ensures patched == IndexFrom(m, shift)
  {
    hide EncodeValue, BytesBefore;
  }
}
