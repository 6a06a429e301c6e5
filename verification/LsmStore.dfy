/** The store as an object: the code's loops, proved against the small steps and the plain map. */
module LsmStore {
  import opened Bytes
  import opened Store
  import opened Tables
  import opened CommitLog
  import opened FileNames
  import opened SSTables
  import opened Lsm
  import opened LsmReplay
  import opened LsmReaders
  import opened LsmRecovery
  import opened LsmFiles

  function Ids(txs: seq<Transaction>): seq<Uuid> {
    seq(|txs|, i requires 0 <= i < |txs| => txs[i].id)
  }

  lemma IdsLength(txs: seq<Transaction>)
    ensures |Ids(txs)| == |txs|
  {
  }

  function EndLines(ids: seq<Uuid>): seq<Line> {
    seq(|ids|, i requires 0 <= i < |ids| => EndTx(ids[i]))
  }

  /** `Ok(None)`, the error for an existing file, or `Ok(Some(path))`. */
  datatype FlushResult = Nothing | Refused | Flushed(name: Name)

  /** The answer as the disk shows it: a name is flushed if and only if it is a table now and was none before, and
      then that table is the old memtable; nothing was to be done if and only if the memtable was empty; unless a
      table was flushed, nothing has changed. */
  ghost predicate IsFlushAnswer(s: State, s': State, name: Name, result: FlushResult)
    requires s.memory.Some?
  {
    var before, after := s.disk.tables, s'.disk.tables;
    && (forall n :: result == Flushed(n) <==> n in after && n !in before)
    && (result.Nothing? <==> s.memory.value.memtable == map[])
    && (result.Flushed? ==> result.name == name && after == before[name := s.memory.value.memtable])
    && (result.Refused? ==> name in before)
    && (!result.Flushed? ==> s' == s)
  }

  lemma NothingAnswer(s: State, name: Name)
    requires s.memory.Some? && s.memory.value.memtable == map[]
    ensures IsFlushAnswer(s, s, name, Nothing)
  {
  }

  lemma RefusedAnswer(s: State, name: Name)
    requires s.memory.Some? && s.memory.value.memtable != map[] && name in s.disk.tables
    ensures IsFlushAnswer(s, s, name, Refused)
  {
  }

  lemma FlushedAnswer(s: State, s': State, name: Name)
    requires s.memory.Some? && s.memory.value.memtable != map[] && name !in s.disk.tables
    requires s'.disk.tables == s.disk.tables[name := s.memory.value.memtable]
    ensures IsFlushAnswer(s, s', name, Flushed(name))
  {
  }

  function Repeat(a: Action, n: nat): seq<Action> {
    seq(n, _ => a)
  }

  /** The small steps of one complete flush. */
  function FlushSteps(s: State, millis: nat): seq<Action>
    requires s.memory.Some?
  {
    if s.memory.value.memtable == map[] || SstName(millis) in s.disk.tables then [WriteTable(millis)]
    else [WriteTable(millis), AddFilter, ClearMemtable] + Repeat(AppendEnd, |s.memory.value.batch|) + [FinishFlush]
  }

  function AfterFlush(s: State, millis: nat): State
    requires s.memory.Some?
  {
    var d, m, name := s.disk, s.memory.value, SstName(millis);
    if m.memtable == map[] || name in d.tables then s
    else
      State(d.(tables := d.tables[name := m.memtable],
               log := d.log + EndLines(Ids(m.batch)),
               clock := d.clock + |m.batch|,
               logTime := if m.batch == [] then d.logTime else d.clock + |m.batch|),
            Some(m.(memtable := map[], batch := [], filters := m.filters[name := m.memtable.Keys], flush := Idle)),
            s.acked, s.origin[name := m.batch])
  }

  lemma AfterFlushReadable(s: State, millis: nat)
    requires Readable(s)
    ensures Readable(AfterFlush(s, millis))
  {
    hide SstName;
  }

  /** A flush, then the index is saved. */
  function AfterShutdown(s: State, millis: nat): State
    requires Readable(s)
  {
    AfterFlushReadable(s, millis);
    Do(AfterFlush(s, millis), WriteBloomFile)
  }

  lemma NoFlush(s: State, millis: nat)
    requires s.memory.Some? && (s.memory.value.memtable == map[] || SstName(millis) in s.disk.tables)
    ensures AfterFlush(s, millis) == s
  {
    hide SstName;
  }

  lemma FlushedState(s: State, s': State, millis: nat)
    requires Readable(s) && s.memory.value.memtable != map[] && SstName(millis) !in s.disk.tables
    requires var d, m, name := s.disk, s.memory.value, SstName(millis);
             && s'.disk == Disk(d.log + EndLines(Ids(m.batch)), d.tables[name := m.memtable], d.bloomFile,
                                if m.batch == [] then d.logTime else d.clock + |m.batch|, d.clock + |m.batch|)
             && s'.memory == Some(Memory(map[], [], m.filters[name := m.memtable.Keys], m.pending, Idle))
             && s'.acked == s.acked && s'.origin == s.origin[name := m.batch]
    ensures s' == AfterFlush(s, millis)
  {
    hide SstName, Ids, EndLines;
  }

  /** From the middle of the ends of a flush to its completion. */
  lemma {:induction false} EndsRun(s: State, left: nat)
    requires s.memory.Some? && s.memory.value.flush.Ending?
    requires s.memory.value.flush.ended + left == |s.memory.value.batch|
    ensures Legal(s, Repeat(AppendEnd, left) + [FinishFlush])
    ensures var d, m := s.disk, s.memory.value;
            Final(s, Repeat(AppendEnd, left) + [FinishFlush])
            == s.(disk := d.(log := d.log + EndLines(Ids(m.batch))[m.flush.ended..],
                             clock := d.clock + left,
                             logTime := if left == 0 then d.logTime else d.clock + left),
                  memory := Some(m.(batch := [], flush := Idle)))
    decreases left
  {
    hide Legal, Final;
    var d, m := s.disk, s.memory.value;
    var ends := EndLines(Ids(m.batch));
    if left == 0 {
      assert Repeat(AppendEnd, left) + [FinishFlush] == [FinishFlush] + [];
      LegalNone(Do(s, FinishFlush));
      LegalPair(s, FinishFlush, []);
      assert d.log + ends[m.flush.ended..] == d.log;
    } else {
      var rest := Repeat(AppendEnd, left - 1) + [FinishFlush];
      assert Repeat(AppendEnd, left) + [FinishFlush] == [AppendEnd] + rest;
      var s' := Do(s, AppendEnd);
      EndsRun(s', left - 1);
      LegalPair(s, AppendEnd, rest);
      assert d.log + ends[m.flush.ended..] == s'.disk.log + ends[m.flush.ended + 1..];
    }
  }

  /** A complete flush is exactly its small steps, one after another. */
  lemma FlushRun(s: State, millis: nat)
    requires Readable(s) && NotOlder(s.disk.tables, SstName(millis))
    ensures Legal(s, FlushSteps(s, millis))
    ensures Final(s, FlushSteps(s, millis)) == AfterFlush(s, millis)
  {
    hide Legal, Final, SstName, NotOlder;
    var d, m := s.disk, s.memory.value;
    var s1 := Do(s, WriteTable(millis));
    if m.memtable == map[] || SstName(millis) in d.tables {
      LegalNone(s1);
      LegalPair(s, WriteTable(millis), []);
      assert [WriteTable(millis)] + [] == [WriteTable(millis)];
    } else {
      var n := |m.batch|;
      var ends := Repeat(AppendEnd, n) + [FinishFlush];
      var s2 := Do(s1, AddFilter);
      var s3 := Do(s2, ClearMemtable);
      EndsRun(s3, n);
      LegalPair(s2, ClearMemtable, ends);
      LegalPair(s1, AddFilter, [ClearMemtable] + ends);
      LegalPair(s, WriteTable(millis), [AddFilter] + ([ClearMemtable] + ends));
      assert FlushSteps(s, millis) == [WriteTable(millis)] + ([AddFilter] + ([ClearMemtable] + ends));
      assert EndLines(Ids(m.batch))[0..] == EndLines(Ids(m.batch));
    }
  }

  /** A flush moves entries from the memtable to the youngest table; what lies on top stays on top. */
  lemma FlushKeepsLive(s: State, millis: nat)
    requires Readable(s) && NotOlder(s.disk.tables, SstName(millis))
    ensures AfterFlush(s, millis).memory.Some?
    ensures LiveTable(AfterFlush(s, millis)) == LiveTable(s)
  {
    hide Overlay, SstName, NotOlder;
    var d, m, name := s.disk, s.memory.value, SstName(millis);
    if m.memtable != map[] && name !in d.tables {
      OverlayAdd(d.tables, name, m.memtable);
    }
  }

  // ---------------------------------------------------------------- the object

  class LSMStore {
    var disk: Disk
    var memtable: Table
    var txIds: seq<Uuid>
    var filters: Filters
    var isShutdown: bool
    /** History, as in `Lsm.State`. */
    ghost var batch: seq<Transaction>
    ghost var acked: set<Transaction>
    ghost var origin: map<Name, seq<Transaction>>

    ghost predicate Valid()
      reads this
    {
      txIds == Ids(batch)
    }

    ghost function Snapshot(): State
      reads this
    {
      State(disk, Some(Memory(memtable, batch, filters, {}, Idle)), acked, origin)
    }

    /** The plain map readers are meant to see. */
    ghost function View(): map<Key, Bytes>
      reads this`disk, this`memtable
    {
      Visible(Overlay(disk.tables) + memtable)
    }

    /** A process starts on what earlier ones left on disk, with their history. */
    constructor (d: Disk, ghost acked: set<Transaction>, ghost origin: map<Name, seq<Transaction>>)
      ensures disk == d && memtable == map[] && txIds == [] && batch == [] && filters == map[] && !isShutdown && Valid()
      ensures this.acked == acked && this.origin == origin
    {
      disk, memtable, txIds, filters, isShutdown := d, map[], [], map[], false;
      this.batch, this.acked, this.origin := [], acked, origin;
    }

    /** The state before start-up: only the disk and the history. */
    ghost function Down(): State
      reads this
    {
      State(disk, None, acked, origin)
    }

    /** The state one recovery step later. */
    ghost function Up(): State
      reads this
    {
      Do(Down(), Recover)
    }

    /** `do_transact`; replay skips the log write and answers nobody. */
    method DoTransact(tx: Transaction, logCommit: bool)
      requires Valid()
      modifies this
      ensures Valid() && filters == old(filters) && isShutdown == old(isShutdown)
      ensures origin == old(origin)
      ensures disk == if logCommit then AppendLine(old(disk), BeginTx(tx)) else old(disk)
      ensures memtable == old(memtable) + Effects(tx.operations)
      ensures batch == old(batch) + [tx] && acked == if logCommit then old(acked) + {tx} else old(acked)
    {
      if logCommit {
        disk := AppendLine(disk, BeginTx(tx));
        acked := acked + {tx};
      }
      txIds := txIds + [tx.id];
      batch := batch + [tx];
      ApplyToMemtable(tx.operations);
    }

    method ApplyToMemtable(ops: seq<Operation>)
      modifies this`memtable
      ensures memtable == old(memtable) + Effects(ops)
    {
      assert ops[..0] == [];
      for i := 0 to |ops|
        invariant memtable == old(memtable) + Effects(ops[..i])
      {
        assert ops[..i + 1][..i] == ops[..i];
        match ops[i]
        case Set(key, value) => memtable := memtable[key := Data(value)];
        case Delete(key) => memtable := memtable[key := Tombstone];
      }
      assert ops[..|ops|] == ops;
    }

    /** `transact`: what the transaction does to a plain map, whatever has been flushed; and, when its id is
        new, exactly the steps that log and apply it. */
    method Transact(tx: Transaction)
      requires Valid()
      modifies this
      ensures Valid() && isShutdown == old(isShutdown) && View() == ApplyOps(old(View()), tx.operations)
      ensures memtable == old(memtable) + Effects(tx.operations)
      ensures filters == old(filters) && disk == AppendLine(old(disk), BeginTx(tx)) && origin == old(origin)
      ensures batch == old(batch) + [tx] && acked == old(acked) + {tx}
      ensures old(FreshId(disk.log, tx.id)) ==>
                && Legal(old(Snapshot()), [Begin(tx), Apply(tx)])
                && Snapshot() == Final(old(Snapshot()), [Begin(tx), Apply(tx)])
    {
      hide Visible, Overlay, Effects, ApplyOps;
      ghost var s := Snapshot();
      VisibleApply(Overlay(disk.tables) + memtable, tx.operations);
      DoTransact(tx, true);
      assert Overlay(disk.tables) + memtable
          == Overlay(s.disk.tables) + s.memory.value.memtable + Effects(tx.operations);
      if FreshId(s.disk.log, tx.id) {
        TransactRun(s, tx);
        assert Snapshot() == Do(Do(s, Begin(tx)), Apply(tx));
      }
    }

    /** `write_sstable` at a given time. Nothing happens on an empty memtable or on a file that exists;
        otherwise the store makes all the steps of a flush. A clock that does not run backwards makes the
        flush invisible. */
    method WriteSSTable(millis: nat) returns (result: FlushResult)
      requires Valid()
      modifies this
      ensures Valid() && isShutdown == old(isShutdown) && Snapshot() == AfterFlush(old(Snapshot()), millis)
      ensures IsFlushAnswer(old(Snapshot()), Snapshot(), SstName(millis), result)
      ensures old(NotOlder(disk.tables, SstName(millis))) ==>
                && View() == old(View())
                && Legal(old(Snapshot()), old(FlushSteps(Snapshot(), millis)))
                && Snapshot() == Final(old(Snapshot()), old(FlushSteps(Snapshot(), millis)))
    {
      hide SstName, Visible, Legal, Final, NotOlder, FlushSteps, Overlay, AfterFlush;
      ghost var s := Snapshot();
      result := Flush(millis);
      if NotOlder(s.disk.tables, SstName(millis)) {
        FlushRun(s, millis);
        FlushKeepsLive(s, millis);
      }
    }

    method Flush(millis: nat) returns (result: FlushResult)
      requires Valid()
      modifies this
      ensures Valid() && isShutdown == old(isShutdown) && Snapshot() == AfterFlush(old(Snapshot()), millis)
      ensures IsFlushAnswer(old(Snapshot()), Snapshot(), SstName(millis), result)
    {
      hide SstName, Ids, EndLines, AfterFlush, IsFlushAnswer;
      ghost var s := Snapshot();
      IdsLength(batch);
      IdsLength([]);
      var name := SstName(millis);
      if memtable == map[] || name in disk.tables { NoFlush(s, millis); }
      if memtable == map[] { NothingAnswer(s, name); return Nothing; }
      if name in disk.tables { RefusedAnswer(s, name); return Refused; }
      disk := disk.(tables := disk.tables[name := memtable]);
      var inserted := InsertKeys(memtable.Keys);
      filters := filters[name := inserted];
      memtable := map[];
      EndAll();
      origin := origin[name := batch];
      txIds, batch := [], [];
      result := Flushed(name);
      FlushedState(s, Snapshot(), millis);
      FlushedAnswer(s, Snapshot(), name);
    }

    /** The loop that ends every transaction of the batch. */
    method EndAll()
      modifies this`disk
      ensures disk == old(disk).(log := old(disk).log + EndLines(txIds),
                                 clock := old(disk).clock + |txIds|,
                                 logTime := if txIds == [] then old(disk).logTime else old(disk).clock + |txIds|)
    {
      for i := 0 to |txIds|
        invariant disk == old(disk).(log := old(disk).log + EndLines(txIds)[..i],
                                     clock := old(disk).clock + i,
                                     logTime := if i == 0 then old(disk).logTime else old(disk).clock + i)
      {
        assert EndLines(txIds)[..i + 1] == EndLines(txIds)[..i] + [EndTx(txIds[i])];
        disk := AppendLine(disk, EndTx(txIds[i]));
      }
      assert EndLines(txIds)[..|txIds|] == EndLines(txIds);
    }

    /** `write_bloom_map`: an empty index is not written. */
    method SaveBloomMap()
      requires Valid()
      modifies this
      ensures Valid() && isShutdown == old(isShutdown) && View() == old(View())
      ensures Legal(old(Snapshot()), [WriteBloomFile])
      ensures Snapshot() == Final(old(Snapshot()), [WriteBloomFile])
      ensures memtable == old(memtable) && filters == old(filters)
      ensures filters != map[] ==>
                && disk.bloomFile == Some(BloomFile(filters, old(disk.clock) + 1))
                && disk.logTime == old(disk.logTime)
      ensures disk.clock >= old(disk.clock)
    {
      hide Overlay, Visible;
      ghost var s := Snapshot();
      SingleStep(s, WriteBloomFile);
      if filters == map[] { return; }
      disk := disk.(bloomFile := Some(BloomFile(filters, disk.clock + 1)), clock := disk.clock + 1);
    }

    /** `shutdown`: mark the store as shut down, flush, then save the index; a refused flush stops it with an
        error, and the mark stays. Afterwards all data is in tables, and with a clock that does not run
        backwards no reader sees a difference. */
    method Shutdown(millis: nat) returns (ok: bool)
      requires Valid()
      modifies this
      ensures Valid() && isShutdown
      ensures !ok <==> old(memtable != map[] && SstName(millis) in disk.tables)
      ensures ok ==> memtable == map[]
      ensures ok && filters != map[] && old(disk.logTime <= disk.clock) ==>
                AcceptsBloomFile(disk) && disk.bloomFile.value.filters == filters
      ensures Snapshot() == if ok then AfterShutdown(old(Snapshot()), millis) else old(Snapshot())
      ensures old(NotOlder(disk.tables, SstName(millis))) ==> View() == old(View())
    {
      hide View, Visible, SstName, NotOlder, FlushSteps, Legal, Final, Ids, EndLines;
      isShutdown := true;
      var result := WriteSSTable(millis);
      if result.Refused? { return false; }
      ghost var s := Snapshot();
      SingleStep(s, WriteBloomFile);
      SaveBloomMap();
      ok := true;
    }

    /** `get`, searching the files of the filtered tables newest first. When the reads it needs are whole, it
        returns what the model of `get` on tables says. */
    method Get(k: Key, noise: (Name, Key) -> bool, reading: Reads) returns (r: ReadResult<Option<Bytes>>)
      requires filters.Keys <= disk.tables.Keys
      ensures r == GetFromFiles(Snapshot(), noise, k, reading)
      ensures TablesFit(disk.tables) && r.Ok? ==> r.value == LsmReaders.Get(Snapshot(), noise, k)
    {
      hide SortedKeys, FileBytes, SearchFile, TablesFit, DeliversSearch, LsmReaders.Get;
      if TablesFit(disk.tables) { GetFromFilesExact(Snapshot(), noise, k, reading); }
      var v := if k in memtable then memtable[k].AsOption() else None;
      if v.Some? { return Ok(v); }
      var names := Reverse(SortedKeys(MayContain(filters, noise, k)));
      var i := 0;
      while i < |names|
        invariant 0 <= i <= |names|
        invariant forall n :: n in names ==> n in disk.tables
        invariant forall n :: n in names[i..] ==> n in names
        invariant SearchFiles(disk.tables, names, k, reading) == SearchFiles(disk.tables, names[i..], k, reading)
      {
        assert names[i] in names && names[i..][0] == names[i] && names[i..][1..] == names[i + 1..];
        match SearchFile(FileBytes(disk.tables[names[i]]), k, reading.table(names[i])) {
          case Failed => return Failed;
          case Ok(Some(found)) => return Ok(found.AsOption());
          case Ok(None) => i := i + 1;
        }
      }
      r := Ok(None);
    }

    /** `scan`: the ranges of the table files oldest first, then the memtable's, then the data that is left.
        It returns what a plain map with the visible contents would, or fails exactly when a read of a table
        in its range comes short. */
    method Scan(from: Key, to: Key, reading: Reads) returns (r: ReadResult<seq<Bytes>>)
      requires !Less(to, from)
      ensures TablesFit(disk.tables) ==>
                r == if DeliversRange(disk.tables, from, to, reading) then Ok(ScanValues(View(), from, to)) else Failed
    {
      hide SortedKeys, Visible, Restrict, DataValues, ScanValues, Overlay, TablesFit, DeliversRange;
      hide RangeRows, InsertAll;
      var tables := ScanSSTables(from, to, reading);
      if tables.Failed? { return Failed; }
      var kvs := InsertRows(tables.value, RangeRows(memtable, from, to));
      InsertAllRange(tables.value, memtable, from, to);
      if TablesFit(disk.tables) {
        ghost var live := Overlay(disk.tables) + memtable;
        RestrictOverlay(Overlay(disk.tables), memtable, from, to);
        RestrictKeys(live, from, to);
        ScanRefinesPlainScan(live, from, to);
        DataAgrees(live, kvs, SortedKeys(kvs.Keys));
      }
      var values := CollectData(kvs);
      r := Ok(values);
    }

    method ScanSSTables(from: Key, to: Key, reading: Reads) returns (r: ReadResult<Table>)
      requires !Less(to, from)
      ensures TablesFit(disk.tables) ==>
                r == if DeliversRange(disk.tables, from, to, reading)
                     then Ok(Restrict(Overlay(disk.tables), from, to)) else Failed
    {
      hide SortedKeys, Restrict, TablesFit, FitsTable, DeliversKeys, RangeRows, InsertAll, Merge;
      MergeEmpty();
      var names := SortedKeys(disk.tables.Keys);
      var kvs: Table := map[];
      ghost var fits, stack := TablesFit(disk.tables), Stack(disk.tables, names);
      assert stack[..0] == [];
      RestrictNothing(from, to);
      for i := 0 to |names|
        invariant fits ==> kvs == Restrict(Merge(stack[..i]), from, to)
        invariant fits ==> forall n :: n in names[..i] ==>
                    n in disk.tables && DeliversFrom(disk.tables, n, from, to, reading)
      {
        var t := disk.tables[names[i]];
        assert names[i] in names && names[..i + 1] == names[..i] + [names[i]];
        if fits { TableFits(disk.tables, names[i]); }
        var rows := ReadRange(t, from, to, reading.table(names[i]));
        if rows.Failed? { return Failed; }
        kvs := InsertRows(kvs, rows.value);
        if fits {
          InsertAllRange(Restrict(Merge(stack[..i]), from, to), t, from, to);
          RestrictOverlay(Merge(stack[..i]), t, from, to);
          assert stack[..i + 1] == stack[..i] + [stack[i]];
          MergePush(stack[..i], stack[i]);
        }
      }
      assert stack[..|names|] == stack && names[..|names|] == names;
      r := Ok(kvs);
    }

    /** `restore_bloom_map`: the file's index, unless the log is younger; then one rebuilt from the tables. */
    method RestoreBloomMap(reading: Reads) returns (ok: bool)
      modifies this`filters
      ensures ok <==> LoadFilters(disk, reading).Some?
      ensures filters == if ok then LoadFilters(disk, reading).value else old(filters)
    {
      hide LoadIndex;
      if disk.bloomFile.Some? && !(disk.logTime > disk.bloomFile.value.time) {
        filters := disk.bloomFile.value.filters;
        return true;
      }
      var rebuilt := ReconstructBloomMap(reading);
      match rebuilt {
        case None => ok := false;
        case Some(f) => filters := f; ok := true;
      }
    }

    /** `reconstruct_bloom_map_from_sstables`: the keys of every table file, or nothing when one cannot be read. */
    method ReconstructBloomMap(reading: Reads) returns (result: Option<Filters>)
      ensures result.None? <==> exists n :: n in disk.tables && LoadIndex(disk, n, reading).Failed?
      ensures result.Some? ==> result.value.Keys == disk.tables.Keys
      ensures result.Some? ==>
                forall n :: n in disk.tables ==> result.value[n] == LoadIndex(disk, n, reading).value.Keys
    {
      hide SortedKeys, LoadIndex;
      var names := SortedKeys(disk.tables.Keys);
      var f: Filters := map[];
      for i := 0 to |names|
        invariant forall n :: n in f <==> n in names[..i]
        invariant forall n :: n in f ==>
                    && n in disk.tables && LoadIndex(disk, n, reading).Ok?
                    && f[n] == LoadIndex(disk, n, reading).value.Keys
      {
        assert names[i] in names && names[..i + 1] == names[..i] + [names[i]];
        var index := LoadIndex(disk, names[i], reading);
        if index.Failed? { return None; }
        var bloom := InsertKeys(index.value.Keys);
        f := f[names[i] := bloom];
      }
      assert names[..|names|] == names;
      result := Some(f);
    }

    /** `initialize` in a new process, from the bytes of the files. It comes up if and only if none of its reads
        comes short, and then it has made exactly the recovery step. */
    method Initialize(reading: Reads) returns (ok: bool)
      requires memtable == map[] && txIds == [] && batch == []
      modifies this
      ensures Valid() && Down() == old(Down()) && isShutdown == old(isShutdown)
      ensures ok <==> StartUp(disk, reading).Some?
      ensures if ok then Snapshot().memory == StartUp(disk, reading) else memtable == map[] && txIds == []
      ensures FitsDisk(disk) ==>
                (ok <==> StartsUp(disk, reading)) && (ok ==> Snapshot() == Up())
    {
      hide Replay, Effects, Unfinished, Visible, Overlay, KeySets, LoadFilters, ReadLog, EncodeAll, FitsDisk, StartsUp;
      if FitsDisk(disk) { StartUpExact(disk, reading); }
      ok := RestoreBloomMap(reading);
      if !ok { return; }
      var found := ReadUnfinished(reading.log);
      if found.None? { return false; }
      var txs := found.value;
      ReplayNone();
      assert txs[..0] == [];
      for i := 0 to |txs|
        invariant Down() == old(Down()) && isShutdown == old(isShutdown)
        invariant batch == txs[..i] && Valid() && memtable == Replay(txs[..i])
        invariant filters == LoadFilters(disk, reading).value
      {
        ReplayPush(txs[..i], txs[i]);
        assert txs[..i + 1] == txs[..i] + [txs[i]];
        DoTransact(txs[i], false);
      }
      assert txs[..|txs|] == txs;
    }

    method ReadUnfinished(delivers: nat -> nat) returns (found: Option<seq<Transaction>>)
      ensures found == match ReadLog(EncodeAll(disk.log), delivers)
                       case Whole(lines) => Some(Unfinished(lines))
                       case Broken(_) => None
    {
      hide ReadLog, EncodeAll, Unfinished;
      var file := new LogFile();
      file.bytes := EncodeAll(disk.log);
      found := file.GetUnfinishedTransactions(delivers);
    }
  }

  lemma SingleStep(s: State, a: Action)
    requires Enabled(s, a)
    ensures Legal(s, [a]) && Final(s, [a]) == Do(s, a)
  {
    hide Do, Enabled;
    LegalNone(Do(s, a));
    LegalPair(s, a, []);
    assert [a] + [] == [a];
  }

  lemma TransactRun(s: State, tx: Transaction)
    requires Readable(s) && FreshId(s.disk.log, tx.id)
    ensures Legal(s, [Begin(tx), Apply(tx)])
    ensures Enabled(s, Begin(tx)) && Enabled(Do(s, Begin(tx)), Apply(tx))
    ensures Final(s, [Begin(tx), Apply(tx)]) == Do(Do(s, Begin(tx)), Apply(tx))
  {
    hide Effects;
    var s1 := Do(s, Begin(tx));
    var s2 := Do(s1, Apply(tx));
    LegalNone(s2);
    LegalPair(s1, Apply(tx), []);
    assert [Apply(tx)] + [] == [Apply(tx)];
    LegalPair(s, Begin(tx), [Apply(tx)]);
    assert [Begin(tx)] + [Apply(tx)] == [Begin(tx), Apply(tx)];
  }

  // ---------------------------------------------------------------- ranges

  function Restrict(t: Table, from: Key, to: Key): Table {
    map k | k in t && k in KeyRange(t.Keys, from, to) :: t[k]
  }

  lemma RestrictNothing(from: Key, to: Key)
    ensures Restrict(map[], from, to) == map[]
  {
  }

  lemma RestrictKeys(t: Table, from: Key, to: Key)
    ensures Restrict(t, from, to).Keys == KeyRange(t.Keys, from, to)
    ensures forall k :: k in Restrict(t, from, to) ==> k in t && Restrict(t, from, to)[k] == t[k]
  {
  }

  lemma RestrictOverlay(a: Table, b: Table, from: Key, to: Key)
    ensures Restrict(a + b, from, to) == Restrict(a, from, to) + Restrict(b, from, to)
  {
  }

  function Pick(t: Table, ks: seq<Key>): Table
    requires forall k :: k in ks ==> k in t
  {
    map k | k in ks :: t[k]
  }

  lemma PickPush(kvs: Table, t: Table, ks: seq<Key>, i: nat)
    requires i < |ks| && forall k :: k in ks ==> k in t
    ensures ks[i] in ks && forall k :: k in ks[..i] || k in ks[..i + 1] ==> k in ks
    ensures (kvs + Pick(t, ks[..i]))[ks[i] := t[ks[i]]] == kvs + Pick(t, ks[..i + 1])
  {
    assert forall k :: k in ks[..i + 1] <==> k in ks[..i] || k == ks[i] by {
      assert ks[..i + 1] == ks[..i] + [ks[i]];
    }
  }

  lemma PickRange(t: Table, from: Key, to: Key)
    ensures var ks := SortedKeys(KeyRange(t.Keys, from, to));
            (forall k :: k in ks ==> k in t) && Pick(t, ks) == Restrict(t, from, to)
  {
    hide SortedKeys, Less;
  }

  function InsertAll(kvs: Table, rows: seq<(Key, Value)>): Table {
    if rows == [] then kvs
    else
      var l := |rows| - 1;
      InsertAll(kvs, rows[..l])[rows[l].0 := rows[l].1]
  }

  method InsertRows(kvs: Table, rows: seq<(Key, Value)>) returns (r: Table)
    ensures r == InsertAll(kvs, rows)
  {
    r := kvs;
    for i := 0 to |rows|
      invariant r == InsertAll(kvs, rows[..i])
    {
      assert rows[..i + 1][..i] == rows[..i];
      r := r[rows[i].0 := rows[i].1];
    }
    assert rows[..|rows|] == rows;
  }

  /** Inserting the rows of a range overlays the table's entries in that range. */
  lemma InsertAllRange(kvs: Table, t: Table, from: Key, to: Key)
    ensures InsertAll(kvs, RangeRows(t, from, to)) == kvs + Restrict(t, from, to)
  {
    hide SortedKeys, KeyRange, Pick, Restrict, InsertAll;
    var rows, ks := RangeRows(t, from, to), SortedKeys(KeyRange(t.Keys, from, to));
    PickRange(t, from, to);
    InsertFirst(kvs, t, ks, rows, |ks|);
    assert ks[..|ks|] == ks && rows[..|ks|] == rows;
  }

  lemma {:induction false} InsertFirst(kvs: Table, t: Table, ks: seq<Key>, rows: seq<(Key, Value)>, i: nat)
    requires i <= |ks| == |rows| && forall k :: k in ks ==> k in t
    requires forall j :: 0 <= j < |ks| ==> ks[j] in t && rows[j] == (ks[j], t[ks[j]])
    ensures forall k :: k in ks[..i] ==> k in t
    ensures InsertAll(kvs, rows[..i]) == kvs + Pick(t, ks[..i])
    decreases i
  {
    hide Pick;
    if i == 0 {
      PickNothing(kvs, t);
      assert ks[..0] == [] && rows[..0] == [];
    } else {
      InsertFirst(kvs, t, ks, rows, i - 1);
      PickPush(kvs, t, ks, i - 1);
      assert rows[..i][..i - 1] == rows[..i - 1];
    }
  }

  /** A scan of one table file. */
  method ReadRange(t: Table, from: Key, to: Key, d: Delivery) returns (r: ReadResult<seq<(Key, Value)>>)
    requires !Less(to, from)
    ensures FitsTable(t) ==>
              r == if DeliversKeys(t, KeyRange(t.Keys, from, to), d) then Ok(RangeRows(t, from, to)) else Failed
  {
    hide FileBytes, FitsTable, DeliversKeys, RangeRows, KeyRange;
    var file := new SSTable();
    file.present, file.bytes := true, FileBytes(t);
    r := file.Scan(from, to, d, t);
  }

  lemma PickNothing(kvs: Table, t: Table)
    ensures kvs + Pick(t, []) == kvs
  {
  }

  method InsertKeys(keys: set<Key>) returns (bloom: set<Key>)
    ensures bloom == keys
  {
    hide SortedKeys;
    var ks := SortedKeys(keys);
    bloom := {};
    for i := 0 to |ks|
      invariant forall k :: k in bloom <==> k in ks[..i]
    {
      assert ks[..i + 1] == ks[..i] + [ks[i]];
      bloom := bloom + {ks[i]};
    }
    assert ks[..|ks|] == ks;
  }

  method CollectData(t: Table) returns (values: seq<Bytes>)
    ensures values == DataValues(t, SortedKeys(t.Keys))
  {
    hide SortedKeys;
    var ks := SortedKeys(t.Keys);
    values := [];
    assert ks[..0] == [];
    for i := 0 to |ks|
      invariant forall k :: k in ks[..i] ==> k in t
      invariant values == DataValues(t, ks[..i])
    {
      assert ks[i] in ks && ks[..i + 1][..i] == ks[..i];
      assert forall k :: k in ks[..i + 1] ==> k in ks;
      match t[ks[i]]
      case Data(bytes) => values := values + [bytes];
      case Tombstone =>
    }
    assert ks[..|ks|] == ks;
  }

  lemma {:induction false} DataAgrees(a: Table, b: Table, ks: seq<Key>)
    requires forall k :: k in ks ==> k in a && k in b && a[k] == b[k]
    ensures DataValues(a, ks) == DataValues(b, ks)
  {
    if ks != [] {
      var n := |ks| - 1;
      assert ks[n] in ks && forall k :: k in ks[..n] ==> k in ks;
      DataAgrees(a, b, ks[..n]);
    }
  }
}
