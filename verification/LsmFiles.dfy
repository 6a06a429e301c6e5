/** The store on its files: starting up and looking up from bytes, when single reads may come short. */
module LsmFiles {
  import opened Bytes
  import opened Store
  import opened Tables
  import opened CommitLog
  import opened SSTables
  import opened FileNames
  import opened Lsm
  import opened LsmReplay
  import opened LsmInvariant
  import opened LsmRecovery
  import opened LsmReaders

  /** How many bytes the single reads hand over: of the log's lines, and of each table file. */
  datatype Reads = Reads(log: nat -> nat, table: Name -> Delivery)

  /** Lengths fit in 64 bits, ids in 16 bytes, keys are UTF-8. */
  predicate FitsDisk(d: Disk) {
    LogFits(d.log) && TablesFit(d.tables)
  }

  predicate LogFits(log: seq<Line>) {
    forall i :: 0 <= i < |log| ==> Fits(log[i])
  }

  predicate TablesFit(tables: map<Name, Table>) {
    forall n :: n in tables ==> FitsTable(tables[n])
  }

  predicate TransactionsFit(txs: seq<Transaction>) {
    forall i :: 0 <= i < |txs| ==> Fits(BeginTx(txs[i]))
  }

  // ---------------------------------------------------------------- starting up

  function LoadIndex(d: Disk, n: Name, reading: Reads): ReadResult<Index>
    requires n in d.tables
  {
    ReadIndex(FileBytes(d.tables[n]), reading.table(n).index)
  }

  predicate DeliversIndex(d: Disk, n: Name, reading: Reads)
    requires n in d.tables
  {
    reading.table(n).index >= IndexSize(d.tables[n])
  }

  /** `restore_bloom_map`: the saved index, read to its end, or the indexes of all table files. */
  function LoadFilters(d: Disk, reading: Reads): Option<Filters> {
    if AcceptsBloomFile(d) then Some(d.bloomFile.value.filters)
    else if exists n :: n in d.tables && LoadIndex(d, n, reading).Failed? then None
    else Some(map n | n in d.tables :: LoadIndex(d, n, reading).value.Keys)
  }

  /** `initialize` on the bytes of the disk; no result when a file does not decode. */
  function StartUp(d: Disk, reading: Reads): Option<Memory> {
    match LoadFilters(d, reading)
    case None => None
    case Some(filters) =>
      match ReadLog(EncodeAll(d.log), reading.log)
      case Broken(_) => None
      case Whole(lines) => Some(Memory(Replay(Unfinished(lines)), Unfinished(lines), filters, {}, Idle))
  }

  predicate IndexesDelivered(d: Disk, reading: Reads) {
    AcceptsBloomFile(d) || forall n :: n in d.tables ==> DeliversIndex(d, n, reading)
  }

  /** No single read that start-up makes comes short. */
  predicate StartsUp(d: Disk, reading: Reads) {
    DeliversAll(d.log, reading.log) && IndexesDelivered(d, reading)
  }

  lemma LoadFiltersExact(d: Disk, reading: Reads)
    requires TablesFit(d.tables)
    ensures LoadFilters(d, reading)
         == if !IndexesDelivered(d, reading) then None
            else Some(if AcceptsBloomFile(d) then d.bloomFile.value.filters else KeySets(d.tables))
  {
    hide LoadIndex, DeliversIndex, FitsTable, AcceptsBloomFile;
    forall n | n in d.tables
      ensures LoadIndex(d, n, reading).Ok? <==> DeliversIndex(d, n, reading)
      ensures LoadIndex(d, n, reading).Ok? ==> LoadIndex(d, n, reading).value.Keys == d.tables[n].Keys
    {
      LoadIndexExact(d, n, reading);
    }
    if !AcceptsBloomFile(d) && IndexesDelivered(d, reading) {
      assert LoadFilters(d, reading).value == KeySets(d.tables);
    }
  }

  lemma LoadIndexExact(d: Disk, n: Name, reading: Reads)
    requires n in d.tables && FitsTable(d.tables[n])
    ensures LoadIndex(d, n, reading).Ok? <==> DeliversIndex(d, n, reading)
    ensures LoadIndex(d, n, reading).Ok? ==> LoadIndex(d, n, reading).value.Keys == d.tables[n].Keys
  {
    hide ReadIndex, FileBytes, IndexSize, FitsTable, IndexFrom;
    ReadIndexExact(d.tables[n], reading.table(n).index);
    IndexFromKeys(d.tables[n], DataStart(d.tables[n]));
  }

  /** Start-up succeeds if and only if none of its reads comes short, and then it is the recovery step. */
  lemma StartUpExact(d: Disk, reading: Reads)
    requires FitsDisk(d)
    ensures StartUp(d, reading) == if StartsUp(d, reading) then Some(Recovered(d)) else None
  {
    hide Fits, FitsTable, ReadLog, EncodeAll, DeliversAll, Replay, Unfinished, LoadFilters, IndexesDelivered, KeySets;
    LoadFiltersExact(d, reading);
    LogRoundTrip(d.log, reading.log);
  }

  /** Every end line ends a transaction the log begins. */
  ghost predicate EndsBegun(log: seq<Line>) {
    forall i :: 0 <= i < |log| && log[i].EndTx? ==> exists t :: t in Begins(log) && t.id == log[i].id
  }

  lemma EndsBegunAppend(log: seq<Line>, line: Line)
    requires EndsBegun(log)
    requires line.EndTx? ==> exists t :: t in Begins(log) && t.id == line.id
    ensures EndsBegun(log + [line])
  {
    hide Begins;
    BeginsAppend(log, line);
    var log' := log + [line];
    forall i | 0 <= i < |log'| && log'[i].EndTx? ensures exists t :: t in Begins(log') && t.id == log'[i].id {
      if i < |log| {
        assert log'[i] == log[i];
        var t :| t in Begins(log) && t.id == log[i].id;
        assert t in Begins(log');
      } else {
        var t :| t in Begins(log) && t.id == line.id;
        assert t in Begins(log');
      }
    }
  }

  lemma EndsBegunStep(s: State, a: Action)
    requires Base(s) && EndsBegun(s.disk.log) && Enabled(s, a)
    ensures EndsBegun(Do(s, a).disk.log)
  {
    hide Begins, Unfinished, EndsBegun, LogOk, OriginOk, NothingLost, MemtableOk, FlushOk, Replay, Effects, SstName;
    if a.Begin? {
      EndsBegunAppend(s.disk.log, BeginTx(a.tx));
    } else if a.AppendEnd? {
      var m := s.memory.value;
      assert m.batch[m.flush.ended] in m.batch;
      EndsBegunAppend(s.disk.log, EndTx(m.batch[m.flush.ended].id));
    }
  }

  lemma {:induction false} EndsBegunAlways(s: State, run: seq<Action>)
    requires Base(s) && EndsBegun(s.disk.log) && Legal(s, run)
    ensures EndsBegun(Final(s, run).disk.log)
    decreases |run|
  {
    hide Base, Do, Enabled, EndsBegun;
    if run != [] {
      BaseStep(s, run[0]);
      EndsBegunStep(s, run[0]);
      EndsBegunAlways(Do(s, run[0]), run[1..]);
    }
  }

  /** In every run whose transactions fit, every line of the log fits. */
  lemma LinesFit(run: seq<Action>)
    requires Legal(INITIAL, run)
    requires TransactionsFit(Begun(run))
    ensures LogFits(Final(INITIAL, run).disk.log)
  {
    hide Base, Do, Enabled, Begins, Fits, Begun;
    LogOfRun(run);
    BaseInitially();
    EndsBegunAlways(INITIAL, run);
    var log := Final(INITIAL, run).disk.log;
    forall i | 0 <= i < |log| ensures Fits(log[i]) {
      match log[i]
      case BeginTx(tx) => BeginsHasLine(log, i);
      case EndTx(id) =>
        var t :| t in Begins(log) && t.id == id;
        EndFits(t);
    }
  }

  lemma {:induction false} BeginsHasLine(log: seq<Line>, i: nat)
    requires i < |log| && log[i].BeginTx?
    ensures log[i].tx in Begins(log)
  {
    var n := |log| - 1;
    if i < n { BeginsHasLine(log[..n], i); }
  }

  lemma EndFits(t: Transaction)
    requires Fits(BeginTx(t))
    ensures Fits(EndTx(t.id))
  {
  }

  /** Crash a disciplined run anywhere and start again from the bytes on disk: the store comes up if and only
      if no read of start-up comes short, and then readers see the effect of every transaction the run ever logged. */
  lemma CrashRecoveryFromFiles(run: seq<Action>, reading: Reads)
    requires Legal(INITIAL, run) && Disciplined(INITIAL, run)
    requires TransactionsFit(Begun(run)) && TablesFit(Final(INITIAL, run).disk.tables)
    ensures var d := Final(INITIAL, run).disk;
            var m := StartUp(d, reading);
            && (m.Some? <==> StartsUp(d, reading))
            && (m.Some? ==> Visible(Overlay(d.tables) + m.value.memtable) == ApplyTxs(map[], Begun(run)))
  {
    hide Legal, Final, Disciplined, Enabled, Begun, StartUp, StartsUp, Overlay, Visible, Recovered;
    hide LogFits, TablesFit, TransactionsFit;
    var s := Final(INITIAL, run);
    LinesFit(run);
    StartUpExact(s.disk, reading);
    CrashRecovery(run);
    RecoveredAfterCrash(s);
  }

  lemma RecoveredAfterCrash(s: State)
    ensures var down := if s.memory.Some? then Do(s, Crash) else s;
            var up := Do(down, Recover);
            up.disk == s.disk && up.memory == Some(Recovered(s.disk))
  {
    hide Recovered;
  }

  // ---------------------------------------------------------------- the data directory

  /** `bloom_map` */
  const BLOOM_MAP: Name := [98, 108, 111, 111, 109, 95, 109, 97, 112]

  /** The files in the data directory: the tables, the bloom file if there is one, and the log if it is kept there. */
  function Directory(d: Disk, log: Option<Name>): set<Name> {
    d.tables.Keys + (if d.bloomFile.Some? then {BLOOM_MAP} else {}) + (if log.Some? then {log.value} else {})
  }

  ghost predicate TablesNamed(d: Disk) {
    forall n :: n in d.tables ==> exists t :: n == SstName(t)
  }

  lemma TablesNamedStep(s: State, a: Action)
    requires TablesNamed(s.disk) && Enabled(s, a)
    ensures TablesNamed(Do(s, a).disk)
  {
    hide SstName, NotOlder;
  }

  lemma {:induction false} TablesNamedAlways(s: State, run: seq<Action>)
    requires TablesNamed(s.disk) && Legal(s, run)
    ensures TablesNamed(Final(s, run).disk)
    decreases |run|
  {
    hide TablesNamed, Do, Enabled;
    if run != [] {
      TablesNamedStep(s, run[0]);
      TablesNamedAlways(Do(s, run[0]), run[1..]);
    }
  }

  /** In every run, the listing of the data directory is exactly the tables, in the order in which scans and a rebuilt
      index take them, if and only if the log is not a file of its own there with a table's ending. */
  lemma ListingIsTheTables(run: seq<Action>, log: Option<Name>)
    requires Legal(INITIAL, run)
    ensures var d := Final(INITIAL, run).disk;
            SortedKeys(Listed(Directory(d, log))) == SortedKeys(d.tables.Keys) <==>
            !(log.Some? && log.value !in d.tables
              && exists stem :: stem != [] && log.value == stem + [46, 115, 115, 116])
  {
    hide Legal, Final, SortedKeys, HasSstExtension, SstName;
    TablesNamedAlways(INITIAL, run);
    var d := Final(INITIAL, run).disk;
    forall n | n in d.tables ensures HasSstExtension(n) {
      var t :| n == SstName(t);
      SstNameListed(t);
    }
    BloomMapNotListed();
    if log.Some? { ExtensionExact(log.value); }
    var listed := Listed(Directory(d, log));
    if !(log.Some? && log.value !in d.tables && HasSstExtension(log.value)) {
      assert listed == d.tables.Keys;
    } else {
      assert log.value in listed;
      assert log.value in SortedKeys(listed) && log.value !in SortedKeys(d.tables.Keys);
    }
  }

  lemma BloomMapNotListed()
    ensures !HasSstExtension(BLOOM_MAP)
  {
    assert BLOOM_MAP[8] != DOT_SST[3] && BLOOM_MAP[5..][3] == BLOOM_MAP[8];
  }

  // ---------------------------------------------------------------- looking up

  /** `search_sstables` on the bytes of the table files: a read that comes short ends the search. */
  function SearchFiles(tables: map<Name, Table>, names: seq<Name>, k: Key, reading: Reads): ReadResult<Option<Value>>
    requires forall n :: n in names ==> n in tables
  {
    if names == [] then Ok(None)
    else
      assert names[0] in names && forall n :: n in names[1..] ==> n in names;
      match SearchFile(FileBytes(tables[names[0]]), k, reading.table(names[0]))
      case Failed => Failed
      case Ok(None) => SearchFiles(tables, names[1..], k, reading)
      case Ok(Some(v)) => Ok(Some(v))
  }

  /** No read comes short in the tables up to the first hit. */
  predicate DeliversSearch(tables: map<Name, Table>, names: seq<Name>, k: Key, reading: Reads)
    requires forall n :: n in names ==> n in tables
  {
    names == [] ||
    (assert names[0] in names && forall n :: n in names[1..] ==> n in names;
     var t := tables[names[0]];
     DeliversKeys(t, {k} * t.Keys, reading.table(names[0]))
     && (k in t || DeliversSearch(tables, names[1..], k, reading)))
  }

  lemma {:induction false} SearchFilesExact(tables: map<Name, Table>, names: seq<Name>, k: Key, reading: Reads)
    requires forall n :: n in names ==> n in tables && FitsTable(tables[n])
    ensures SearchFiles(tables, names, k, reading)
         == if DeliversSearch(tables, names, k, reading) then Ok(FirstHit(tables, names, k)) else Failed
  {
    hide FitsTable, SearchFile, FileBytes, DeliversKeys;
    if names != [] {
      assert names[0] in names && forall n :: n in names[1..] ==> n in names;
      SearchFileExact(tables[names[0]], k, reading.table(names[0]));
      SearchFilesExact(tables, names[1..], k, reading);
    }
  }

  /** The tables `get` asks, in its order. */
  function Asked(s: State, noise: (Name, Key) -> bool, k: Key): (names: seq<Name>)
    requires s.memory.Some? && s.memory.value.filters.Keys <= s.disk.tables.Keys
    ensures forall n :: n in names ==> n in s.disk.tables
  {
    Reverse(SortedKeys(MayContain(s.memory.value.filters, noise, k)))
  }

  /** `get` on the table files. */
  function GetFromFiles(s: State, noise: (Name, Key) -> bool, k: Key, reading: Reads): ReadResult<Option<Bytes>>
    requires s.memory.Some? && s.memory.value.filters.Keys <= s.disk.tables.Keys
  {
    var hit := AsOption(Lookup(s.memory.value.memtable, k));
    if hit.Some? then Ok(hit)
    else match SearchFiles(s.disk.tables, Asked(s, noise, k), k, reading)
      case Failed => Failed
      case Ok(v) => Ok(AsOption(v))
  }

  /** A lookup on files gives what the lookup on tables gives, or fails: exactly when the memtable does not
      answer and a read up to the first hit comes short. */
  lemma GetFromFilesExact(s: State, noise: (Name, Key) -> bool, k: Key, reading: Reads)
    requires s.memory.Some? && s.memory.value.filters.Keys <= s.disk.tables.Keys
    requires TablesFit(s.disk.tables)
    ensures var hit := AsOption(Lookup(s.memory.value.memtable, k));
            GetFromFiles(s, noise, k, reading)
            == if hit.Some? || DeliversSearch(s.disk.tables, Asked(s, noise, k), k, reading)
               then Ok(Get(s, noise, k)) else Failed
  {
    hide FitsTable, SortedKeys, SearchFiles, DeliversSearch, FirstHit;
    SearchFilesExact(s.disk.tables, Asked(s, noise, k), k, reading);
  }

  // ---------------------------------------------------------------- scanning

  predicate DeliversFrom(tables: map<Name, Table>, n: Name, from: Key, to: Key, reading: Reads)
    requires n in tables
  {
    DeliversKeys(tables[n], KeyRange(tables[n].Keys, from, to), reading.table(n))
  }

  /** No read of an index or of a value in the range comes short, in any table. */
  predicate DeliversRange(tables: map<Name, Table>, from: Key, to: Key, reading: Reads) {
    forall n :: n in tables ==> DeliversFrom(tables, n, from, to, reading)
  }

  lemma TableFits(tables: map<Name, Table>, n: Name)
    requires TablesFit(tables) && n in tables
    ensures FitsTable(tables[n])
  {
  }
}
