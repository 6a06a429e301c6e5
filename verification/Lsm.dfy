/** The log-structured store as a crash-prone state machine of small steps. */
module Lsm {
  import opened Bytes
  import opened Store
  import opened Tables
  import opened CommitLog
  import opened FileNames

  type Name = Bytes

  /** The keys inserted into each table's filter. What a filter answers for other keys is left open. */
  type Filters = map<Name, set<Key>>

  datatype BloomFile = BloomFile(filters: Filters, time: nat)

  /** What survives a crash. Every write to the log or to the bloom file gets a later modification time. */
  datatype Disk = Disk(
    log: seq<Line>,
    tables: map<Name, Table>,
    bloomFile: Option<BloomFile>,
    logTime: nat,
    clock: nat)

  /** How far a flush has come; it holds the data lock until it is idle again. */
  datatype Flush = Idle | Wrote(name: Name) | Indexed(name: Name) | Ending(name: Name, ended: nat)

  /** What a crash loses. `batch` is what went into the memtable, in order; the code keeps its ids.
      `pending` are the transactions logged but not yet applied. */
  datatype Memory = Memory(
    memtable: Table,
    batch: seq<Transaction>,
    filters: Filters,
    pending: set<Transaction>,
    flush: Flush)

  /** The last two fields are history: no step reads them. `acked` are the transactions whose caller was
      answered, `origin` is the batch each table was written from. */
  datatype State = State(
    disk: Disk,
    memory: Option<Memory>,
    acked: set<Transaction>,
    origin: map<Name, seq<Transaction>>)

  datatype Action =
    | Begin(tx: Transaction)
    | Apply(tx: Transaction)
    | WriteTable(millis: nat)
    | AddFilter
    | ClearMemtable
    | AppendEnd
    | FinishFlush
    | WriteBloomFile
    | Crash
    | Recover

  const INITIAL := State(Disk([], map[], None, 0, 0), None, {}, map[])

  // ---------------------------------------------------------------- reading the state

  function Stack(tables: map<Name, Table>, names: seq<Name>): seq<Table>
    requires forall n :: n in names ==> n in tables
  {
    seq(|names|, i requires 0 <= i < |names| => assert names[i] in names; tables[names[i]])
  }

  /** All tables laid over one another in file-name order. */
  function Overlay(tables: map<Name, Table>): Table {
    Merge(Stack(tables, SortedKeys(tables.Keys)))
  }

  /** The transactions a log begins, in order. */
  function Begins(log: seq<Line>): seq<Transaction> {
    if log == [] then []
    else Begins(log[..|log| - 1]) + (if log[|log| - 1].BeginTx? then [log[|log| - 1].tx] else [])
  }

  predicate FreshId(log: seq<Line>, id: Uuid) {
    forall i :: 0 <= i < |log| ==> LineId(log[i]) != id
  }

  /** The clock did not run backwards: the new name is at least every name on disk. */
  predicate NotOlder(tables: map<Name, Table>, name: Name) {
    forall n :: n in tables ==> n == name || Less(n, name)
  }

  function KeySets(tables: map<Name, Table>): Filters {
    map n | n in tables :: tables[n].Keys
  }

  /** `restore_bloom_map_from_file`: the file counts unless the log was modified after it. */
  predicate AcceptsBloomFile(d: Disk) {
    d.bloomFile.Some? && d.logTime <= d.bloomFile.value.time
  }

  // ---------------------------------------------------------------- steps

  predicate Enabled(s: State, a: Action) {
    match a
    case Begin(tx) => s.memory.Some? && FreshId(s.disk.log, tx.id)
    case Apply(tx) => s.memory.Some? && s.memory.value.flush.Idle? && tx in s.memory.value.pending
    case WriteTable(millis) =>
      s.memory.Some? && s.memory.value.flush.Idle? && NotOlder(s.disk.tables, SstName(millis))
    case AddFilter => s.memory.Some? && s.memory.value.flush.Wrote?
    case ClearMemtable => s.memory.Some? && s.memory.value.flush.Indexed?
    case AppendEnd =>
      s.memory.Some? && s.memory.value.flush.Ending? && s.memory.value.flush.ended < |s.memory.value.batch|
    case FinishFlush =>
      s.memory.Some? && s.memory.value.flush.Ending? && s.memory.value.flush.ended == |s.memory.value.batch|
    case WriteBloomFile => s.memory.Some? && s.memory.value.flush.Idle?
    case Crash => s.memory.Some?
    case Recover => s.memory.None?
  }

  function AppendLine(d: Disk, line: Line): Disk {
    d.(log := d.log + [line], clock := d.clock + 1, logTime := d.clock + 1)
  }

  /** `initialize`: take or rebuild the filters, then replay the unfinished transactions in log order. */
  function Recovered(d: Disk): Memory {
    var filters := if AcceptsBloomFile(d) then d.bloomFile.value.filters else KeySets(d.tables);
    Memory(Replay(Unfinished(d.log)), Unfinished(d.log), filters, {}, Idle)
  }

  function Do(s: State, a: Action): State
    requires Enabled(s, a)
  {
    if a.Recover? then s.(memory := Some(Recovered(s.disk)))
    else
      var d, m := s.disk, s.memory.value;
      match a
      case Begin(tx) =>
        s.(disk := AppendLine(d, BeginTx(tx)), memory := Some(m.(pending := m.pending + {tx})))
      case Apply(tx) =>
        s.(memory := Some(m.(memtable := m.memtable + Effects(tx.operations),
                             batch := m.batch + [tx],
                             pending := m.pending - {tx})),
           acked := s.acked + {tx})
      case WriteTable(millis) =>
        var name := SstName(millis);
        if m.memtable == map[] || name in d.tables then s
        else s.(disk := d.(tables := d.tables[name := m.memtable]),
                memory := Some(m.(flush := Wrote(name))),
                origin := s.origin[name := m.batch])
      case AddFilter =>
        s.(memory := Some(m.(filters := m.filters[m.flush.name := m.memtable.Keys],
                             flush := Indexed(m.flush.name))))
      case ClearMemtable =>
        s.(memory := Some(m.(memtable := map[], flush := Ending(m.flush.name, 0))))
      case AppendEnd =>
        var i := m.flush.ended;
        s.(disk := AppendLine(d, EndTx(m.batch[i].id)),
           memory := Some(m.(flush := Ending(m.flush.name, i + 1))))
      case FinishFlush =>
        s.(memory := Some(m.(batch := [], flush := Idle)))
      case WriteBloomFile =>
        if m.filters == map[] then s
        else s.(disk := d.(bloomFile := Some(BloomFile(m.filters, d.clock + 1)), clock := d.clock + 1))
      case Crash => s.(memory := None)
  }

  /** A running store can crash in every state, also between any two steps of a flush, and can log a new
      transaction in every state; a store that is down can always start. */
  lemma AtAnyTime(s: State, tx: Transaction)
    ensures s.memory.Some? ==> Enabled(s, Crash) && (FreshId(s.disk.log, tx.id) ==> Enabled(s, Begin(tx)))
    ensures s.memory.None? ==> Enabled(s, Recover)
    ensures s.memory.Some? && s.memory.value.flush.Idle? && tx in s.memory.value.pending ==> Enabled(s, Apply(tx))
  {
  }

  /** Every step of a run is enabled when its turn comes. */
  predicate Legal(s: State, run: seq<Action>)
    decreases |run|
  {
    run == [] || (Enabled(s, run[0]) && Legal(Do(s, run[0]), run[1..]))
  }

  function Final(s: State, run: seq<Action>): State
    requires Legal(s, run)
    decreases |run|
  {
    if run == [] then s else Final(Do(s, run[0]), run[1..])
  }

  /** The transactions a run logs, in order. */
  function Begun(run: seq<Action>): seq<Transaction> {
    if run == [] then [] else (if run[0].Begin? then [run[0].tx] else []) + Begun(run[1..])
  }

  lemma LegalNone(s: State)
    ensures Legal(s, []) && Final(s, []) == s
  {
  }

  lemma LegalPair(s: State, a: Action, rest: seq<Action>)
    requires Enabled(s, a) && Legal(Do(s, a), rest)
    ensures Legal(s, [a] + rest)
    ensures Final(s, [a] + rest) == Final(Do(s, a), rest)
  {
    hide Do, Enabled;
    assert ([a] + rest)[1..] == rest;
  }

  lemma {:induction false} LegalAppend(s: State, a: seq<Action>, b: seq<Action>)
    requires Legal(s, a) && Legal(Final(s, a), b)
    ensures Legal(s, a + b) && Final(s, a + b) == Final(Final(s, a), b)
    decreases |a|
  {
    hide Do, Enabled;
    if a == [] {
      assert a + b == b;
    } else {
      LegalAppend(Do(s, a[0]), a[1..], b);
      assert (a + b)[1..] == a[1..] + b;
    }
  }

  /** The keys a transaction writes. */
  function Touches(tx: Transaction): set<Key> {
    Effects(tx.operations).Keys
  }

  /** No transaction of the run begins while one that shares a key with it is logged but not applied. */
  predicate Disciplined(s: State, run: seq<Action>)
    requires Legal(s, run)
    decreases |run|
  {
    run == [] ||
    ((run[0].Begin? ==> forall t :: t in s.memory.value.pending ==> Touches(t) !! Touches(run[0].tx))
     && Disciplined(Do(s, run[0]), run[1..]))
  }

  /** Said of the states along the way: at every begin, whatever is pending then shares no key with it. */
  lemma {:induction false} DisciplinedExact(s: State, run: seq<Action>)
    requires Legal(s, run)
    ensures forall i :: 0 <= i <= |run| ==> Legal(s, run[..i])
    ensures forall i :: 0 <= i < |run| && run[i].Begin? ==> Final(s, run[..i]).memory.Some?
    ensures Disciplined(s, run) <==>
            forall i :: 0 <= i < |run| && run[i].Begin? ==>
              forall t :: t in Final(s, run[..i]).memory.value.pending ==> Touches(t) !! Touches(run[i].tx)
    decreases |run|
  {
    hide Do, Touches;
    if run != [] {
      var s', rest := Do(s, run[0]), run[1..];
      DisciplinedExact(s', rest);
      assert run[..0] == [];
      forall i | 0 < i <= |run| ensures Legal(s, run[..i]) && Final(s, run[..i]) == Final(s', rest[..i - 1]) {
        assert run[..i][1..] == rest[..i - 1];
      }
      assert forall i :: 0 <= i < |rest| ==> rest[i] == run[i + 1];
    }
  }

  /** One transaction in flight at a time. */
  predicate OneInFlight(s: State, run: seq<Action>)
    requires Legal(s, run)
    decreases |run|
  {
    run == [] ||
    ((run[0].Begin? ==> s.memory.value.pending == {}) && OneInFlight(Do(s, run[0]), run[1..]))
  }

  lemma {:induction false} OneInFlightIsDisciplined(s: State, run: seq<Action>)
    requires Legal(s, run) && OneInFlight(s, run)
    ensures Disciplined(s, run)
    decreases |run|
  {
    hide Do, Enabled;
    if run != [] { OneInFlightIsDisciplined(Do(s, run[0]), run[1..]); }
  }

  // ---------------------------------------------------------------- what clients see

  /** The table contents a reader combines: memtable over tables. */
  function LiveTable(s: State): Table
    requires s.memory.Some?
  {
    Overlay(s.disk.tables) + s.memory.value.memtable
  }

  /** The transactions of a log order that are not pending. */
  function Applied(txs: seq<Transaction>, pending: set<Transaction>): seq<Transaction> {
    if txs == [] then []
    else Applied(txs[..|txs| - 1], pending) + (if txs[|txs| - 1] in pending then [] else [txs[|txs| - 1]])
  }

  predicate Readable(s: State) {
    s.memory.Some? && s.memory.value.flush.Idle?
  }
}
