/** The store against `MemoryStore`, over whole disciplined runs. */
module LsmTheorems {
  import opened Bytes
  import opened Store
  import opened Tables
  import opened FileNames
  import opened Lsm
  import opened LsmReplay
  import opened LsmRecovery
  import opened LsmReaders

  /** The plain map `MemoryStore` would hold after the applied transactions, run in log order. */
  ghost function Model(run: seq<Action>): map<Key, Bytes>
    requires Legal(INITIAL, run) && Final(INITIAL, run).memory.Some?
  {
    ApplyTxs(map[], Applied(Begun(run), Final(INITIAL, run).memory.value.pending))
  }

  /** `LSMStore::scan` over a state: the data of the live table, in key order. */
  function Scan(s: State, from: Key, to: Key): seq<Bytes>
    requires s.memory.Some?
  {
    var live := LiveTable(s);
    DataValues(live, SortedKeys(KeyRange(live.Keys, from, to)))
  }

  /** In every disciplined run with crashes and flushes anywhere, a scan returns exactly what `MemoryStore`
      would return after the applied transactions in log order. */
  lemma ScanIsMemoryStoreScan(run: seq<Action>, from: Key, to: Key)
    requires Legal(INITIAL, run) && Disciplined(INITIAL, run)
    requires Final(INITIAL, run).memory.Some?
    ensures Scan(Final(INITIAL, run), from, to) == ScanValues(Model(run), from, to)
  {
    hide Do, Enabled, Legal, Final, Disciplined, LiveTable, ScanValues, DataValues, Applied, Begun;
    var s := Final(INITIAL, run);
    LiveIsLogOrder(run);
    ScanRefinesPlainScan(LiveTable(s), from, to);
  }

  /** And a lookup returns what `MemoryStore` would, except exactly when a memtable tombstone hides data
      in the newest indexed table with that key. */
  lemma GetIsMemoryStoreGet(run: seq<Action>, noise: (Name, Key) -> bool, k: Key)
    requires Legal(INITIAL, run) && Disciplined(INITIAL, run)
    requires Readable(Final(INITIAL, run))
    ensures var s := Final(INITIAL, run);
            && s.memory.value.filters.Keys <= s.disk.tables.Keys
            && (Get(s, noise, k) == Lookup(Model(run), k) <==> !exists n :: IsResurrectedFrom(s, k, n))
            && (forall n :: IsResurrectedFrom(s, k, n) ==>
                  Get(s, noise, k) == Some(s.disk.tables[n][k].bytes) && k !in Model(run))
  {
    hide Do, Enabled, Legal, Final, Disciplined, LiveTable, Get, Visible, Applied, Begun, IsNewestWith;
    LiveIsLogOrder(run);
    GetInEveryRun(run, noise, k);
  }

  /** With nothing in flight, a crash after any step, also inside a flush, and a recovery change nothing a reader can
      see: replay in log order rebuilds the map that the apply order had built. */
  lemma RecoveryRestoresTheView(run: seq<Action>)
    requires Legal(INITIAL, run) && Disciplined(INITIAL, run)
    requires Final(INITIAL, run).memory.Some? && Final(INITIAL, run).memory.value.pending == {}
    ensures var s := Final(INITIAL, run);
            Visible(LiveTable(Do(Do(s, Crash), Recover))) == Visible(LiveTable(s))
  {
    hide Legal, Final, Disciplined, LiveTable, Visible, Applied, Begun, Recovered;
    LiveIsLogOrder(run);
    CrashRecovery(run);
    AppliedNone(Begun(run));
  }

  /** Stamps of one length that do not decrease keep the file names in order, as every flush needs. */
  lemma SteadyClockKeepsNameOrder(tables: map<Name, Table>, millis: nat)
    requires forall n :: n in tables ==>
               exists t: nat :: n == SstName(t) && t <= millis && |Decimal(t)| == |Decimal(millis)|
    ensures NotOlder(tables, SstName(millis))
  {
    hide Decimal, SstName, Less;
    forall n | n in tables ensures n == SstName(millis) || Less(n, SstName(millis)) {
      var t: nat :| n == SstName(t) && t <= millis && |Decimal(t)| == |Decimal(millis)|;
      NameOrderIsAgeOrder(t, millis);
    }
  }

  /** The names on disk are stamps as long as `now` and not later. */
  ghost predicate StampedUpTo(tables: map<Name, Table>, now: nat) {
    forall n :: n in tables ==> exists t: nat :: n == SstName(t) && t <= now && |Decimal(t)| == |Decimal(now)|
  }

  /** A clock of stamps of one length that does not run backwards. */
  ghost predicate SteadyClock(clock: nat -> nat) {
    forall i: nat, j: nat | i <= j :: clock(i) <= clock(j) && |Decimal(clock(i))| == |Decimal(clock(j))|
  }

  lemma LaterStamp(tables: map<Name, Table>, clock: nat -> nat, i: nat)
    requires SteadyClock(clock) && StampedUpTo(tables, clock(i))
    ensures StampedUpTo(tables, clock(i + 1))
  {
    hide Decimal, SstName;
    assert clock(i) <= clock(i + 1) && |Decimal(clock(i))| == |Decimal(clock(i + 1))|;
    forall n | n in tables
      ensures exists t: nat :: n == SstName(t) && t <= clock(i + 1) && |Decimal(t)| == |Decimal(clock(i + 1))|
    {
      var t: nat :| n == SstName(t) && t <= clock(i) && |Decimal(t)| == |Decimal(clock(i))|;
    }
  }

  lemma Unstamp(tables: map<Name, Table>, now: nat)
    requires StampedUpTo(tables, now)
    ensures NotOlder(tables, SstName(now))
  {
    hide Decimal, SstName, NotOlder;
    SteadyClockKeepsNameOrder(tables, now);
  }
}
