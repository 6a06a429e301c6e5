/** A store whose clients set and look up keys but never delete them: lookups are always right. */
module LsmServing {
  import opened Bytes
  import opened Store
  import opened Tables
  import opened CommitLog
  import opened SSTables
  import opened FileNames
  import opened Lsm
  import opened LsmReplay
  import opened LsmInvariant
  import opened LsmReaders
  import opened LsmFiles
  import opened LsmStore

  // ---------------------------------------------------------------- without deletes

  predicate OnlySets(txs: seq<Transaction>) {
    forall i, j :: 0 <= i < |txs| && 0 <= j < |txs[i].operations| ==> txs[i].operations[j].Set?
  }

  predicate NoTombstones(t: Table) {
    forall k :: k in t ==> t[k].Data?
  }

  lemma {:induction false} EffectsOfSets(ops: seq<Operation>)
    requires forall j :: 0 <= j < |ops| ==> ops[j].Set?
    ensures NoTombstones(Effects(ops))
  {
    if ops != [] { EffectsOfSets(ops[..|ops| - 1]); }
  }

  lemma {:induction false} ReplayOfSets(txs: seq<Transaction>)
    requires OnlySets(txs)
    ensures NoTombstones(Replay(txs))
  {
    hide Replay, Effects;
    if txs == [] {
      ReplayNone();
    } else {
      var n := |txs| - 1;
      assert txs == txs[..n] + [txs[n]];
      ReplayPush(txs[..n], txs[n]);
      ReplayOfSets(txs[..n]);
      EffectsOfSets(txs[n].operations);
    }
  }

  lemma BatchOfSets(batch: seq<Transaction>, begun: seq<Transaction>)
    requires OnlySets(begun) && forall t :: t in batch ==> t in begun
    ensures OnlySets(batch)
  {
    forall i, j | 0 <= i < |batch| && 0 <= j < |batch[i].operations| ensures batch[i].operations[j].Set? {
      assert batch[i] in batch;
      var l :| 0 <= l < |begun| && begun[l] == batch[i];
    }
  }

  /** A store that is up, whose index can be used, and whose memtable holds no tombstone. */
  ghost predicate Serviceable(s: State) {
    && Readable(s) && NoTombstones(s.memory.value.memtable)
    && FiltersOk(s.disk.tables, s.memory.value.filters, s.memory.value.memtable)
  }

  /** Whatever crashes, flushes and interleavings a run has: if its transactions only set keys, it ends in such a
      store whenever it ends in a readable one. */
  lemma RunsServe(run: seq<Action>)
    requires Legal(INITIAL, run) && Readable(Final(INITIAL, run)) && OnlySets(Begun(run))
    ensures Serviceable(Final(INITIAL, run))
  {
    hide Do, Enabled, Legal, Final, Begins, Unfinished, Replay, FiltersOk, FileOk, OnlySets, NothingLost, OriginOk;
    hide Begun;
    LogOfRun(run);
    BaseInitially();
    IndexingInitially();
    IndexingAlways(INITIAL, run);
    var s := Final(INITIAL, run);
    BatchOfSets(s.memory.value.batch, Begins(s.disk.log));
    ReplayOfSets(s.memory.value.batch);
  }

  /** There a lookup is always right, whatever the filters answer. */
  lemma LookupsAreRight(s: State, noise: (Name, Key) -> bool, k: Key)
    requires Serviceable(s)
    ensures Get(s, noise, k) == Lookup(Visible(LiveTable(s)), k)
  {
    hide Get, Visible, LiveTable, FiltersOk, IsNewestWith;
    FiltersKnown(s);
    GetExact(s, noise, k);
  }

  lemma FiltersKnown(s: State)
    requires Serviceable(s)
    ensures s.memory.Some? && s.memory.value.filters.Keys <= s.disk.tables.Keys
  {
    hide Shadowed;
  }

  /** A flush leaves the store serviceable. */
  lemma FlushServes(s: State, millis: nat)
    requires Serviceable(s) && NotOlder(s.disk.tables, SstName(millis))
    ensures Serviceable(AfterFlush(s, millis))
  {
    hide FiltersOk, SstName, NotOlder, EndLines, Ids;
    var d, m, name := s.disk, s.memory.value, SstName(millis);
    if m.memtable != map[] && name !in d.tables {
      var tables := d.tables[name := m.memtable];
      FiltersOkNewTable(d.tables, m.filters, m.memtable, name, m.memtable);
      FiltersOkAdd(tables, m.filters, m.memtable, name);
      StillNotOlder(d.tables, name, m.memtable);
      FiltersOkClear(tables, m.filters[name := m.memtable.Keys], name);
    }
  }

  lemma StillNotOlder(tables: map<Name, Table>, name: Name, t: Table)
    requires NotOlder(tables, name)
    ensures NotOlder(tables[name := t], name)
  {
  }

  lemma SetServes(s: State, s': State, key: Key, value: Bytes)
    requires Serviceable(s) && Readable(s') && s'.disk.tables == s.disk.tables
    requires s'.memory.value.filters == s.memory.value.filters
    requires s'.memory.value.memtable == s.memory.value.memtable + Effects([Store.Set(key, value)])
    ensures Serviceable(s')
  {
    hide FiltersOk, Effects;
    EffectsOfSets([Store.Set(key, value)]);
    FiltersOkMono(s.disk.tables, s.memory.value.filters, s.memory.value.memtable, s'.memory.value.memtable);
  }

  // ---------------------------------------------------------------- whole reads

  /** No single read of a table file comes short. */
  predicate WholeReads(tables: map<Name, Table>, reading: Reads) {
    forall n :: n in tables ==> DeliversKeys(tables[n], tables[n].Keys, reading.table(n))
  }

  lemma {:induction false} WholeSearch(tables: map<Name, Table>, names: seq<Name>, k: Key, reading: Reads)
    requires WholeReads(tables, reading) && forall n :: n in names ==> n in tables
    ensures DeliversSearch(tables, names, k, reading)
  {
    hide IndexSize, EntryOf;
    if names != [] {
      assert names[0] in names && forall n :: n in names[1..] ==> n in names;
      WholeSearch(tables, names[1..], k, reading);
    }
  }

  lemma FailsOnlyShort(s: State, noise: (Name, Key) -> bool, k: Key, reading: Reads)
    requires Serviceable(s) && TablesFit(s.disk.tables)
    ensures s.memory.value.filters.Keys <= s.disk.tables.Keys
    ensures GetFromFiles(s, noise, k, reading).Failed? ==> !WholeReads(s.disk.tables, reading)
  {
    hide GetFromFiles, TablesFit, WholeReads, DeliversSearch, Get, Serviceable;
    FiltersKnown(s);
    GetFromFilesExact(s, noise, k, reading);
    if WholeReads(s.disk.tables, reading) {
      WholeSearch(s.disk.tables, Asked(s, noise, k), k, reading);
    }
  }
}
