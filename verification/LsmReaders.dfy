/** Point lookups through the bloom filters, and what a stale bloom file can and cannot do to them. */
module LsmReaders {
  import opened Bytes
  import opened Store
  import opened Tables
  import opened CommitLog
  import opened FileNames
  import opened Lsm
  import opened LsmReplay
  import opened LsmInvariant

  // ---------------------------------------------------------------- the reader

  /** The tables whose filter says the key may be inside. A filter knows its own keys; for any other key
      it answers as `noise` likes, so a statement for every `noise` covers all false positives. */
  function MayContain(filters: Filters, noise: (Name, Key) -> bool, k: Key): set<Name> {
    set n | n in filters && (k in filters[n] || noise(n, k))
  }

  /** The answers that filters can give for a key: all tables that hold it, and any of the others. */
  lemma FilterAnswers(filters: Filters, k: Key, answers: set<Name>)
    ensures (exists noise: (Name, Key) -> bool :: MayContain(filters, noise, k) == answers) <==>
            (set n | n in filters && k in filters[n]) <= answers <= filters.Keys
  {
    if (set n | n in filters && k in filters[n]) <= answers <= filters.Keys {
      var noise := (n: Name, _: Key) => n in answers;
      assert MayContain(filters, noise, k) == answers;
    }
  }

  /** The first hit in a list of tables. */
  function FirstHit(tables: map<Name, Table>, names: seq<Name>, k: Key): Option<Value>
    requires forall n :: n in names ==> n in tables
  {
    if names == [] then None
    else
      assert names[0] in names && forall n :: n in names[1..] ==> n in names;
      if k in tables[names[0]] then Some(tables[names[0]][k]) else FirstHit(tables, names[1..], k)
  }

  /** `search_sstables`: the filtered tables, newest first. */
  function Search(tables: map<Name, Table>, filters: Filters, noise: (Name, Key) -> bool, k: Key): Option<Value>
    requires filters.Keys <= tables.Keys
  {
    FirstHit(tables, Reverse(SortedKeys(MayContain(filters, noise, k))), k)
  }

  /** Every table, newest first, no filter. */
  function PlainSearch(tables: map<Name, Table>, k: Key): Option<Value> {
    FirstHit(tables, Reverse(SortedKeys(tables.Keys)), k)
  }

  function AsOption(v: Option<Value>): Option<Bytes> {
    match v
    case None => None
    case Some(value) => value.AsOption()
  }

  /** `LSMStore::get`: a tombstone in the memtable counts as not found there. */
  function Get(s: State, noise: (Name, Key) -> bool, k: Key): Option<Bytes>
    requires s.memory.Some? && s.memory.value.filters.Keys <= s.disk.tables.Keys
  {
    var m := s.memory.value;
    var hit := AsOption(Lookup(m.memtable, k));
    if hit.Some? then hit else AsOption(Search(s.disk.tables, m.filters, noise, k))
  }

  // ---------------------------------------------------------------- newest first

  lemma {:induction false} HitIsMerge(tables: map<Name, Table>, names: seq<Name>, k: Key)
    requires forall n :: n in names ==> n in tables
    ensures FirstHit(tables, Reverse(names), k) == Lookup(Merge(Stack(tables, names)), k)
  {
    if names != [] {
      var l := |names| - 1;
      assert names[l] in names && forall n :: n in names[..l] ==> n in names;
      HitIsMerge(tables, names[..l], k);
      assert Reverse(names)[1..] == Reverse(names[..l]);
      assert Stack(tables, names)[..l] == Stack(tables, names[..l]);
    }
  }

  /** An unfiltered search finds what the overlay of all tables holds. */
  lemma PlainSearchIsOverlay(tables: map<Name, Table>, k: Key)
    ensures PlainSearch(tables, k) == Lookup(Overlay(tables), k)
  {
    hide FirstHit, Merge, SortedKeys, Reverse, Stack;
    HitIsMerge(tables, SortedKeys(tables.Keys), k);
  }

  /** `n` is the newest of the listed tables that holds `k`. */
  ghost predicate IsNewestWith(tables: map<Name, Table>, names: set<Name>, k: Key, n: Name)
    requires names <= tables.Keys
  {
    n in names && k in tables[n] && forall n' :: n' in names && k in tables[n'] ==> n' == n || Less(n', n)
  }

  lemma StackTop(tables: map<Name, Table>, names: seq<Name>)
    requires names != [] && forall n :: n in names ==> n in tables
    requires forall n :: n in names[..|names| - 1] ==> n in tables
    ensures var l := |names| - 1;
            names[l] in tables && Merge(Stack(tables, names)) == Merge(Stack(tables, names[..l])) + tables[names[l]]
  {
    var l := |names| - 1;
    assert names[l] in names;
    assert Stack(tables, names)[..l] == Stack(tables, names[..l]);
  }

  lemma {:induction false} SearchFindsNewest(tables: map<Name, Table>, names: seq<Name>, k: Key, n: Name)
    requires StrictlySorted(names) && forall n' :: n' in names ==> n' in tables
    requires n in names && k in tables[n]
    requires forall n' :: n' in names && k in tables[n'] ==> n' == n || Less(n', n)
    ensures Lookup(Merge(Stack(tables, names)), k) == Some(tables[n][k])
  {
    hide Less, Merge, Stack;
    var l := |names| - 1;
    assert names[l] in names && forall n' :: n' in names[..l] ==> n' in names;
    StackTop(tables, names);
    if names[l] != n {
      var i :| 0 <= i < |names| && names[i] == n;
      assert names[..l][i] == n;
      LessAsymmetric(n, names[l]);
      SearchFindsNewest(tables, names[..l], k, n);
    }
  }

  lemma {:induction false} SearchFindsNothing(tables: map<Name, Table>, names: seq<Name>, k: Key)
    requires forall n :: n in names ==> n in tables && k !in tables[n]
    ensures Lookup(Merge(Stack(tables, names)), k) == None
  {
    if names != [] {
      var l := |names| - 1;
      assert names[l] in names && forall n :: n in names[..l] ==> n in names;
      assert Stack(tables, names)[..l] == Stack(tables, names[..l]);
      SearchFindsNothing(tables, names[..l], k);
    }
  }

  lemma {:induction false} NewestExists(tables: map<Name, Table>, names: set<Name>, k: Key) returns (n: Name)
    requires names <= tables.Keys && exists n :: n in names && k in tables[n]
    ensures IsNewestWith(tables, names, k, n)
    decreases |names|
  {
    hide Less;
    n :| n in names && k in tables[n];
    var rest := names - {n};
    if exists n' :: n' in rest && k in tables[n'] {
      var n' := NewestExists(tables, rest, k);
      LessTotal(n, n');
      if Less(n, n') {
        n := n';
      } else {
        forall o | o in names && k in tables[o] ensures o == n || Less(o, n) {
          if o != n && o != n' { LessTransitive(o, n', n); }
        }
      }
    }
  }

  /** Exactly when writing a table under a name of its own leaves its entries on top: for each of its keys that
      a table with a later name holds too, the newest entry on disk is already the same. A clock that runs
      backwards breaks this. */
  lemma NewTableOnTopIff(tables: map<Name, Table>, name: Name, t: Table)
    requires name !in tables
    ensures Overlay(tables[name := t]) == Overlay(tables) + t <==>
            forall k, n | k in t && n in tables && Less(name, n) && k in tables[n] ::
              k in Overlay(tables) && Overlay(tables)[k] == t[k]
  {
    hide Overlay, Less;
    var after, before := Overlay(tables[name := t]), Overlay(tables);
    forall k ensures k !in t ==> Lookup(after, k) == Lookup(before, k) {
      if k !in t { UntouchedKey(tables, name, t, k); }
    }
    forall k | k in t
      ensures (exists n :: n in tables && Less(name, n) && k in tables[n]) ==>
                k in before && Lookup(after, k) == Lookup(before, k)
      ensures !(exists n :: n in tables && Less(name, n) && k in tables[n]) ==> Lookup(after, k) == Some(t[k])
    {
      WrittenKey(tables, name, t, k);
    }
    if after == before + t {
      forall k, n | k in t && n in tables && Less(name, n) && k in tables[n]
        ensures k in before && before[k] == t[k]
      {
        assert Lookup(after, k) == Some(t[k]);
      }
    } else {
      var k := Difference(after, before + t);
    }
  }

  lemma Difference(a: Table, b: Table) returns (k: Key)
    requires a != b
    ensures Lookup(a, k) != Lookup(b, k)
  {
    k :| (k in a || k in b) && Lookup(a, k) != Lookup(b, k);
  }

  lemma OverlayNewest(tables: map<Name, Table>, k: Key, n: Name)
    requires IsNewestWith(tables, tables.Keys, k, n)
    ensures Lookup(Overlay(tables), k) == Some(tables[n][k])
  {
    hide Merge, Stack, SortedKeys, Less;
    SearchFindsNewest(tables, SortedKeys(tables.Keys), k, n);
  }

  lemma OverlayNone(tables: map<Name, Table>, k: Key)
    requires forall n :: n in tables ==> k !in tables[n]
    ensures Lookup(Overlay(tables), k) == None
  {
    hide Merge, Stack, SortedKeys;
    SearchFindsNothing(tables, SortedKeys(tables.Keys), k);
  }

  lemma UntouchedKey(tables: map<Name, Table>, name: Name, t: Table, k: Key)
    requires name !in tables && k !in t
    ensures Lookup(Overlay(tables[name := t]), k) == Lookup(Overlay(tables), k)
  {
    hide Overlay, Less;
    if exists n :: n in tables && k in tables[n] {
      var n := NewestExists(tables, tables.Keys, k);
      OverlayNewest(tables, k, n);
      OverlayNewest(tables[name := t], k, n);
    } else {
      OverlayNone(tables, k);
      OverlayNone(tables[name := t], k);
    }
  }

  lemma WrittenKey(tables: map<Name, Table>, name: Name, t: Table, k: Key)
    requires name !in tables && k in t
    ensures (exists n :: n in tables && Less(name, n) && k in tables[n]) ==>
              k in Overlay(tables) && Lookup(Overlay(tables[name := t]), k) == Lookup(Overlay(tables), k)
    ensures !(exists n :: n in tables && Less(name, n) && k in tables[n]) ==>
              Lookup(Overlay(tables[name := t]), k) == Some(t[k])
  {
    hide Overlay, Less;
    var tables' := tables[name := t];
    if exists n :: n in tables && Less(name, n) && k in tables[n] {
      var y :| y in tables && Less(name, y) && k in tables[y];
      var n := NewestExists(tables, tables.Keys, k);
      if n != y { LessTransitive(name, y, n); }
      OverlayNewest(tables, k, n);
      OverlayNewest(tables', k, n);
    } else {
      forall n | n in tables && k in tables[n] ensures Less(n, name) { LessTotal(n, name); }
      OverlayNewest(tables', k, name);
    }
  }

  // ---------------------------------------------------------------- when filters suffice

  /** A newer indexed table also holds the key. */
  ghost predicate Shadowed(tables: map<Name, Table>, filters: Filters, n: Name, k: Key) {
    exists n' :: n' in filters && n' in tables && Less(n, n') && k in tables[n']
  }

  /** Filters cover exactly their tables' keys; a key of a table without a filter is covered elsewhere:
      by a newer table with one, or by `cover`. */
  ghost predicate FiltersOk(tables: map<Name, Table>, filters: Filters, cover: Table) {
    && filters.Keys <= tables.Keys
    && (forall n :: n in filters ==> filters[n] == tables[n].Keys)
    && (forall n, k | n in tables && n !in filters ::
          k in tables[n] ==> k in cover || Shadowed(tables, filters, n, k))
  }

  lemma NewestIsIndexed(tables: map<Name, Table>, filters: Filters, cover: Table, k: Key, n: Name)
    requires FiltersOk(tables, filters, cover) && k !in cover
    requires IsNewestWith(tables, tables.Keys, k, n)
    ensures n in filters
  {
    hide Less;
    if n !in filters {
      var n' :| n' in filters && n' in tables && Less(n, n') && k in tables[n'];
      LessAsymmetric(n, n');
    }
  }

  /** For a key outside the cover, a filtered search finds exactly what an unfiltered one finds,
      whatever false positives occur. */
  lemma FilteredSearchIsPlainSearch(tables: map<Name, Table>, filters: Filters, cover: Table,
                                    noise: (Name, Key) -> bool, k: Key)
    requires FiltersOk(tables, filters, cover) && k !in cover
    ensures Search(tables, filters, noise, k) == PlainSearch(tables, k) == Lookup(Overlay(tables), k)
  {
    hide FirstHit, Merge, SortedKeys, Reverse, Stack, Less, Shadowed;
    PlainSearchIsOverlay(tables, k);
    var all, some := SortedKeys(tables.Keys), SortedKeys(MayContain(filters, noise, k));
    HitIsMerge(tables, some, k);
    if exists n :: n in tables && k in tables[n] {
      var n := NewestExists(tables, tables.Keys, k);
      NewestIsIndexed(tables, filters, cover, k, n);
      SearchFindsNewest(tables, all, k, n);
      SearchFindsNewest(tables, some, k, n);
    } else {
      SearchFindsNothing(tables, all, k);
      SearchFindsNothing(tables, some, k);
    }
  }

  /** When every table has its filter, this holds for every key. */
  lemma CompleteFiltersSearch(tables: map<Name, Table>, filters: Filters, cover: Table,
                              noise: (Name, Key) -> bool, k: Key)
    requires FiltersOk(tables, filters, cover) && filters.Keys == tables.Keys
    ensures Search(tables, filters, noise, k) == PlainSearch(tables, k)
  {
    hide Search, PlainSearch;
    FilteredSearchIsPlainSearch(tables, filters, map[], noise, k);
  }

  /** What a filtered search finds, for every key and whatever false positives occur: the entry of the newest
      indexed table with the key, and nothing when no indexed table has it. */
  lemma SearchIsNewestIndexed(tables: map<Name, Table>, filters: Filters, noise: (Name, Key) -> bool, k: Key)
    requires filters.Keys <= tables.Keys && forall n :: n in filters ==> filters[n] == tables[n].Keys
    ensures forall n :: IsNewestWith(tables, filters.Keys, k, n) ==>
              Search(tables, filters, noise, k) == Some(tables[n][k])
    ensures (forall n :: !IsNewestWith(tables, filters.Keys, k, n)) ==> Search(tables, filters, noise, k) == None
  {
    hide FirstHit, Merge, SortedKeys, Reverse, Stack, Less;
    var some := SortedKeys(MayContain(filters, noise, k));
    HitIsMerge(tables, some, k);
    forall n | IsNewestWith(tables, filters.Keys, k, n)
      ensures Search(tables, filters, noise, k) == Some(tables[n][k])
    {
      SearchFindsNewest(tables, some, k, n);
    }
    if exists n :: n in filters && k in tables[n] {
      var n := NewestExists(tables, filters.Keys, k);
    } else {
      SearchFindsNothing(tables, some, k);
    }
  }

  /** The memtable holds a tombstone for the key, and the newest indexed table with the key, `n`, holds data. */
  ghost predicate IsResurrectedFrom(s: State, k: Key, n: Name)
    requires s.memory.Some? && s.memory.value.filters.Keys <= s.disk.tables.Keys
  {
    var m := s.memory.value;
    && k in m.memtable && m.memtable[k].Tombstone?
    && IsNewestWith(s.disk.tables, m.filters.Keys, k, n) && s.disk.tables[n][k].Data?
  }

  /** `get` is right if and only if it is not the case that the memtable holds a tombstone for the key while
      the newest indexed table with the key holds data; in that case it returns that data. */
  lemma GetExact(s: State, noise: (Name, Key) -> bool, k: Key)
    requires s.memory.Some? && FiltersOk(s.disk.tables, s.memory.value.filters, s.memory.value.memtable)
    ensures Get(s, noise, k) == Lookup(Visible(LiveTable(s)), k) <==> !exists n :: IsResurrectedFrom(s, k, n)
    ensures forall n :: IsResurrectedFrom(s, k, n) ==>
              Get(s, noise, k) == Some(s.disk.tables[n][k].bytes) && k !in Visible(LiveTable(s))
  {
    hide Search, Overlay, PlainSearch, IsNewestWith, Shadowed;
    var m := s.memory.value;
    if k !in m.memtable {
      FilteredSearchIsPlainSearch(s.disk.tables, m.filters, m.memtable, noise, k);
    } else if m.memtable[k].Tombstone? {
      NewestIsMember(s.disk.tables, m.filters.Keys, k);
      SearchIsNewestIndexed(s.disk.tables, m.filters, noise, k);
      if n :| IsNewestWith(s.disk.tables, m.filters.Keys, k, n) {
        assert IsResurrectedFrom(s, k, n) <==> s.disk.tables[n][k].Data?;
      }
    }
  }

  lemma NewestIsMember(tables: map<Name, Table>, names: set<Name>, k: Key)
    requires names <= tables.Keys
    ensures forall n :: IsNewestWith(tables, names, k, n) ==> n in tables && k in tables[n]
  {
  }

  // ---------------------------------------------------------------- the filters over a whole run

  ghost predicate FilterPhaseOk(m: Memory) {
    (m.flush.Indexed? || m.flush.Ending?) ==> m.flush.name in m.filters
  }

  ghost predicate FileOk(s: State) {
    && s.disk.logTime <= s.disk.clock
    && (AcceptsBloomFile(s.disk) ==>
          FiltersOk(s.disk.tables, s.disk.bloomFile.value.filters, Replay(Unfinished(s.disk.log))))
    && (s.disk.bloomFile.Some? ==> s.disk.bloomFile.value.time <= s.disk.clock)
  }

  ghost predicate Indexing(s: State) {
    && FileOk(s)
    && (s.memory.Some? ==>
          && FiltersOk(s.disk.tables, s.memory.value.filters, s.memory.value.memtable)
          && FilterPhaseOk(s.memory.value))
  }

  lemma FiltersOkMono(tables: map<Name, Table>, filters: Filters, cover: Table, cover': Table)
    requires FiltersOk(tables, filters, cover) && cover.Keys <= cover'.Keys
    ensures FiltersOk(tables, filters, cover')
  {
    hide Shadowed;
  }

  lemma BatchKeysAreOpen(batch: seq<Transaction>, open: seq<Transaction>)
    requires forall i :: 0 <= i < |batch| ==> batch[i] in open
    ensures Replay(batch).Keys <= Replay(open).Keys
  {
    hide Replay;
    ReplayAbsorbs(map[], batch, open);
    assert (map[] + Replay(batch) + Replay(open)).Keys == (map[] + Replay(open)).Keys;
  }

  lemma FiltersOkNewTable(tables: map<Name, Table>, filters: Filters, cover: Table, name: Name, t: Table)
    requires FiltersOk(tables, filters, cover) && name !in tables && t.Keys <= cover.Keys
    ensures FiltersOk(tables[name := t], filters, cover)
  {
    hide Less;
    var tables' := tables[name := t];
    forall n, k | n in tables' && n !in filters && k in tables'[n]
      ensures k in cover || Shadowed(tables', filters, n, k)
    {
      if n != name && k !in cover {
        var n' :| n' in filters && n' in tables && Less(n, n') && k in tables[n'];
        assert n' in filters && n' in tables' && Less(n, n') && k in tables'[n'];
      }
    }
  }

  lemma FiltersOkAdd(tables: map<Name, Table>, filters: Filters, cover: Table, name: Name)
    requires FiltersOk(tables, filters, cover) && name in tables
    ensures FiltersOk(tables, filters[name := tables[name].Keys], cover)
  {
    hide Less;
    var filters' := filters[name := tables[name].Keys];
    forall n, k | n in tables && n !in filters' && k in tables[n]
      ensures k in cover || Shadowed(tables, filters', n, k)
    {
      if k !in cover {
        var n' :| n' in filters && n' in tables && Less(n, n') && k in tables[n'];
        assert n' in filters' && n' in tables && Less(n, n') && k in tables[n'];
      }
    }
  }

  lemma FiltersOkClear(tables: map<Name, Table>, filters: Filters, name: Name)
    requires name in filters && name in tables && NotOlder(tables, name)
    requires FiltersOk(tables, filters, tables[name])
    ensures FiltersOk(tables, filters, map[])
  {
    hide Less;
    forall n, k | n in tables && n !in filters && k in tables[n]
      ensures Shadowed(tables, filters, n, k)
    {
      if k in tables[name] {
        assert name in filters && name in tables && Less(n, name) && k in tables[name];
      }
    }
  }

  // ---------------------------------------------------------------- every step keeps the index usable

  lemma IndexingLogWrite(s: State, a: Action)
    requires Indexing(s) && Enabled(s, a) && (a.Begin? || a.AppendEnd?)
    ensures Indexing(Do(s, a))
  {
    hide FiltersOk, Replay, Unfinished;
  }

  lemma IndexingApply(s: State, tx: Transaction)
    requires Indexing(s) && Enabled(s, Apply(tx))
    ensures Indexing(Do(s, Apply(tx)))
  {
    hide FiltersOk, Replay, Unfinished, Effects;
    var m := s.memory.value;
    FiltersOkMono(s.disk.tables, m.filters, m.memtable, m.memtable + Effects(tx.operations));
  }

  lemma IndexingWriteTable(s: State, millis: nat)
    requires Base(s) && Indexing(s) && Enabled(s, WriteTable(millis))
    ensures Indexing(Do(s, WriteTable(millis)))
  {
    hide FiltersOk, Replay, Unfinished, Begins, SstName, NotOlder, LogOk, NothingLost, Less;
    var d, m := s.disk, s.memory.value;
    var name := SstName(millis);
    if m.memtable != map[] && name !in d.tables {
      FiltersOkNewTable(d.tables, m.filters, m.memtable, name, m.memtable);
      if AcceptsBloomFile(d) {
        BatchKeysAreOpen(m.batch, Unfinished(d.log));
        FiltersOkNewTable(d.tables, d.bloomFile.value.filters, Replay(Unfinished(d.log)), name, m.memtable);
      }
    }
  }

  lemma IndexingAddFilter(s: State)
    requires Base(s) && Indexing(s) && Enabled(s, AddFilter)
    ensures Indexing(Do(s, AddFilter))
  {
    hide FiltersOk, Replay, Unfinished, Begins, Accounted, LogOk, NothingLost, NotOlder;
    var d, m := s.disk, s.memory.value;
    FiltersOkAdd(d.tables, m.filters, m.memtable, m.flush.name);
  }

  lemma IndexingClear(s: State)
    requires Base(s) && Indexing(s) && Enabled(s, ClearMemtable)
    ensures Indexing(Do(s, ClearMemtable))
  {
    hide FiltersOk, Replay, Unfinished, Begins, Accounted, LogOk, NothingLost, NotOlder;
    var d, m := s.disk, s.memory.value;
    FiltersOkClear(d.tables, m.filters, m.flush.name);
  }

  lemma IndexingWriteBloomFile(s: State)
    requires Base(s) && Indexing(s) && Enabled(s, WriteBloomFile)
    ensures Indexing(Do(s, WriteBloomFile))
  {
    hide FiltersOk, Replay, Unfinished, Begins, LogOk, NothingLost;
    var d, m := s.disk, s.memory.value;
    BatchKeysAreOpen(m.batch, Unfinished(d.log));
    FiltersOkMono(d.tables, m.filters, m.memtable, Replay(Unfinished(d.log)));
  }

  lemma IndexingRest(s: State, a: Action)
    requires Indexing(s) && Enabled(s, a) && (a.FinishFlush? || a.Crash?)
    ensures Indexing(Do(s, a))
  {
    hide FiltersOk, Replay, Unfinished;
  }

  lemma IndexingRecover(s: State)
    requires Indexing(s) && s.memory.None?
    ensures Indexing(Do(s, Recover))
  {
    hide Replay, Unfinished, Shadowed;
  }

  lemma IndexingStep(s: State, a: Action)
    requires Base(s) && Indexing(s) && Enabled(s, a)
    ensures Indexing(Do(s, a))
  {
    hide Base, Indexing, Do, Enabled;
    match a
    case Begin(tx) => IndexingLogWrite(s, a);
    case AppendEnd => IndexingLogWrite(s, a);
    case Apply(tx) => IndexingApply(s, tx);
    case WriteTable(millis) => IndexingWriteTable(s, millis);
    case AddFilter => IndexingAddFilter(s);
    case ClearMemtable => IndexingClear(s);
    case WriteBloomFile => IndexingWriteBloomFile(s);
    case Recover => EnabledRecover(s); IndexingRecover(s);
    case _ => IndexingRest(s, a);
  }

  lemma IndexingInitially()
    ensures Indexing(INITIAL)
  {
  }

  lemma {:induction false} IndexingAlways(s: State, run: seq<Action>)
    requires Base(s) && Indexing(s) && Legal(s, run)
    ensures Base(Final(s, run)) && Indexing(Final(s, run))
    decreases |run|
  {
    hide Base, Indexing, Do, Enabled;
    if run != [] {
      BaseStep(s, run[0]);
      IndexingStep(s, run[0]);
      IndexingAlways(Do(s, run[0]), run[1..]);
    }
  }

  // ---------------------------------------------------------------- when the bloom file is accepted

  predicate WritesLog(a: Action) { a.Begin? || a.AppendEnd? }

  /** Saving a non-empty index makes the file acceptable, a write to the log makes it stale, nothing else matters. */
  lemma AcceptanceStep(s: State, a: Action)
    requires FileOk(s) && Enabled(s, a)
    ensures AcceptsBloomFile(Do(s, a).disk) <==>
            if WritesLog(a) then false
            else AcceptsBloomFile(s.disk) || (a.WriteBloomFile? && s.memory.value.filters != map[])
  {
    hide FiltersOk, Replay, Unfinished, Effects, SstName, NotOlder, KeySets;
  }

  /** A file as old as the log is taken; a save stores the filters as they are, and nothing if there are none. */
  lemma TiesAndSaves(s: State, d: Disk)
    requires Enabled(s, WriteBloomFile)
    ensures d.bloomFile.Some? && d.logTime == d.bloomFile.value.time ==> AcceptsBloomFile(d)
    ensures var s' := Do(s, WriteBloomFile);
            if s.memory.value.filters == map[] then s' == s
            else s'.disk.bloomFile.Some? && s'.disk.bloomFile.value.filters == s.memory.value.filters
  {
  }

  /** From a moment on in which the index is not saved again: the bloom file is accepted if and only if it was and
      no line has been written to the log since. */
  lemma {:induction false} AcceptedWhileLogRests(s: State, run: seq<Action>)
    requires Base(s) && Indexing(s) && Legal(s, run)
    requires forall i :: 0 <= i < |run| ==> !run[i].WriteBloomFile?
    ensures AcceptsBloomFile(Final(s, run).disk) <==>
            AcceptsBloomFile(s.disk) && forall i :: 0 <= i < |run| ==> !WritesLog(run[i])
    decreases |run|
  {
    hide Base, FileOk, Do, Enabled, AcceptsBloomFile, FiltersOk;
    if run != [] {
      AcceptanceStep(s, run[0]);
      BaseStep(s, run[0]);
      IndexingStep(s, run[0]);
      AcceptedWhileLogRests(Do(s, run[0]), run[1..]);
      assert forall i :: 0 < i < |run| ==> run[i] == run[1..][i - 1];
    }
  }

  // ---------------------------------------------------------------- main results

  /** In every reachable state, `get` returns what a plain map would, except exactly when a tombstone in the
      memtable hides data in the newest indexed table with that key: then it returns that data. */
  lemma GetInEveryRun(run: seq<Action>, noise: (Name, Key) -> bool, k: Key)
    requires Legal(INITIAL, run) && Readable(Final(INITIAL, run))
    ensures var s := Final(INITIAL, run);
            && s.memory.value.filters.Keys <= s.disk.tables.Keys
            && (Get(s, noise, k) == Lookup(Visible(LiveTable(s)), k) <==> !exists n :: IsResurrectedFrom(s, k, n))
            && (forall n :: IsResurrectedFrom(s, k, n) ==>
                  Get(s, noise, k) == Some(s.disk.tables[n][k].bytes) && k !in Visible(LiveTable(s)))
  {
    hide Do, Enabled, Get, Visible, LiveTable, Shadowed, Base, FileOk, IsNewestWith;
    BaseInitially();
    IndexingInitially();
    IndexingAlways(INITIAL, run);
    GetExact(Final(INITIAL, run), noise, k);
  }

  /** In every reachable state, for every key the memtable lacks, the filtered search is the plain one. */
  lemma FiltersNeverHideATable(run: seq<Action>, noise: (Name, Key) -> bool, k: Key)
    requires Legal(INITIAL, run) && Final(INITIAL, run).memory.Some?
    requires k !in Final(INITIAL, run).memory.value.memtable
    ensures var s := Final(INITIAL, run);
            && s.memory.value.filters.Keys <= s.disk.tables.Keys
            && Search(s.disk.tables, s.memory.value.filters, noise, k) == PlainSearch(s.disk.tables, k)
  {
    hide Do, Enabled, Search, PlainSearch, Shadowed, Base, FileOk, Overlay;
    BaseInitially();
    IndexingInitially();
    IndexingAlways(INITIAL, run);
    var s := Final(INITIAL, run);
    FilteredSearchIsPlainSearch(s.disk.tables, s.memory.value.filters, s.memory.value.memtable, noise, k);
  }

  /** Whenever recovery accepts a bloom file, the file has a filter for every table. */
  predicate NeverStale(s: State, run: seq<Action>)
    requires Legal(s, run)
    decreases |run|
  {
    run == [] ||
    ((run[0].Recover? && AcceptsBloomFile(s.disk) ==> s.disk.bloomFile.value.filters.Keys == s.disk.tables.Keys)
     && NeverStale(Do(s, run[0]), run[1..]))
  }

  ghost predicate Complete(s: State) {
    s.memory.Some? ==>
      var m := s.memory.value;
      m.filters.Keys + (if m.flush.Wrote? then {m.flush.name} else {}) == s.disk.tables.Keys
  }

  lemma {:induction false} CompleteAlways(s: State, run: seq<Action>)
    requires Complete(s) && Legal(s, run) && NeverStale(s, run)
    ensures Complete(Final(s, run))
    decreases |run|
  {
    if run != [] {
      CompleteStep(s, run[0]);
      hide Do, Enabled, Complete;
      CompleteAlways(Do(s, run[0]), run[1..]);
    }
  }

  lemma CompleteStep(s: State, a: Action)
    requires Complete(s) && Enabled(s, a)
    requires a.Recover? && AcceptsBloomFile(s.disk) ==> s.disk.bloomFile.value.filters.Keys == s.disk.tables.Keys
    ensures Complete(Do(s, a))
  {
    hide Replay, Unfinished, Effects, SstName, NotOlder;
  }

  /** In runs that never accept a stale bloom file, the index lists exactly the tables on disk between steps,
      and the filtered search is the plain search for every key. */
  lemma RebuiltIndexIsComplete(run: seq<Action>, noise: (Name, Key) -> bool, k: Key)
    requires Legal(INITIAL, run) && NeverStale(INITIAL, run) && Readable(Final(INITIAL, run))
    ensures var s := Final(INITIAL, run);
            && s.memory.value.filters.Keys == s.disk.tables.Keys
            && Search(s.disk.tables, s.memory.value.filters, noise, k) == PlainSearch(s.disk.tables, k)
  {
    hide Do, Enabled, Search, PlainSearch, FiltersOk, Base, FileOk, Overlay;
    BaseInitially();
    IndexingInitially();
    IndexingAlways(INITIAL, run);
    CompleteAlways(INITIAL, run);
    var s := Final(INITIAL, run);
    CompleteFiltersSearch(s.disk.tables, s.memory.value.filters, s.memory.value.memtable, noise, k);
  }

  /** In such runs `get` fails exactly when a tombstone in the memtable hides data in the newest table on disk
      with that key, and then returns that data. */
  lemma GetWithCompleteIndex(run: seq<Action>, noise: (Name, Key) -> bool, k: Key)
    requires Legal(INITIAL, run) && NeverStale(INITIAL, run) && Readable(Final(INITIAL, run))
    ensures var s := Final(INITIAL, run);
            var m, disk := s.memory.value, Overlay(s.disk.tables);
            var resurrected := k in m.memtable && m.memtable[k].Tombstone? && k in disk && disk[k].Data?;
            && m.filters.Keys == s.disk.tables.Keys
            && (Get(s, noise, k) == Lookup(Visible(LiveTable(s)), k) <==> !resurrected)
            && (resurrected ==> Get(s, noise, k) == Some(disk[k].bytes) && k !in Visible(LiveTable(s)))
  {
    hide Do, Enabled, Legal, Final, NeverStale, Get, Visible, LiveTable, Overlay, IsNewestWith, PlainSearch, Search;
    RebuiltIndexIsComplete(run, noise, k);
    GetInEveryRun(run, noise, k);
    NewestOnDisk(Final(INITIAL, run).disk.tables, k);
  }

  /** The overlay holds the entry of the newest table with the key. */
  lemma NewestOnDisk(tables: map<Name, Table>, k: Key)
    ensures forall n :: IsNewestWith(tables, tables.Keys, k, n) ==>
              n in tables && k in tables[n] && k in Overlay(tables) && Overlay(tables)[k] == tables[n][k]
    ensures k in Overlay(tables) ==> exists n :: IsNewestWith(tables, tables.Keys, k, n)
  {
    hide Overlay, Less;
    forall n | IsNewestWith(tables, tables.Keys, k, n)
      ensures k in Overlay(tables) && Overlay(tables)[k] == tables[n][k]
    {
      OverlayNewest(tables, k, n);
    }
    if exists n :: n in tables && k in tables[n] {
      var n := NewestExists(tables, tables.Keys, k);
    } else {
      OverlayNone(tables, k);
    }
  }
}
