/** Runs that show where stronger statements would be false. */
module LsmExamples {
  import opened Bytes
  import opened Store
  import opened Tables
  import opened CommitLog
  import opened FileNames
  import opened Lsm
  import opened LsmReplay
  import opened LsmReaders
  import opened LsmStore

  /** A state some legal run reaches. */
  ghost predicate Reachable(s: State) {
    exists run :: Legal(INITIAL, run) && Final(INITIAL, run) == s
  }

  lemma Extend(s: State, more: seq<Action>)
    requires Reachable(s) && Legal(s, more)
    ensures Reachable(Final(s, more))
  {
    hide Legal, Final;
    var run :| Legal(INITIAL, run) && Final(INITIAL, run) == s;
    LegalAppend(INITIAL, run, more);
  }

  lemma ExtendOne(s: State, a: Action)
    requires Reachable(s) && Enabled(s, a)
    ensures Reachable(Do(s, a))
  {
    hide Reachable, Do, Enabled, Legal, Final;
    LegalNone(Do(s, a));
    LegalPair(s, a, []);
    Extend(s, [a] + []);
  }

  /** One transaction, from log to memtable. */
  function AfterTransact(s: State, tx: Transaction): State
    requires s.memory.Some?
  {
    var m := s.memory.value;
    s.(disk := AppendLine(s.disk, BeginTx(tx)),
       memory := Some(m.(memtable := m.memtable + Effects(tx.operations), batch := m.batch + [tx])),
       acked := s.acked + {tx})
  }

  lemma ExtendTransact(s: State, tx: Transaction)
    requires Reachable(s) && Readable(s) && FreshId(s.disk.log, tx.id) && s.memory.value.pending == {}
    ensures Reachable(AfterTransact(s, tx))
  {
    hide Reachable, Effects, Legal, Final, FreshId;
    TransactRun(s, tx);
    Extend(s, [Begin(tx), Apply(tx)]);
    assert Do(Do(s, Begin(tx)), Apply(tx)).memory.value.pending == {};
    assert Do(Do(s, Begin(tx)), Apply(tx)) == AfterTransact(s, tx);
  }

  lemma ExtendFlush(s: State, millis: nat)
    requires Reachable(s) && Readable(s) && NotOlder(s.disk.tables, SstName(millis))
    ensures Reachable(AfterFlush(s, millis))
  {
    hide Reachable, Legal, Final, NotOlder, FlushSteps, AfterFlush;
    FlushRun(s, millis);
    Extend(s, FlushSteps(s, millis));
  }

  function Started(): State {
    State(Disk([], map[], None, 0, 0), Some(Memory(map[], [], map[], {}, Idle)), {}, map[])
  }

  lemma StartedIsReachable()
    ensures Reachable(Started())
  {
    hide Replay;
    ReplayNone();
    UnfinishedNothing();
    assert KeySets(map[]) == map[];
    assert Legal(INITIAL, []) && Final(INITIAL, []) == INITIAL;
    ExtendOne(INITIAL, Recover);
  }

  function SetTx(id: Uuid, k: Key, v: Bytes): Transaction { Transaction(id, [Set(k, v)]) }

  function DeleteTx(id: Uuid, k: Key): Transaction { Transaction(id, [Delete(k)]) }

  lemma SingleEffects(op: Operation)
    ensures Effects([op]) == map[op.key := Written(op)]
  {
    assert [op][..0] == [];
    assert Effects([op][..0]) == map[];
  }

  // ---------------------------------------------------------------- one key, set and flushed

  /** After `k` is set by a transaction and flushed at `millis`. */
  function SetAndFlushed(id: Uuid, k: Key, v: Bytes, millis: nat): State {
    var tx, name := SetTx(id, k, v), SstName(millis);
    State(Disk([BeginTx(tx), EndTx(id)], map[name := map[k := Data(v)]], None, 2, 2),
          Some(Memory(map[], [], map[name := {k}], {}, Idle)), {tx}, map[name := [tx]])
  }

  lemma SetAndFlushedIsReachable(id: Uuid, k: Key, v: Bytes, millis: nat)
    ensures Reachable(SetAndFlushed(id, k, v, millis))
  {
    hide Reachable, Effects, SstName;
    var tx := SetTx(id, k, v);
    StartedIsReachable();
    ExtendTransact(Started(), tx);
    SingleEffects(Set(k, v));
    var s := AfterTransact(Started(), tx);
    assert s.memory.value.memtable == map[k := Data(v)] && s.memory.value.batch == [tx];
    ExtendFlush(s, millis);
    assert Ids([tx]) == [id] && EndLines([id]) == [EndTx(id)];
    assert [BeginTx(tx)] + [EndTx(id)] == [BeginTx(tx), EndTx(id)];
    assert (map[k := Data(v)]).Keys == {k};
    assert AfterFlush(s, millis) == SetAndFlushed(id, k, v, millis);
  }

  /** Set, flush, delete: `get` returns the deleted value, for every key, value, time and pair of ids. */
  lemma DeletedKeyComesBack(id: Uuid, id': Uuid, k: Key, v: Bytes, millis: nat, noise: (Name, Key) -> bool)
    requires id != id'
    ensures var s := AfterTransact(SetAndFlushed(id, k, v, millis), DeleteTx(id', k));
            Reachable(s) && Readable(s) && Get(s, noise, k) == Some(v) && k !in Visible(LiveTable(s))
  {
    hide Reachable, Effects, SstName, SortedKeys;
    var before := SetAndFlushed(id, k, v, millis);
    SetAndFlushedIsReachable(id, k, v, millis);
    ExtendTransact(before, DeleteTx(id', k));
    SingleEffects(Delete(k));
    var s := AfterTransact(before, DeleteTx(id', k));
    var name := SstName(millis);
    assert s.memory.value.memtable == map[k := Tombstone];
    assert MayContain(s.memory.value.filters, noise, k) == {name};
    SortedOne(name);
    assert Reverse([name]) == [name];
  }

  // ---------------------------------------------------------------- a bloom file written by a stale index

  /** Set and flush; set again; save the index; write the next table and crash before its ends: the saved
      index is accepted although it lacks that table. */
  function StaleAccepted(id: Uuid, id': Uuid, k: Key, v: Bytes, t1: nat, t2: nat): State {
    var tx, tx' := SetTx(id, k, v), SetTx(id', k, v);
    var n1, n2 := SstName(t1), SstName(t2);
    State(Disk([BeginTx(tx), EndTx(id), BeginTx(tx')],
               map[n1 := map[k := Data(v)], n2 := map[k := Data(v)]],
               Some(BloomFile(map[n1 := {k}], 4)), 3, 4),
          None, {tx, tx'}, map[n1 := [tx], n2 := [tx']])
  }

  lemma StaleAcceptedIsReachable(id: Uuid, id': Uuid, k: Key, v: Bytes, t1: nat, t2: nat)
    requires id != id' && Less(SstName(t1), SstName(t2))
    ensures Reachable(StaleAccepted(id, id', k, v, t1, t2))
  {
    hide Reachable, Effects, SstName, Less;
    var tx, tx' := SetTx(id, k, v), SetTx(id', k, v);
    var n1, n2 := SstName(t1), SstName(t2);
    SetAndFlushedIsReachable(id, k, v, t1);
    var s1 := SetAndFlushed(id, k, v, t1);
    ExtendTransact(s1, tx');
    SingleEffects(Set(k, v));
    var s2 := AfterTransact(s1, tx');
    ExtendOne(s2, WriteBloomFile);
    assert n1 in s2.memory.value.filters;
    var s3 := Do(s2, WriteBloomFile);
    ExtendOne(s3, WriteTable(t2));
    LessAsymmetric(n1, n2);
    assert s3.memory.value.memtable == map[k := Data(v)] && k in s3.memory.value.memtable;
    assert n2 !in s3.disk.tables;
    var s4 := Do(s3, WriteTable(t2));
    ExtendOne(s4, Crash);
    assert s2.memory.value.batch == [tx'];
    assert s1.disk.log + [BeginTx(tx')] == [BeginTx(tx), EndTx(id), BeginTx(tx')];
    assert s3.acked == {tx, tx'};
    assert s4.disk.tables == map[n1 := map[k := Data(v)], n2 := map[k := Data(v)]];
    assert s4.origin == map[n1 := [tx], n2 := [tx']];
    assert Do(s4, Crash) == StaleAccepted(id, id', k, v, t1, t2);
  }

  lemma StaleLog(tx: Transaction, tx': Transaction)
    requires tx.id != tx'.id
    ensures Unfinished([BeginTx(tx), EndTx(tx.id), BeginTx(tx')]) == [tx']
    ensures Unfinished([BeginTx(tx), EndTx(tx.id), BeginTx(tx'), EndTx(tx'.id)]) == []
  {
    hide Unfinished;
    var log := [BeginTx(tx), EndTx(tx.id)];
    assert [BeginTx(tx)] + [EndTx(tx.id)] == log && [] + [BeginTx(tx)] == [BeginTx(tx)];
    assert log + [BeginTx(tx')] == [BeginTx(tx), EndTx(tx.id), BeginTx(tx')];
    assert log + [BeginTx(tx')] + [EndTx(tx'.id)] == [BeginTx(tx), EndTx(tx.id), BeginTx(tx'), EndTx(tx'.id)];
    UnfinishedNothing();
    UnfinishedAppend([], BeginTx(tx));
    UnfinishedAppend([BeginTx(tx)], EndTx(tx.id));
    UnfinishedAppend(log, BeginTx(tx'));
    UnfinishedAppend(log + [BeginTx(tx')], EndTx(tx'.id));
    WithoutNone([], tx.id);
    WithoutNone([], tx'.id);
    WithoutPush([], tx);
    WithoutPush([], tx');
    assert [] + [tx] == [tx] && [] + [tx'] == [tx'];
  }

  /** A table can stay out of the index for good: after recovery from a stale bloom file, a flush ends the
      transactions behind the missing table, and the next bloom file, again accepted, still lacks it. */
  lemma MissingTableMayBeFinished(id: Uuid, id': Uuid, k: Key, v: Bytes, t1: nat, t2: nat, t3: nat)
    requires id != id' && Less(SstName(t1), SstName(t2)) && Less(SstName(t2), SstName(t3))
    ensures exists s ::
              && Reachable(s) && AcceptsBloomFile(s.disk)
              && SstName(t2) in s.disk.tables && SstName(t2) !in s.disk.bloomFile.value.filters
              && SstName(t2) in s.origin && SetTx(id', k, v) in s.origin[SstName(t2)]
              && SetTx(id', k, v) !in Unfinished(s.disk.log)
  {
    hide Reachable, Effects, SstName, Less, Unfinished, Replay;
    var tx, tx' := SetTx(id, k, v), SetTx(id', k, v);
    var n1, n2, n3 := SstName(t1), SstName(t2), SstName(t3);
    LessAsymmetric(n1, n2);
    LessAsymmetric(n2, n3);
    LessTransitive(n1, n2, n3);
    LessAsymmetric(n1, n3);
    StaleLog(tx, tx');
    ReplaySingle(tx');
    SingleEffects(Set(k, v));
    StaleAcceptedIsReachable(id, id', k, v, t1, t2);
    var s0 := StaleAccepted(id, id', k, v, t1, t2);
    ExtendOne(s0, Recover);
    var s1 := Do(s0, Recover);
    assert s1.memory.value.batch == [tx'] && k in s1.memory.value.memtable && n3 !in s1.disk.tables;
    ExtendFlush(s1, t3);
    var s2 := AfterFlush(s1, t3);
    assert Ids([tx']) == [id'] && EndLines([id']) == [EndTx(id')];
    assert s2.disk.log == [BeginTx(tx), EndTx(id), BeginTx(tx'), EndTx(id')];
    ExtendOne(s2, WriteBloomFile);
    var s := Do(s2, WriteBloomFile);
    assert n2 in s.disk.tables && n2 !in s.disk.bloomFile.value.filters && tx' in s.origin[n2];
    assert AcceptsBloomFile(s.disk);
  }
}
