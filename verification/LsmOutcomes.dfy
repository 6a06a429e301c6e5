/** How flushes turn out among other tasks, and that all tasks can finish. */
module LsmOutcomes {
  import opened Bytes
  import opened Store
  import opened Tables
  import opened CommitLog
  import opened FileNames
  import opened Lsm
  import opened LsmReplay
  import opened LsmInvariant
  import opened LsmTheorems
  import opened Locks
  import opened LsmTasks

  // ---------------------------------------------------------------- where the store decides

  /** From the check on, a flush that goes on has the data for writing. */
  lemma FlushHoldsData(t: Task)
    requires Tracked(t) && MayFlush(t.kind)
    requires var n := Steps(t) - |Before(t.kind)|; n == 1 || (2 <= n <= 3 && !t.kind.flush.Nothing?)
    ensures HoldsForWriting(t, DataLock)
  {
    hide Program, HeldBy, Before, Behind;
    var b, f, n := Before(t.kind), FlushProgram(t.kind.flush), Steps(t) - |Before(t.kind)|;
    Layout(t.kind);
    FlushStarts(t.kind.flush);
    assert Program(t.kind)[..Steps(t)] == b + f[..n];
    HeldBehind(b, f[..n], 0, DataLock);
  }

  lemma FlushStarts(f: Locks.Flush)
    ensures |FlushProgram(f)| >= 3 && FlushProgram(f)[0] == Acquire(DataLock, Write) && FlushProgram(f)[1].Use?
    ensures !f.Nothing? ==> FlushProgram(f)[2] == Acquire(BloomMapLock, Write)
  {
  }

  /** The check is where a flush reads the memtable with the data held for writing. */
  lemma CheckExact(t: Task)
    requires Tracked(t) && MayFlush(t.kind) && t.rest != []
    ensures AtCheck(t) <==> t.rest[0] == Use(Memtable, Read) && HoldsForWriting(t, DataLock)
  {
    hide Program, HeldBy, Before, Behind, FlushProgram;
    if AtCheck(t) {
      AtDecision(t);
      FlushHoldsData(t);
    } else if t.rest[0] == Use(Memtable, Read) {
      var p, n := Program(t.kind), Steps(t);
      Layout(t.kind);
      assert p[n] == t.rest[0];
      OtherReads(t.kind);
      if n < |Before(t.kind)| { assert p[n] == Before(t.kind)[n] && p[..n] == Before(t.kind)[..n]; }
    }
  }

  /** Where else the memtable is read: by a tick before its flush, with the data held for reading. */
  lemma OtherReads(k: Kind)
    requires MayFlush(k)
    ensures forall n :: 0 <= n < |Before(k)| && Before(k)[n] == Use(Memtable, Read) ==>
              DataLock in HeldBy(Before(k)[..n]) && HeldBy(Before(k)[..n])[DataLock] == Read
    ensures forall n :: 0 <= n < |FlushProgram(k.flush)| && FlushProgram(k.flush)[n] == Use(Memtable, Read) ==> n == 1
    ensures Use(Memtable, Read) !in Behind(k)
  {
    hide HeldBy;
    if k.TickAndFlush? { TickReads(); }
  }

  lemma TickReads()
    ensures var p := SEE_FLAG + LOOKUP_IN_MEMORY;
            DataLock in HeldBy(p[..4]) && HeldBy(p[..4])[DataLock] == Read
  {
    hide HeldBy;
    var p := SEE_FLAG + LOOKUP_IN_MEMORY;
    assert p[..4][..3] == p[..3] && p[..4][3] == Acquire(DataLock, Read);
    HeldTakes(p[..4]);
  }

  lemma HeldTakes(p: seq<Step>)
    requires p != [] && p[|p| - 1].Acquire?
    ensures HeldBy(p) == HeldBy(p[..|p| - 1])[p[|p| - 1].lock := p[|p| - 1].mode]
  {
  }

  /** A flush that reads the memtable with the data held for writing can always go on, and the store decides how: there
      is nothing to do exactly if the memtable is empty. */
  lemma CheckDecides(w: World, i: nat, env: Env)
    requires Linked(w, env) && i < |w.system.tasks|
    requires var t := w.system.tasks[i];
             MayFlush(t.kind) && t.rest != [] && t.rest[0] == Use(Memtable, Read) && HoldsForWriting(t, DataLock)
    ensures Possible(w, Go(i), env)
    ensures var t, w' := w.system.tasks[i], Moved(w, Go(i), env);
            && w'.store == w.store
            && w'.system.tasks[i].kind
               == WithFlush(t.kind, if w.store.memory.value.memtable == map[] then Nothing else Done)
  {
    hide Program, HeldBy, Tracked, TaskOk, Base, Inv, Before, SstName, HeldAfter, Ends, Legal, Final;
    var t, t' := w.system.tasks[i], Acting(w, i, env);
    assert Tracked(t);
    CheckExact(t);
    DecidedStays(w.store, t, env.clock(w.time));
    SameBefore(t.kind, t'.kind.flush);
    AtDecision(t');
    LegalNone(w.store);
  }

  /** A flush that comes to its file can go on if and only if the name is taken or sorts last; it is refused exactly if
      the name is taken, and otherwise leaves the memtable, which is not empty, under that name. */
  lemma CreateDecides(w: World, i: nat, env: Env)
    requires Linked(w, env) && i < |w.system.tasks|
    requires var t := w.system.tasks[i];
             MayFlush(t.kind) && t.rest != [] && IsFiles(t.rest[0])
    ensures var s, name := w.store, SstName(env.clock(w.time));
            Possible(w, Go(i), env) <==> name in s.disk.tables || NotOlder(s.disk.tables, name)
    ensures Possible(w, Go(i), env) ==>
              var s, s', name := w.store, Moved(w, Go(i), env).store, SstName(env.clock(w.time));
              var taken := name in s.disk.tables;
              && s.memory.value.memtable != map[]
              && Moved(w, Go(i), env).system.tasks[i].kind
                 == WithFlush(w.system.tasks[i].kind, if taken then Refused else Done)
              && s'.disk.tables == if taken then s.disk.tables else s.disk.tables[name := s.memory.value.memtable]
  {
    hide Program, HeldBy, Tracked, Base, Inv, Before, SstName, HeldAfter, Ends, Legal, Final, NotOlder, FlushAt;
    var t, t', s := w.system.tasks[i], Acting(w, i, env), w.store;
    assert Tracked(t) && TaskOk(s, t, env.txs(i)) && Placed(t);
    FilesExact(t);
    FlushAtIsSteps(t);
    DecidedStays(s, t, env.clock(w.time));
    SameBefore(t.kind, t'.kind.flush);
    AtDecision(t');
    LegalNone(s);
    if Possible(w, Go(i), env) && t'.kind.flush.Done? {
      NobodyDisturbs(w, i, env);
      var _ := InsideFlush(t);
      LegalOne(s, WriteTable(env.clock(w.time)));
    }
  }

  predicate IsFiles(step: Step) { step.Use? && step.thing == TableFiles }

  /** Table files are touched by a flush only where it creates its own. */
  lemma FilesExact(t: Task)
    requires Tracked(t) && Placed(t) && MayFlush(t.kind) && t.rest != [] && IsFiles(t.rest[0])
    ensures AtCreate(t) && t.kind.flush.Done?
  {
    hide Program, HeldBy, Before, Behind, FlushProgram;
    var p, n := Program(t.kind), Steps(t);
    Layout(t.kind);
    assert p[n] == t.rest[0];
    FilesAt(t.kind);
  }

  lemma FilesAt(k: Kind)
    requires MayFlush(k)
    ensures forall step :: step in Before(k) || step in Behind(k) ==> !IsFiles(step)
    ensures forall n :: 0 <= n < |FlushProgram(k.flush)| && IsFiles(FlushProgram(k.flush)[n]) ==>
              n == 3 && !k.flush.Nothing?
  {
  }

  // ---------------------------------------------------------------- what a flush leaves behind

  lemma {:induction false} TablesStay(s: State, run: seq<Action>)
    requires Legal(s, run)
    ensures forall n :: n in s.disk.tables ==>
              n in Final(s, run).disk.tables && Final(s, run).disk.tables[n] == s.disk.tables[n]
    decreases |run|
  {
    hide SstName, NotOlder, FreshId;
    if run != [] { TablesStay(Do(s, run[0]), run[1..]); }
  }

  /** Steps of the flush that a task has done, whatever its outcome. */
  function FlushSteps(t: Task): int
    requires MayFlush(t.kind)
  {
    Steps(t) - |Before(t.kind)|
  }

  /** The file of a flush: it was refused exactly if the name was taken at the check; otherwise the table under that
      name is the memtable of the check. */
  ghost predicate FileTold(s: State, s': State, f: Locks.Flush, name: Name)
    requires s.memory.Some?
  {
    && (f.Refused? <==> name in s.disk.tables)
    && (f.Done? ==> name in s'.disk.tables && s'.disk.tables[name] == s.memory.value.memtable)
  }

  /** What has become of a flush that stood at its check when the store was `s` and the time `since`. */
  ghost predicate Told(w: World, env: Env, i: nat, s: State, since: nat)
    requires s.memory.Some?
  {
    && i < |w.system.tasks| && MayFlush(w.system.tasks[i].kind) && w.store.memory.Some? && w.time >= since
    && (var t := w.system.tasks[i];
        var f, n := t.kind.flush, FlushSteps(t);
        && n >= 1
        && (n == 1 || (n <= 3 && !f.Nothing?) ==> SameData(s, w.store))
        && (n >= 2 ==> (f.Nothing? <==> s.memory.value.memtable == map[]))
        && (n >= 4 && !f.Nothing? ==>
              exists time :: since <= time < w.time && FileTold(s, w.store, f, SstName(env.clock(time)))))
  }

  lemma FileStaysTold(s: State, a: State, b: State, f: Locks.Flush, name: Name)
    requires s.memory.Some? && FileTold(s, a, f, name)
    requires forall n :: n in a.disk.tables ==> n in b.disk.tables && b.disk.tables[n] == a.disk.tables[n]
    ensures FileTold(s, b, f, name)
  {
  }

  /** Moves of other tasks, and requests. */
  lemma ToldByOthers(w: World, m: Move, env: Env, i: nat, s: State, since: nat)
    requires Linked(w, env) && Possible(w, m, env) && s.memory.Some? && Told(w, env, i, s, since)
    requires m.Spawn? || m.i != i || m.Request?
    ensures Told(Moved(w, m, env), env, i, s, since)
  {
    hide Program, Before, SstName, Linked, Possible, FileTold, Legal, Final;
    var w', t := Moved(w, m, env), w.system.tasks[i];
    OthersLeave(w, m, env, i);
    var f, n := t.kind.flush, FlushSteps(t);
    if n == 1 || (n <= 3 && !f.Nothing?) { HeldSame(w, m, env, i); }
    if n >= 4 && !f.Nothing? {
      var time :| since <= time < w.time && FileTold(s, w.store, f, SstName(env.clock(time)));
      FileStaysTold(s, w.store, w'.store, f, SstName(env.clock(time)));
      assert since <= time < w'.time;
    }
  }

  /** The task itself and the tables there are. */
  lemma OthersLeave(w: World, m: Move, env: Env, i: nat)
    requires Linked(w, env) && Possible(w, m, env) && i < |w.system.tasks| && (m.Spawn? || m.i != i || m.Request?)
    ensures var w' := Moved(w, m, env);
            && w'.store.memory.Some? && w'.time == w.time + 1 && i < |w'.system.tasks|
            && w'.system.tasks[i].kind == w.system.tasks[i].kind && w'.system.tasks[i].rest == w.system.tasks[i].rest
            && forall n :: n in w.store.disk.tables ==>
                 n in w'.store.disk.tables && w'.store.disk.tables[n] == w.store.disk.tables[n]
  {
    hide Tracked, TaskOk, Base, Inv, Legal, Final, Admissible, Decided, Acts, HeldAfter, Queue, Admits, Placed;
    LinkedNext(w, m, env);
    TablesStay(w.store, ActsOf(w, m, env));
  }

  lemma HeldSame(w: World, m: Move, env: Env, i: nat)
    requires Linked(w, env) && Possible(w, m, env) && i < |w.system.tasks| && (m.Spawn? || m.i != i || m.Request?)
    requires var t := w.system.tasks[i];
             MayFlush(t.kind) && (FlushSteps(t) == 1 || (2 <= FlushSteps(t) <= 3 && !t.kind.flush.Nothing?))
    ensures Moved(w, m, env).store.memory.Some? && SameData(w.store, Moved(w, m, env).store)
  {
    hide Tracked, TaskOk, Base, Inv, Legal, Final, Admissible, Decided, Acts, HeldAfter, Queue, Admits, Placed, Program;
    assert Tracked(w.system.tasks[i]);
    FlushHoldsData(w.system.tasks[i]);
    LegalNone(w.store);
    if m.Spawn? || m.i != i { OthersKeepData(w, m, env, i); }
  }

  /** A task's own step, or a lock that it is granted: one step further, with the outcome the store decided on. */
  lemma OwnStep(w: World, m: Move, env: Env)
    requires Linked(w, env) && Possible(w, m, env) && (m.Go? || m.Grant?)
    ensures var t, w' := w.system.tasks[m.i], Moved(w, m, env);
            var t' := w'.system.tasks[m.i];
            && w'.store.memory.Some? && w'.time == w.time + 1 && Steps(t') == Steps(t) + 1
            && (MayFlush(t'.kind) <==> MayFlush(t.kind))
            && (MayFlush(t.kind) ==> Before(t'.kind) == Before(t.kind))
            && (m.Grant? || (!AtCheck(t) && !AtCreate(t)) ==> t'.kind == t.kind)
            && forall n :: n in w.store.disk.tables ==>
                 n in w'.store.disk.tables && w'.store.disk.tables[n] == w.store.disk.tables[n]
  {
    hide Tracked, TaskOk, Base, Inv, Legal, Final, Admissible, Decided, Acts, HeldAfter, Queue, Admits, Placed, Program;
    hide Before;
    var t := w.system.tasks[m.i];
    assert Tracked(t);
    DecidedStays(w.store, t, env.clock(w.time));
    LinkedNext(w, m, env);
    TablesStay(w.store, ActsOf(w, m, env));
    MoveAdvances(Deciding(w, m, env), m);
    if m.Go? && MayFlush(t.kind) { BeforeSame(t.kind, Acting(w, m.i, env).kind); }
  }

  lemma BeforeSame(k: Kind, k': Kind)
    requires MayFlush(k) && MayFlush(k') && (k.Shutdown? <==> k'.Shutdown?)
    ensures Before(k') == Before(k)
  {
  }

  lemma ToldByItself(w: World, m: Move, env: Env, i: nat, s: State, since: nat)
    requires Linked(w, env) && Possible(w, m, env) && s.memory.Some? && Told(w, env, i, s, since)
    requires (m.Go? || m.Grant?) && m.i == i
    ensures Told(Moved(w, m, env), env, i, s, since)
  {
    hide Program, Before, SstName, Linked, Possible, FileTold, Legal, Final, Moved;
    var t, w' := w.system.tasks[i], Moved(w, m, env);
    var n := FlushSteps(t);
    OwnStep(w, m, env);
    StaysThere(w, m, env);
    if n == 1 {
      ToldAtCheck(w, m, env, i, s);
    } else if 2 <= n <= 3 && !t.kind.flush.Nothing? {
      ToldOnTheWay(w, m, env, i, s);
    } else if n >= 4 && !t.kind.flush.Nothing? {
      var time :| since <= time < w.time && FileTold(s, w.store, t.kind.flush, SstName(env.clock(time)));
      FileStaysTold(s, w.store, w'.store, t.kind.flush, SstName(env.clock(time)));
      assert since <= time < w'.time;
    }
    if n == 3 && !t.kind.flush.Nothing? {
      assert since <= w.time < w'.time;
      assert FileTold(s, w'.store, w'.system.tasks[i].kind.flush, SstName(env.clock(w.time)));
    }
  }

  lemma ToldAtCheck(w: World, m: Move, env: Env, i: nat, s: State)
    requires Linked(w, env) && Possible(w, m, env) && (m.Go? || m.Grant?) && m.i == i
    requires MayFlush(w.system.tasks[i].kind) && FlushSteps(w.system.tasks[i]) == 1
    requires s.memory.Some? && SameData(s, w.store)
    ensures Moved(w, m, env).store == w.store
    ensures var t' := Moved(w, m, env).system.tasks[i];
            && MayFlush(t'.kind) && !t'.kind.flush.Refused?
            && (t'.kind.flush.Nothing? <==> s.memory.value.memtable == map[])
  {
    hide Program, Before, SstName, Admissible, Legal, Final, Moved, Tracked, TaskOk, Base, Inv, Placed, Decided;
    var t := w.system.tasks[i];
    assert Tracked(t);
    AtDecision(t);
    CheckExact(t);
    CheckDecides(w, i, env);
  }

  lemma ToldOnTheWay(w: World, m: Move, env: Env, i: nat, s: State)
    requires Linked(w, env) && Possible(w, m, env) && (m.Go? || m.Grant?) && m.i == i
    requires var t := w.system.tasks[i]; MayFlush(t.kind) && 2 <= FlushSteps(t) <= 3 && !t.kind.flush.Nothing?
    requires s.memory.Some? && SameData(s, w.store)
    ensures var t, w' := w.system.tasks[i], Moved(w, m, env);
            var t' := w'.system.tasks[i];
            && MayFlush(t'.kind) && !t'.kind.flush.Nothing?
            && (if FlushSteps(t) == 2 then w'.store == w.store
                else FileTold(s, w'.store, t'.kind.flush, SstName(env.clock(w.time))))
  {
    hide Program, Before, SstName, Admissible, Legal, Final, Tracked, TaskOk, Base, Inv, Decided;
    var t := w.system.tasks[i];
    assert Tracked(t) && Placed(t);
    if FlushSteps(t) == 3 {
      AtDecision(t);
      CreateDecides(w, i, env);
    } else {
      WaitsForFilters(t);
      LegalNone(w.store);
    }
  }

  lemma WaitsForFilters(t: Task)
    requires Tracked(t) && MayFlush(t.kind) && FlushSteps(t) == 2 && !t.kind.flush.Nothing?
    ensures t.rest != [] && t.rest[0] == Acquire(BloomMapLock, Write)
  {
    hide Program, HeldBy, Before, Behind;
    Layout(t.kind);
    FlushStarts(t.kind.flush);
    assert t.rest[0] == Program(t.kind)[Steps(t)];
  }

  lemma {:induction false} ToldAlways(w: World, moves: seq<Move>, env: Env, i: nat, s: State, since: nat)
    requires Linked(w, env) && PossibleMoves(w, moves, env) && s.memory.Some? && Told(w, env, i, s, since)
    ensures Told(Arrives(w, moves, env), env, i, s, since)
    decreases |moves|
  {
    hide Linked, Possible, Moved, Told;
    if moves != [] {
      var m := moves[0];
      LinkedNext(w, m, env);
      if (m.Go? || m.Grant?) && m.i == i {
        ToldByItself(w, m, env, i, s, since);
      } else {
        ToldByOthers(w, m, env, i, s, since);
      }
      ToldAlways(Moved(w, m, env), moves[1..], env, i, s, since);
    }
  }

  lemma PrefixPossible(w: World, m: Move, moves: seq<Move>, env: Env, k: nat)
    requires Possible(w, m, env) && k <= |moves| && PossibleMoves(Moved(w, m, env), moves[..k], env)
    ensures PossibleMoves(w, ([m] + moves)[..k + 1], env)
    ensures Arrives(w, ([m] + moves)[..k + 1], env) == Arrives(Moved(w, m, env), moves[..k], env)
  {
    hide Possible, Moved;
    assert ([m] + moves)[..k + 1][1..] == moves[..k];
  }

  /** How a flush or a shutdown that has finished turned out. At some moment of the run it stood at its check; there was
      nothing to do exactly if the memtable was empty then. Otherwise there is a later moment whose stamp is the name of
      its file: it was refused exactly if there was such a table, and if not, the memtable of the check is a table of
      that name. */
  lemma {:induction false} FinishedFlush(w: World, moves: seq<Move>, env: Env, i: nat) returns (k: nat)
    requires Linked(w, env) && PossibleMoves(w, moves, env)
    requires i < |w.system.tasks| && MayFlush(w.system.tasks[i].kind) && FlushSteps(w.system.tasks[i]) <= 1
    requires i < |Arrives(w, moves, env).system.tasks| && Arrives(w, moves, env).system.tasks[i].rest == []
    ensures k <= |moves| && PossibleMoves(w, moves[..k], env)
    ensures var check, end := Arrives(w, moves[..k], env), Arrives(w, moves, env);
            && check.store.memory.Some? && i < |check.system.tasks| && AtCheck(check.system.tasks[i])
            && MayFlush(end.system.tasks[i].kind)
            && (var s, f := check.store, end.system.tasks[i].kind.flush;
                && (f.Nothing? <==> s.memory.value.memtable == map[])
                && (!f.Nothing? ==>
                      exists time :: check.time <= time < end.time
                                     && FileTold(s, end.store, f, SstName(env.clock(time)))))
    decreases |moves|
  {
    hide Linked, Possible, Moved, Told, Program, Before, FileTold, SstName;
    LinkedHas(w, env, i);
    if FlushSteps(w.system.tasks[i]) == 1 {
      k := 0;
      assert moves[..0] == [];
      ToldAlways(w, moves, env, i, w.store, w.time);
      FinishedIsTold(Arrives(w, moves, env), env, i, w.store, w.time);
    } else if moves == [] {
      NotFinished(w.system.tasks[i]);
    } else {
      var m, rest := moves[0], moves[1..];
      LinkedNext(w, m, env);
      StillBefore(w, m, env, i);
      k := FinishedFlush(Moved(w, m, env), rest, env, i);
      assert [m] + rest == moves;
      PrefixPossible(w, m, rest, env, k);
      k := k + 1;
    }
  }

  lemma LinkedHas(w: World, env: Env, i: nat)
    requires Linked(w, env) && i < |w.system.tasks|
    ensures w.store.memory.Some? && Tracked(w.system.tasks[i])
    ensures MayFlush(w.system.tasks[i].kind) && FlushSteps(w.system.tasks[i]) == 1 ==>
              AtCheck(w.system.tasks[i]) && Told(w, env, i, w.store, w.time)
  {
    hide Tracked, TaskOk, Base, Inv, Program, Before, FileTold;
  }

  lemma NotFinished(t: Task)
    requires Tracked(t) && MayFlush(t.kind) && FlushSteps(t) <= 1
    ensures t.rest != []
  {
    hide Program, HeldBy, Before;
    ProgramsLong(t.kind, t.kind.flush);
  }

  lemma FinishedIsTold(w: World, env: Env, i: nat, s: State, since: nat)
    requires s.memory.Some? && Told(w, env, i, s, since) && w.system.tasks[i].rest == []
    ensures MayFlush(w.system.tasks[i].kind)
    ensures var f := w.system.tasks[i].kind.flush;
            && (f.Nothing? <==> s.memory.value.memtable == map[])
            && (!f.Nothing? ==>
                  exists time :: since <= time < w.time && FileTold(s, w.store, f, SstName(env.clock(time))))
  {
    hide Program, Before, FileTold, SstName;
    ProgramsLong(w.system.tasks[i].kind, w.system.tasks[i].kind.flush);
  }

  lemma StillBefore(w: World, m: Move, env: Env, i: nat)
    requires Linked(w, env) && Possible(w, m, env) && i < |w.system.tasks|
    requires MayFlush(w.system.tasks[i].kind) && FlushSteps(w.system.tasks[i]) < 1
    ensures var ts' := Moved(w, m, env).system.tasks;
            i < |ts'| && MayFlush(ts'[i].kind) && FlushSteps(ts'[i]) <= 1
  {
    hide Linked, Possible, Moved, Program, Before;
    if (m.Go? || m.Grant?) && m.i == i {
      OwnStep(w, m, env);
      StaysThere(w, m, env);
    } else {
      OthersLeave(w, m, env, i);
    }
  }

  lemma StaysThere(w: World, m: Move, env: Env)
    requires Possible(w, m, env)
    ensures |Moved(w, m, env).system.tasks| >= |w.system.tasks|
  {
    hide Admissible, Decided, Perform;
  }

  // ---------------------------------------------------------------- every task can finish

  predicate Unlogged(t: Task) { t.kind.Transaction? && |t.rest| >= 5 }

  /** The outside world as it ought to be: a clock that does not run backwards, and for the transactions that are still
      to be logged different ids that are new to the log. */
  ghost predicate Supplied(w: World, env: Env) {
    var s, ts := w.store, w.system.tasks;
    && SteadyClock(env.clock) && StampedUpTo(s.disk.tables, env.clock(w.time))
    && (forall i :: 0 <= i < |ts| && Unlogged(ts[i]) ==> FreshId(s.disk.log, env.txs(i).id))
    && (forall i, j | 0 <= i < |ts| && 0 <= j < |ts| && i != j && Unlogged(ts[i]) && Unlogged(ts[j]) ::
          env.txs(i).id != env.txs(j).id)
  }

  /** Then nothing but locks holds a task up. */
  lemma SuppliedIsPossible(w: World, m: Move, env: Env)
    requires Linked(w, env) && Supplied(w, env) && CanMove(w.system, m) && !m.Spawn?
    ensures Possible(w, m, env)
  {
    hide Tracked, TaskOk, Base, Inv, Program, Sound, FreshId, NotOlder, StampedUpTo, SteadyClock, Decided, Queue;
    hide Placed, Before, Branch, Admits;
    assert w.store.memory.Some?;
    if m.Go? {
      var t := w.system.tasks[m.i];
      assert Tracked(t);
      JointDecides(w, m.i, env);
      DecidedStays(w.store, t, env.clock(w.time));
      Unstamp(w.store.disk.tables, env.clock(w.time));
      if t.kind.Transaction? {
        SoundHere(w.system, m.i);
        TransactionAt(t);
        NotDeciding(t);
      }
    }
  }

  lemma NotDeciding(t: Task)
    requires t.kind.Transaction?
    ensures !AtCheck(t) && !AtCreate(t)
  {
  }

  lemma FreshStep(s: State, a: Action, id: Uuid)
    requires Base(s) && Enabled(s, a) && FreshId(s.disk.log, id) && (a.Begin? ==> a.tx.id != id)
    ensures FreshId(Do(s, a).disk.log, id)
  {
    hide Begins, Unfinished, LogOk, OriginOk, NothingLost, MemtableOk, FlushOk, SstName, NotOlder;
    if a.AppendEnd? {
      var tx := s.memory.value.batch[s.memory.value.flush.ended];
      assert tx in s.memory.value.batch;
      BeginsAreLines(s.disk.log, tx);
    }
  }

  lemma {:induction false} FreshStays(s: State, run: seq<Action>, id: Uuid)
    requires Base(s) && Legal(s, run) && FreshId(s.disk.log, id)
    requires forall k :: 0 <= k < |run| && run[k].Begin? ==> run[k].tx.id != id
    ensures FreshId(Final(s, run).disk.log, id)
    decreases |run|
  {
    hide Base, Do, Enabled, FreshId;
    if run != [] {
      BaseStep(s, run[0]);
      FreshStep(s, run[0], id);
      FreshStays(Do(s, run[0]), run[1..], id);
    }
  }

  lemma StampStep(s: State, a: Action, now: nat)
    requires Enabled(s, a) && StampedUpTo(s.disk.tables, now) && (a.WriteTable? ==> a.millis == now)
    ensures StampedUpTo(Do(s, a).disk.tables, now)
  {
    hide Decimal, SstName, NotOlder, FreshId;
  }

  lemma {:induction false} StampsStay(s: State, run: seq<Action>, now: nat)
    requires Legal(s, run) && StampedUpTo(s.disk.tables, now)
    requires forall k :: 0 <= k < |run| && run[k].WriteTable? ==> run[k].millis == now
    ensures StampedUpTo(Final(s, run).disk.tables, now)
    decreases |run|
  {
    hide StampedUpTo, Do, Enabled;
    if run != [] {
      StampStep(s, run[0], now);
      StampsStay(Do(s, run[0]), run[1..], now);
    }
  }

  /** Only a task's own transaction is begun, and a table is written under the stamp of the moment. */
  lemma ActsAre(s: State, t: Task, job: Job)
    requires s.memory.Some? && t.rest != []
    ensures forall a :: a in Acts(s, t, job) ==>
              && (a.Begin? ==> t.kind.Transaction? && t.rest[0] == Use(Log, Write) && a.tx == job.tx)
              && (a.WriteTable? ==> a.millis == job.millis)
  {
    hide Ends;
    EndsOnly(|s.memory.value.batch|);
  }

  lemma {:induction false} EndsOnly(n: nat)
    ensures forall a :: a in Ends(n) ==> a.AppendEnd?
  {
    if n > 0 { EndsOnly(n - 1); }
  }

  /** Who is still to log, after a move that starts nobody. */
  lemma UnloggedBefore(w: World, m: Move, env: Env, j: nat)
    requires Linked(w, env) && Possible(w, m, env) && !m.Spawn?
    requires j < |Moved(w, m, env).system.tasks| && Unlogged(Moved(w, m, env).system.tasks[j])
    ensures j < |w.system.tasks| && Unlogged(w.system.tasks[j]) && m.i < |w.system.tasks|
    ensures forall a :: a in ActsOf(w, m, env) && a.Begin? ==> m.i != j && Unlogged(w.system.tasks[m.i])
                                                               && a.tx == env.txs(m.i)
  {
    hide Tracked, TaskOk, Base, Inv, Program, Sound, Decided, Queue, Admits, Admissible, HeldAfter, Placed, Before;
    hide Perform, Acts;
    var t := w.system.tasks[m.i];
    assert Tracked(t);
    DecidedStays(w.store, t, env.clock(w.time));
    if m.Go? {
      ActsAre(w.store, Acting(w, m.i, env), JobOf(w, m.i, env));
      if t.kind.Transaction? {
        NotDeciding(t);
        SoundHere(w.system, m.i);
        TransactionAt(t);
      }
    }
  }

  lemma SuppliedNext(w: World, m: Move, env: Env)
    requires Linked(w, env) && Supplied(w, env) && Possible(w, m, env) && !m.Spawn?
    ensures Supplied(Moved(w, m, env), env)
  {
    hide Linked, Possible, FreshId, StampedUpTo, SteadyClock, Unlogged, ActsOf, Legal, Final;
    var w', acts, now := Moved(w, m, env), ActsOf(w, m, env), env.clock(w.time);
    LinkedNext(w, m, env);
    LinkedBase(w, env);
    StampsOf(w, m, env);
    StampsStay(w.store, acts, now);
    LaterStamp(w'.store.disk.tables, env.clock, w.time);
    var ts' := w'.system.tasks;
    forall j | 0 <= j < |ts'| && Unlogged(ts'[j])
      ensures j < |w.system.tasks| && Unlogged(w.system.tasks[j]) && FreshId(w'.store.disk.log, env.txs(j).id)
    {
      UnloggedBefore(w, m, env, j);
      forall k | 0 <= k < |acts| && acts[k].Begin? ensures acts[k].tx.id != env.txs(j).id {
        assert acts[k] in acts;
        assert m.i != j && env.txs(m.i).id != env.txs(j).id;
      }
      FreshStays(w.store, acts, env.txs(j).id);
    }
  }

  lemma LinkedBase(w: World, env: Env)
    requires Linked(w, env)
    ensures Base(w.store) && w.store.memory.Some? && Inv(w.system)
  {
    hide Base, Inv, Tracked, TaskOk;
  }

  lemma StampsOf(w: World, m: Move, env: Env)
    requires Possible(w, m, env)
    ensures var acts := ActsOf(w, m, env);
            forall k :: 0 <= k < |acts| && acts[k].WriteTable? ==> acts[k].millis == env.clock(w.time)
  {
    hide Decided, Admissible, Acts;
    if m.Go? { ActsAre(w.store, Acting(w, m.i, env), JobOf(w, m.i, env)); }
  }

  // ---------------------------------------------------------------- how much is left

  function Sum(ns: seq<nat>): nat {
    if ns == [] then 0 else Sum(ns[..|ns| - 1]) + ns[|ns| - 1]
  }

  lemma {:induction false} SumUpdate(ns: seq<nat>, i: nat, n: nat)
    requires i < |ns|
    ensures Sum(ns[i := n]) == Sum(ns) - ns[i] + n
  {
    var l := |ns| - 1;
    if i == l {
      assert ns[i := n][..l] == ns[..l];
    } else {
      assert ns[i := n][..l] == ns[..l][i := n];
      SumUpdate(ns[..l], i, n);
    }
  }

  /** No program has more steps, whatever the store decides. */
  const LONGEST := 20

  lemma ProgramsShort(k: Kind)
    ensures |Program(k)| <= LONGEST
  {
    hide Program;
    if MayFlush(k) {
      Layout(k);
      PartsShort(k);
    } else {
      OthersShort(k);
    }
  }

  lemma PartsShort(k: Kind)
    requires MayFlush(k)
    ensures |Before(k)| + |FlushProgram(k.flush)| + |Behind(k)| <= LONGEST
  {
  }

  lemma OthersShort(k: Kind)
    requires !MayFlush(k)
    ensures |Program(k)| <= LONGEST
  {
  }

  /** What a task may have left: two units for each step, one less when it is in a queue already. */
  function Left(t: Task): nat {
    if t.rest == [] || Steps(t) >= LONGEST then 0 else 2 * (LONGEST - Steps(t)) - (if t.queued then 1 else 0)
  }

  function Lefts(ts: seq<Task>): seq<nat> {
    seq(|ts|, i requires 0 <= i < |ts| => Left(ts[i]))
  }

  lemma LeftShrinks(w: World, m: Move, env: Env)
    requires Linked(w, env) && Possible(w, m, env) && !m.Spawn?
    ensures Sum(Lefts(Moved(w, m, env).system.tasks)) < Sum(Lefts(w.system.tasks))
  {
    hide Tracked, TaskOk, Base, Inv, Program, Decided, Queue, Admits, Admissible, HeldAfter, Placed, Before, Acts;
    hide Perform, Sum;
    var ts, ts', i := w.system.tasks, Moved(w, m, env).system.tasks, m.i;
    assert Tracked(ts[i]);
    DecidedStays(w.store, ts[i], env.clock(w.time));
    ProgramsShort(ts[i].kind);
    ProgramsShort(ts'[i].kind);
    assert Left(ts'[i]) < Left(ts[i]);
    assert Lefts(ts') == Lefts(ts)[i := Left(ts'[i])];
    SumUpdate(Lefts(ts), i, Left(ts'[i]));
  }

  /** From every world that the tasks can come to, with the outside as it ought to be, they can go on so that all of
      them finish, with no lock held. */
  lemma {:induction false} EveryTaskCanFinish(w: World, env: Env) returns (moves: seq<Move>)
    requires Linked(w, env) && Supplied(w, env)
    ensures PossibleMoves(w, moves, env) && AllDone(Arrives(w, moves, env).system)
    ensures forall k :: 0 <= k < |moves| ==> !moves[k].Spawn?
    decreases Sum(Lefts(w.system.tasks))
  {
    hide Linked, Supplied, Possible, Moved, CanMove, Sum;
    LinkedBase(w, env);
    if m: Move :| !m.Spawn? && CanMove(w.system, m) {
      SuppliedIsPossible(w, m, env);
      LinkedNext(w, m, env);
      SuppliedNext(w, m, env);
      LeftShrinks(w, m, env);
      var rest := EveryTaskCanFinish(Moved(w, m, env), env);
      moves := [m] + rest;
      assert moves[1..] == rest;
    } else {
      moves := [];
      StuckIsDone(w.system);
    }
  }

  lemma StuckIsDone(s: System)
    requires Inv(s) && forall m: Move :: CanMove(s, m) ==> m.Spawn?
    ensures AllDone(s)
  {
    hide CanMove, QueuesOk, Exclusive, TransactionsWrite;
    forall i | 0 <= i < |s.tasks| ensures s.tasks[i].rest == [] && s.tasks[i].held == map[] {
      if s.tasks[i].rest != [] {
        InvCanMove(s, i);
      } else {
        assert Sound(s.tasks[i].held, s.tasks[i].rest);
      }
    }
  }
}
