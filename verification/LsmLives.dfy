/** The tasks and the store over several starts and crashes. */
module LsmLives {
  import opened Store
  import opened CommitLog
  import opened FileNames
  import opened Lsm
  import opened LsmReplay
  import opened LsmInvariant
  import opened LsmOrders
  import opened Locks
  import opened LsmTasks

  /** From a start to a crash: the moves of the tasks, and how many of the store's actions were done by then. */
  datatype Life = Life(moves: seq<Move>, env: Env, done: nat)

  function Restart(s: State): State
    requires s.memory.None?
  {
    Do(s, Recover)
  }

  predicate CanLive(s: State, life: Life) {
    && s.memory.None? && PossibleMoves(World(EMPTY, Restart(s), 0), life.moves, life.env)
    && life.done <= |AllActs(World(EMPTY, Restart(s), 0), life.moves, life.env)|
  }

  /** Everything the store does in one life, up to the crash. */
  function LifeActs(s: State, life: Life): seq<Action>
    requires CanLive(s, life)
  {
    [Recover] + (AllActs(World(EMPTY, Restart(s), 0), life.moves, life.env)[..life.done] + [Crash])
  }

  predicate CanLiveAll(s: State, lives: seq<Life>)
    decreases |lives|
  {
    lives == [] || (CanLive(s, lives[0]) && CanLiveAll(Perform(s, LifeActs(s, lives[0])), lives[1..]))
  }

  function History(s: State, lives: seq<Life>): seq<Action>
    requires CanLiveAll(s, lives)
    decreases |lives|
  {
    if lives == [] then []
    else LifeActs(s, lives[0]) + History(Perform(s, LifeActs(s, lives[0])), lives[1..])
  }

  lemma StartIsLinked(s: State, env: Env)
    requires Base(s) && s.memory.None?
    ensures Linked(World(EMPTY, Restart(s), 0), env)
  {
    hide Base, Do, Unfinished, Sound;
    BaseStep(s, Recover);
    Restarted(s);
  }

  lemma Restarted(s: State)
    requires s.memory.None?
    ensures var up := Restart(s); Readable(up) && up.memory.value.pending == {}
  {
    hide Unfinished;
  }

  lemma ActsKeepRunning(s: State, t: Task, job: Job)
    requires s.memory.Some? && t.rest != []
    ensures KeepsRunning(Acts(s, t, job))
  {
    hide Ends;
    EndsKeepRunning(|s.memory.value.batch|);
  }

  lemma {:induction false} EndsKeepRunning(n: nat)
    ensures KeepsRunning(Ends(n))
  {
    if n > 0 { EndsKeepRunning(n - 1); }
  }

  lemma {:induction false} TasksKeepRunning(w: World, moves: seq<Move>, env: Env)
    requires PossibleMoves(w, moves, env)
    ensures KeepsRunning(AllActs(w, moves, env))
    decreases |moves|
  {
    hide Possible, Moved, Acts, Acting;
    if moves != [] {
      var m := moves[0];
      PossibleMeans(w, m, env);
      if m.Go? { ActsKeepRunning(w.store, Acting(w, m.i, env), JobOf(w, m.i, env)); }
      TasksKeepRunning(Moved(w, m, env), moves[1..], env);
    }
  }

  lemma PossibleMeans(w: World, m: Move, env: Env)
    requires Possible(w, m, env)
    ensures w.store.memory.Some?
    ensures m.Go? ==> m.i < |w.system.tasks| && Acting(w, m.i, env).rest != []
  {
    hide Admissible, Decided;
  }

  lemma {:induction false} LegalPart(s: State, run: seq<Action>, n: nat)
    requires Legal(s, run) && n <= |run|
    ensures Legal(s, run[..n])
    decreases n
  {
    hide Do, Enabled;
    if n > 0 {
      LegalPart(Do(s, run[0]), run[1..], n - 1);
      assert run[..n][1..] == run[1..][..n - 1];
    }
  }

  /** The crash at the end of a life. */
  lemma CrashIsLegal(up: State, acts: seq<Action>)
    requires Base(up) && up.memory.Some? && Legal(up, acts) && KeepsRunning(acts)
    ensures Legal(up, acts + [Crash])
    ensures var s' := Final(up, acts + [Crash]); Base(s') && s'.memory.None?
  {
    hide Base, Legal, Final;
    LiveRun(up, acts);
    BaseAlways(up, acts);
    LegalOne(Final(up, acts), Crash);
    BaseStep(Final(up, acts), Crash);
    LegalAppend(up, acts, [Crash]);
  }

  lemma LifeIsLegal(s: State, life: Life)
    requires Base(s) && CanLive(s, life)
    ensures Legal(s, LifeActs(s, life))
    ensures var s' := Final(s, LifeActs(s, life)); Base(s') && s'.memory.None?
  {
    hide Base, Do, Legal, Final, AllActs, PossibleMoves, KeepsRunning, Linked;
    var up, w := Restart(s), World(EMPTY, Restart(s), 0);
    StartIsLinked(s, life.env);
    BaseStep(s, Recover);
    Restarted(s);
    TasksRunTheStore(w, life.moves, life.env);
    TasksKeepRunning(w, life.moves, life.env);
    var all := AllActs(w, life.moves, life.env);
    LegalPart(up, all, life.done);
    PartKeepsRunning(all, life.done);
    CrashIsLegal(up, all[..life.done]);
    LegalPair(s, Recover, all[..life.done] + [Crash]);
  }

  lemma PartKeepsRunning(run: seq<Action>, n: nat)
    requires KeepsRunning(run) && n <= |run|
    ensures KeepsRunning(run[..n])
  {
  }

  /** The store's whole history, with any number of lives, each ended by a crash after any of the store's actions, is a
      run of the state machine; so what is proved of every run holds for tasks under the locks. */
  lemma {:induction false} HistoriesAreRuns(s: State, lives: seq<Life>)
    requires Base(s) && s.memory.None? && CanLiveAll(s, lives)
    ensures Legal(s, History(s, lives))
    ensures var s' := Final(s, History(s, lives)); Base(s') && s'.memory.None?
    decreases |lives|
  {
    hide Base, CanLive, LifeActs, Legal, Final;
    if lives == [] {
      LegalNone(s);
    } else {
      LifeIsLegal(s, lives[0]);
      var acts := LifeActs(s, lives[0]);
      HistoriesAreRuns(Final(s, acts), lives[1..]);
      LegalAppend(s, acts, History(Final(s, acts), lives[1..]));
    }
  }

  lemma {:induction false} AckedGrows(s: State, run: seq<Action>)
    requires Legal(s, run)
    ensures s.acked <= Final(s, run).acked
    decreases |run|
  {
    hide SstName, NotOlder, FreshId;
    if run != [] { AckedGrows(Do(s, run[0]), run[1..]); }
  }

  /** A transaction task that has finished in a life is acknowledged by the end of it. */
  lemma FinishedIsAcked(s: State, life: Life, i: nat)
    requires Base(s) && CanLive(s, life)
    requires life.done == |AllActs(World(EMPTY, Restart(s), 0), life.moves, life.env)|
    requires var ts := Arrives(World(EMPTY, Restart(s), 0), life.moves, life.env).system.tasks;
             i < |ts| && ts[i].kind.Transaction? && ts[i].rest == []
    ensures Legal(s, LifeActs(s, life)) && life.env.txs(i) in Final(s, LifeActs(s, life)).acked
  {
    hide Base, Legal, Final, AllActs, PossibleMoves, Arrives, Do, Tracked, Inv;
    var w := World(EMPTY, Restart(s), 0);
    var all := AllActs(w, life.moves, life.env);
    LifeIsLegal(s, life);
    StartIsLinked(s, life.env);
    TasksRunTheStore(w, life.moves, life.env);
    var end := Arrives(w, life.moves, life.env);
    assert TaskOk(end.store, end.system.tasks[i], life.env.txs(i));
    assert all[..life.done] == all;
    LegalOne(end.store, Crash);
    LegalAppend(w.store, all, [Crash]);
    AckedGrows(end.store, [Crash]);
    LegalPair(s, Recover, all + [Crash]);
  }

  /** For one: a transaction that finished in any life is never lost, whatever later lives do. It is unfinished in the
      log, or its batch is in a table. */
  lemma FinishedTransactionsAreKept(s: State, life: Life, later: seq<Life>, i: nat)
    requires Base(s) && CanLive(s, life) && CanLiveAll(Perform(s, LifeActs(s, life)), later)
    requires life.done == |AllActs(World(EMPTY, Restart(s), 0), life.moves, life.env)|
    requires var ts := Arrives(World(EMPTY, Restart(s), 0), life.moves, life.env).system.tasks;
             i < |ts| && ts[i].kind.Transaction? && ts[i].rest == []
    ensures var s', tx := Perform(s, LifeActs(s, life)), life.env.txs(i);
            && Legal(s, LifeActs(s, life)) && Legal(s', History(s', later))
            && (var last := Final(s', History(s', later));
                tx in Unfinished(last.disk.log) || Stored(last.origin, tx))
  {
    hide Base, Legal, Final, CanLive, LifeActs, CanLiveAll, History, Arrives, AllActs;
    FinishedIsAcked(s, life, i);
    LifeIsLegal(s, life);
    var s' := Final(s, LifeActs(s, life));
    HistoriesAreRuns(s', later);
    AckedGrows(s', History(s', later));
    AckedIsKept(Final(s', History(s', later)), life.env.txs(i));
  }

  lemma AckedIsKept(s: State, tx: Store.Transaction)
    requires Base(s) && tx in s.acked
    ensures tx in Unfinished(s.disk.log) || Stored(s.origin, tx)
  {
    hide Unfinished, Begins, Stored, LogOk, OriginOk, MemoryOk;
  }
}
