/** The tasks at work on the store: whatever the locks let happen is a run of the state machine. */
module LsmTasks {
  import opened Bytes
  import opened Store
  import opened FileNames
  import opened CommitLog
  import opened Lsm
  import opened LsmReplay
  import opened LsmInvariant
  import opened Locks

  // ---------------------------------------------------------------- what a step does to the store

  /** What comes from outside: the transaction of each task, and the clock at each moment. */
  datatype Env = Env(txs: nat -> Store.Transaction, clock: nat -> nat)

  /** What one step of a task has from there. */
  datatype Job = Job(tx: Store.Transaction, millis: nat)

  predicate MayFlush(k: Kind) { k.TickAndFlush? || k.Shutdown? }

  /** The store's actions in one step of a task. Everything else a task does only reads. */
  function Acts(s: State, t: Task, job: Job): seq<Action>
    requires s.memory.Some? && t.rest != []
  {
    if t.kind.Transaction? then
      if t.rest[0] == Use(Log, Write) then [Begin(job.tx)]
      else if t.rest[0] == Use(Memtable, Write) then [Apply(job.tx)]
      else []
    else if MayFlush(t.kind) then FlushActs(s, t.rest, job.millis)
    else []
  }

  function FlushActs(s: State, rest: seq<Step>, millis: nat): seq<Action>
    requires s.memory.Some? && rest != []
  {
    if rest[0] == Use(TableFiles, Write) then [WriteTable(millis)]
    else if rest[0] == Use(Index, Write) then [AddFilter]
    else if rest[0] == Use(Memtable, Write) then if Use(Log, Write) in rest then [ClearMemtable] else [FinishFlush]
    else if rest[0] == Use(Log, Write) then Ends(|s.memory.value.batch|)
    else if rest[0] == Use(Index, Read) then [WriteBloomFile]
    else []
  }

  function Ends(n: nat): seq<Action> {
    if n == 0 then [] else [AppendEnd] + Ends(n - 1)
  }

  // ---------------------------------------------------------------- how a flush turns out

  /** The steps before the flush of a tick or a shutdown. */
  function Before(k: Kind): seq<Step>
    requires MayFlush(k)
  {
    if k.Shutdown? then [Acquire(ShutdownReceiver, Write), Acquire(StateLock, Write), Use(ShutdownFlag, Write)]
    else SEE_FLAG + LOOKUP_IN_MEMORY
  }

  /** The steps behind it. */
  function Behind(k: Kind): seq<Step>
    requires MayFlush(k)
  {
    if k.TickAndFlush? then []
    else (if k.flush.Refused? then [] else SAVE_INDEX) + [Release(StateLock), Release(ShutdownReceiver)]
  }

  lemma Layout(k: Kind)
    requires MayFlush(k)
    ensures Program(k) == Before(k) + (FlushProgram(k.flush) + Behind(k))
  {
    hide FlushProgram;
    if k.TickAndFlush? {
      assert FlushProgram(k.flush) + [] == FlushProgram(k.flush);
    } else {
      var inner := FlushProgram(k.flush) + (if k.flush.Refused? then [] else SAVE_INDEX);
      var first := [Use(ShutdownFlag, Write)];
      assert Around(ShutdownReceiver, [], Around(StateLock, first, inner))
          == [Acquire(ShutdownReceiver, Write)] + (Around(StateLock, first, inner) + [Release(ShutdownReceiver)]);
      assert Around(StateLock, first, inner) == [Acquire(StateLock, Write)] + (first + inner + [Release(StateLock)]);
    }
  }

  /** The number of steps a task has done. */
  function Steps(t: Task): int { |Program(t.kind)| - |t.rest| }

  /** The flush has the data and is about to see whether the memtable is empty. */
  predicate AtCheck(t: Task) { MayFlush(t.kind) && Steps(t) == |Before(t.kind)| + 1 }

  /** It has the filters too and is about to create the file. */
  predicate AtCreate(t: Task) { MayFlush(t.kind) && !t.kind.flush.Nothing? && Steps(t) == |Before(t.kind)| + 3 }

  function WithFlush(k: Kind, f: Locks.Flush): Kind
    requires MayFlush(k)
  {
    if k.Shutdown? then Shutdown(f) else TickAndFlush(f)
  }

  /** The same task with the rest of another outcome. */
  function Retold(t: Task, f: Locks.Flush): Task
    requires MayFlush(t.kind) && 0 <= Steps(t) <= |Program(WithFlush(t.kind, f))|
  {
    t.(kind := WithFlush(t.kind, f), rest := Program(WithFlush(t.kind, f))[Steps(t)..])
  }

  /** The store decides how a flush turns out: there is nothing to do if the memtable is empty; the flush is refused if
      there is a file of the name that the clock gives. What a task was started with does not matter. */
  function Decided(s: State, t: Task, millis: nat): Task
    requires s.memory.Some?
  {
    if AtCheck(t) then
      ProgramsLong(t.kind, if s.memory.value.memtable == map[] then Nothing else Done);
      Retold(t, if s.memory.value.memtable == map[] then Nothing else Done)
    else if AtCreate(t) then
      ProgramsLong(t.kind, if SstName(millis) in s.disk.tables then Refused else Done);
      Retold(t, if SstName(millis) in s.disk.tables then Refused else Done)
    else t
  }

  lemma ProgramsLong(k: Kind, f: Locks.Flush)
    requires MayFlush(k)
    ensures |Program(WithFlush(k, f))| >= |Before(k)| + (if f.Nothing? then 3 else 6)
  {
    hide Program;
    Layout(WithFlush(k, f));
  }

  // ---------------------------------------------------------------- the tasks and the store together

  datatype World = World(system: System, store: State, time: nat)

  /** The task that takes a step, once the store has decided. */
  function Acting(w: World, i: nat, env: Env): Task
    requires w.store.memory.Some? && i < |w.system.tasks|
  {
    Decided(w.store, w.system.tasks[i], env.clock(w.time))
  }

  function JobOf(w: World, i: nat, env: Env): Job { Job(env.txs(i), env.clock(w.time)) }

  /** What is assumed of the outside: a transaction brings an id that is new to the log, and a file is created under a
      name that sorts at or after all there are. */
  predicate Admissible(s: State, t: Task, job: Job)
    requires t.rest != []
  {
    && (t.kind.Transaction? && t.rest[0] == Use(Log, Write) ==> FreshId(s.disk.log, job.tx.id))
    && (MayFlush(t.kind) && t.rest[0] == Use(TableFiles, Write) ==> NotOlder(s.disk.tables, SstName(job.millis)))
  }

  function Deciding(w: World, m: Move, env: Env): System
    requires w.store.memory.Some?
  {
    if m.Go? && m.i < |w.system.tasks| then w.system.(tasks := w.system.tasks[m.i := Acting(w, m.i, env)])
    else w.system
  }

  predicate Possible(w: World, m: Move, env: Env) {
    && w.store.memory.Some? && CanMove(w.system, m) && CanMove(Deciding(w, m, env), m)
    && (m.Go? ==> Admissible(w.store, Acting(w, m.i, env), JobOf(w, m.i, env)))
  }

  function ActsOf(w: World, m: Move, env: Env): seq<Action>
    requires Possible(w, m, env)
  {
    if m.Go? then Acts(w.store, Acting(w, m.i, env), JobOf(w, m.i, env)) else []
  }

  /** What is not possible for the store would leave it alone; it will turn out that this never happens. */
  function Perform(s: State, acts: seq<Action>): State {
    if Legal(s, acts) then Final(s, acts) else s
  }

  function Moved(w: World, m: Move, env: Env): World
    requires Possible(w, m, env)
  {
    World(After(Deciding(w, m, env), m), Perform(w.store, ActsOf(w, m, env)), w.time + 1)
  }

  predicate PossibleMoves(w: World, moves: seq<Move>, env: Env)
    decreases |moves|
  {
    moves == [] || (Possible(w, moves[0], env) && PossibleMoves(Moved(w, moves[0], env), moves[1..], env))
  }

  function AllActs(w: World, moves: seq<Move>, env: Env): seq<Action>
    requires PossibleMoves(w, moves, env)
    decreases |moves|
  {
    if moves == [] then []
    else ActsOf(w, moves[0], env) + AllActs(Moved(w, moves[0], env), moves[1..], env)
  }

  function Arrives(w: World, moves: seq<Move>, env: Env): World
    requires PossibleMoves(w, moves, env)
    decreases |moves|
  {
    if moves == [] then w else Arrives(Moved(w, moves[0], env), moves[1..], env)
  }

  // ---------------------------------------------------------------- where a task stands

  /** The guards a task holds after some steps. */
  function HeldBy(p: seq<Step>): map<Lock, Mode> {
    if p == [] then map[] else HeldAfter(HeldBy(p[..|p| - 1]), p[|p| - 1])
  }

  predicate Tracked(t: Task) {
    OnItsWay(t) && t.held == HeldBy(Program(t.kind)[..Steps(t)])
  }

  lemma TrackedFirst(k: Kind)
    ensures Tracked(Task(k, map[], Program(k), false))
  {
    hide Program;
  }

  lemma TrackedFurther(t: Task, t': Task)
    requires Tracked(t) && t.rest != [] && t'.kind == t.kind && t'.rest == t.rest[1..]
    requires t'.held == HeldAfter(t.held, t.rest[0])
    ensures Tracked(t')
  {
    hide Program, HeldAfter;
    OnItsWayFurther(t, t');
    var p, n := Program(t.kind), Steps(t);
    assert p[..n + 1][..n] == p[..n] && p[..n + 1][n] == p[n] == t.rest[0];
  }

  lemma TrackedAfter(s: System, m: Move)
    requires CanMove(s, m) && forall i :: 0 <= i < |s.tasks| ==> Tracked(s.tasks[i])
    ensures forall i :: 0 <= i < |After(s, m).tasks| ==> Tracked(After(s, m).tasks[i])
  {
    hide Program, Queue, HeldAfter, Admits, Tracked;
    var s' := After(s, m);
    forall i | 0 <= i < |s'.tasks| ensures Tracked(s'.tasks[i]) {
      if i == |s.tasks| {
        TrackedFirst(m.kind);
      } else if !m.Spawn? && m.i == i && !m.Request? {
        TrackedFurther(s.tasks[i], s'.tasks[i]);
      } else {
        TrackedStill(s.tasks[i], s'.tasks[i]);
      }
    }
  }

  lemma TrackedStill(t: Task, t': Task)
    requires Tracked(t) && t'.kind == t.kind && t'.rest == t.rest && t'.held == t.held
    ensures Tracked(t')
  {
    hide Program;
  }

  /** A guard taken and not dropped since is held. */
  lemma {:induction false} HeldSince(p: seq<Step>, a: nat, l: Lock)
    requires a < |p| && p[a] == Acquire(l, Write)
    requires forall k :: a < k < |p| ==> !p[k].Use? ==> p[k].lock != l
    ensures l in HeldBy(p) && HeldBy(p)[l] == Write
    decreases |p|
  {
    var n := |p| - 1;
    if a < n { HeldSince(p[..n], a, l); }
  }

  /** Deciding keeps a task where it is. */
  lemma DecidedStays(s: State, t: Task, millis: nat)
    requires s.memory.Some? && Tracked(t)
    ensures var t' := Decided(s, t, millis);
            && Tracked(t') && t'.held == t.held && t'.queued == t.queued && Steps(t') == Steps(t)
            && (t'.kind.Transaction? <==> t.kind.Transaction?) && (MayFlush(t'.kind) <==> MayFlush(t.kind))
            && (t'.kind.Shutdown? <==> t.kind.Shutdown?)
            && (t'.kind != t.kind ==> AtCheck(t) || AtCreate(t))
            && (!AtCheck(t) && !AtCreate(t) ==> t' == t)
  {
    hide Program, HeldBy, SstName, Before;
    if AtCheck(t) {
      ProgramsLong(t.kind, if s.memory.value.memtable == map[] then Nothing else Done);
      RetoldStays(t, if s.memory.value.memtable == map[] then Nothing else Done);
    } else if AtCreate(t) {
      ProgramsLong(t.kind, if SstName(millis) in s.disk.tables then Refused else Done);
      RetoldStays(t, if SstName(millis) in s.disk.tables then Refused else Done);
    }
  }

  lemma RetoldStays(t: Task, f: Locks.Flush)
    requires Tracked(t) && MayFlush(t.kind) && 0 <= Steps(t) <= |Program(WithFlush(t.kind, f))|
    requires AtCheck(t) || (AtCreate(t) && !f.Nothing?)
    ensures Tracked(Retold(t, f)) && Steps(Retold(t, f)) == Steps(t)
  {
    hide Program, HeldBy;
    SamePrefix(t.kind, f, Steps(t));
  }

  /** The outcomes have the same steps as long as they are open. */
  lemma SamePrefix(k: Kind, f: Locks.Flush, n: nat)
    requires MayFlush(k) && n <= |Program(k)| && n <= |Program(WithFlush(k, f))|
    requires n == |Before(k)| + 1 || (n == |Before(k)| + 3 && !k.flush.Nothing? && !f.Nothing?)
    ensures Program(WithFlush(k, f))[..n] == Program(k)[..n]
  {
    hide Program, Before, Behind;
    Layout(k);
    Layout(WithFlush(k, f));
    SameBefore(k, f);
    SameFlushPrefix(k.flush, f, n - |Before(k)|);
    assert Program(k)[..n] == Before(k) + FlushProgram(k.flush)[..n - |Before(k)|];
    assert Program(WithFlush(k, f))[..n] == Before(k) + FlushProgram(f)[..n - |Before(k)|];
  }

  lemma SameBefore(k: Kind, f: Locks.Flush)
    requires MayFlush(k)
    ensures Before(WithFlush(k, f)) == Before(k)
  {
  }

  lemma SameFlushPrefix(f: Locks.Flush, f': Locks.Flush, n: nat)
    requires n == 1 || (n == 3 && !f.Nothing? && !f'.Nothing?)
    ensures |FlushProgram(f)| >= n && |FlushProgram(f')| >= n && FlushProgram(f)[..n] == FlushProgram(f')[..n]
  {
  }

  predicate Flushes(k: Kind) { k == TickAndFlush(Done) || k == Shutdown(Done) }

  /** How many steps of its flush a task has done; negative before it. */
  function FlushAt(t: Task): int {
    if Flushes(t.kind) then 12 + (if t.kind.Shutdown? then 5 else 0) - |t.rest| else -1
  }

  /** A task inside its flush has the rest of the flush before it, and holds the data and, once it has them, the
      filters. */
  lemma InsideFlush(t: Task) returns (after: seq<Step>)
    requires Tracked(t) && 0 <= FlushAt(t) <= 12
    ensures t.rest == FLUSH[FlushAt(t)..] + after
    ensures forall step :: step in after ==> !Changes(step)
    ensures 1 <= FlushAt(t) <= 8 ==> DataLock in t.held && t.held[DataLock] == Write
    ensures 3 <= FlushAt(t) <= 8 ==> BloomMapLock in t.held && t.held[BloomMapLock] == Write
  {
    hide Program, HeldBy;
    var p, q := Program(t.kind), FlushAt(t);
    var before := Before(t.kind);
    after := Behind(t.kind);
    Layout(t.kind);
    BehindIsQuiet(t.kind);
    CutInside(p, before, FLUSH, after, q);
    HeldInFlush(before, q);
  }

  lemma CutInside(p: seq<Step>, before: seq<Step>, flush: seq<Step>, after: seq<Step>, q: nat)
    requires p == before + (flush + after) && q <= |flush|
    ensures p[|before| + q..] == flush[q..] + after && p[..|before| + q] == before + flush[..q]
  {
  }

  lemma HeldInFlush(before: seq<Step>, q: nat)
    requires q <= 12
    ensures var held := HeldBy(before + FLUSH[..q]);
            && (1 <= q <= 8 ==> DataLock in held && held[DataLock] == Write)
            && (3 <= q <= 8 ==> BloomMapLock in held && held[BloomMapLock] == Write)
  {
    hide HeldBy;
    if 1 <= q <= 8 { HeldBehind(before, FLUSH[..q], 0, DataLock); }
    if 3 <= q <= 8 { HeldBehind(before, FLUSH[..q], 2, BloomMapLock); }
  }

  lemma HeldBehind(before: seq<Step>, p: seq<Step>, a: nat, l: Lock)
    requires a < |p| && p[a] == Acquire(l, Write)
    requires forall k :: a < k < |p| ==> !p[k].Use? ==> p[k].lock != l
    ensures l in HeldBy(before + p) && HeldBy(before + p)[l] == Write
  {
    hide HeldBy;
    HeldSince(before + p, |before| + a, l);
  }

  lemma BehindIsQuiet(k: Kind)
    requires MayFlush(k)
    ensures forall step :: step in Before(k) || step in Behind(k) ==> !Changes(step)
    ensures k == Shutdown(Done) ==> |Behind(k)| == 5 && Behind(k)[1] == Use(Index, Read)
    ensures k == TickAndFlush(Done) ==> |Behind(k)| == 0
  {
  }

  /** Outside its flush, a task that may flush changes nothing but the shutdown flag. */
  lemma OutsideFlush(t: Task)
    requires Tracked(t) && MayFlush(t.kind) && t.rest != [] && !(0 <= FlushAt(t) < 12)
    ensures !Changes(t.rest[0])
    ensures FlushAt(t) == 13 ==> t.rest[0] == Use(Index, Read)
  {
    hide Program, HeldBy, Before, Behind, FlushProgram;
    var p, n := Program(t.kind), Steps(t);
    assert t.rest[0] == p[n];
    Layout(t.kind);
    BehindIsQuiet(t.kind);
    if Flushes(t.kind) {
      DoneIsFlush();
      assert p[n] in Before(t.kind) || p[n] in Behind(t.kind);
    } else {
      FlushChangesNothing(t.kind.flush);
      assert p[n] in Before(t.kind) || p[n] in FlushProgram(t.kind.flush) || p[n] in Behind(t.kind);
    }
  }

  lemma DoneIsFlush()
    ensures FlushProgram(Done) == FLUSH && |FLUSH| == 12
  {
  }

  lemma FlushChangesNothing(f: Locks.Flush)
    requires !f.Done?
    ensures forall step :: step in FlushProgram(f) ==> !Changes(step)
  {
  }

  /** A transaction that logs has a fresh id; a flush goes the way the store calls for. */
  predicate Branch(s: State, t: Task, job: Job)
    requires s.memory.Some? && t.rest != []
  {
    var name := SstName(job.millis);
    && Admissible(s, t, job)
    && (AtCheck(t) ==> (s.memory.value.memtable == map[] <==> t.kind.flush.Nothing?))
    && (MayFlush(t.kind) && t.rest[0] == Use(TableFiles, Write) ==> name !in s.disk.tables)
  }

  // ---------------------------------------------------------------- what links the two

  /** A transaction that has logged and not yet applied. */
  predicate InFlight(t: Task) { t.kind.Transaction? && 2 <= |t.rest| <= 4 }

  predicate HasApplied(t: Task) { t.kind.Transaction? && |t.rest| <= 1 }

  /** What a task's place says about the store. */
  ghost predicate TaskOk(s: State, t: Task, tx: Store.Transaction)
    requires s.memory.Some?
  {
    var m, q := s.memory.value, FlushAt(t);
    && (InFlight(t) ==> tx in m.pending)
    && (HasApplied(t) ==> tx in s.acked)
    && (2 <= q <= 3 ==> m.memtable != map[])
    && (q == 4 ==> m.flush.Wrote?)
    && (q == 5 ==> m.flush.Indexed?)
    && (6 <= q <= 7 ==> m.flush.Ending? && m.flush.ended == 0)
    && (q == 8 ==> m.flush.Ending? && m.flush.ended == |m.batch|)
    && (q >= 5 ==> m.filters != map[])
    && (q >= 14 ==> s.disk.bloomFile.Some?)
  }

  predicate Owns(t: Task) { 4 <= FlushAt(t) <= 8 }

  predicate Holds(t: Task, l: Lock) { l in t.held }

  predicate HoldsForWriting(t: Task, l: Lock) { l in t.held && t.held[l] == Write }

  /** A flush in progress belongs to a task, and transactions in flight are different ones. */
  ghost predicate Joint(w: World, env: Env) {
    var s, ts := w.store, w.system.tasks;
    && Inv(w.system) && Base(s) && s.memory.Some?
    && (forall i :: 0 <= i < |ts| ==> Tracked(ts[i]))
    && (forall i :: 0 <= i < |ts| ==> TaskOk(s, ts[i], env.txs(i)))
    && (forall i, j | 0 <= i < |ts| && 0 <= j < |ts| && i != j && InFlight(ts[i]) && InFlight(ts[j]) ::
          env.txs(i) != env.txs(j))
    && (s.memory.value.flush.Idle? || exists i :: 0 <= i < |ts| && Owns(ts[i]))
  }

  /** No flush is refused before it has tried to create its file. */
  predicate Placed(t: Task) {
    MayFlush(t.kind) && t.kind.flush.Refused? ==> Steps(t) <= |Before(t.kind)| + 1 || Steps(t) > |Before(t.kind)| + 3
  }

  /** What every move keeps. */
  ghost predicate Linked(w: World, env: Env) {
    Joint(w, env) && forall i :: 0 <= i < |w.system.tasks| ==> Placed(w.system.tasks[i])
  }

  /** What a step of task `t` leaves for the others. */
  ghost predicate LeavesAlone(s: State, s': State, t: Task, job: Job)
    requires s.memory.Some? && s'.memory.Some?
  {
    var m, m' := s.memory.value, s'.memory.value;
    && (forall x :: x in m.pending ==> x in m'.pending || (x == job.tx && InFlight(t))) && s.acked <= s'.acked
    && (m.filters != map[] ==> m'.filters != map[]) && (s.disk.bloomFile.Some? ==> s'.disk.bloomFile.Some?)
    && (HoldsForWriting(t, DataLock) || (SameData(s, s') && m'.flush == m.flush && m'.batch == m.batch))
  }

  /** What lookups and scans read. */
  ghost predicate SameData(s: State, s': State)
    requires s.memory.Some? && s'.memory.Some?
  {
    && s'.disk.tables == s.disk.tables
    && s'.memory.value.memtable == s.memory.value.memtable && s'.memory.value.filters == s.memory.value.filters
  }

  /** A step of `t`, which becomes `t'`, takes the store from `s` to `s'`. */
  ghost predicate Fits(s: State, s': State, t: Task, t': Task, job: Job)
    requires s.memory.Some?
  {
    && s'.memory.Some? && TaskOk(s', t', job.tx) && LeavesAlone(s, s', t, job)
    && (s'.memory.value.flush.Idle? || Owns(t') || (s'.memory.value.flush == s.memory.value.flush && !Owns(t)))
  }

  /** A flush in progress keeps out whoever else holds one of its two guards. */
  ghost predicate Undisturbed(s: State, t: Task)
    requires s.memory.Some?
  {
    Holds(t, BloomMapLock) || HoldsForWriting(t, DataLock) ==> Owns(t) || s.memory.value.flush.Idle?
  }

  lemma LegalOne(s: State, a: Action)
    requires Enabled(s, a)
    ensures Legal(s, [a]) && Final(s, [a]) == Do(s, a)
  {
    hide Do, Enabled;
    LegalNone(Do(s, a));
    LegalPair(s, a, []);
    assert [a] + [] == [a];
  }

  /** The end marks of a whole batch. */
  lemma {:induction false} EndsLegal(s: State, n: nat)
    requires s.memory.Some? && s.memory.value.flush.Ending?
    requires s.memory.value.flush.ended + n == |s.memory.value.batch|
    ensures Legal(s, Ends(n))
    ensures var m := s.memory.value;
            && Final(s, Ends(n)).memory == Some(m.(flush := Ending(m.flush.name, |m.batch|)))
            && Final(s, Ends(n)).acked == s.acked && Final(s, Ends(n)).disk.bloomFile == s.disk.bloomFile
    decreases n
  {
    if n == 0 {
      LegalNone(s);
    } else {
      EndsLegal(Do(s, AppendEnd), n - 1);
      LegalPair(s, AppendEnd, Ends(n - 1));
    }
  }

  ghost predicate Advances(t: Task, t': Task) {
    t.rest != [] && t'.kind == t.kind && t'.rest == t.rest[1..]
  }

  lemma TransactionAt(t: Task)
    requires Tracked(t) && t.kind.Transaction? && t.rest != [] && Sound(t.held, t.rest)
    ensures |t.rest| <= 6 && t.rest[0] == TRANSACT[6 - |t.rest|]
    ensures |t.rest| == 2 ==> HoldsForWriting(t, DataLock)
  {
    hide HeldBy;
  }

  lemma TransactionStep(s: State, t: Task, t': Task, job: Job)
    requires s.memory.Some? && Tracked(t) && Advances(t, t') && t.kind.Transaction?
    requires TaskOk(s, t, job.tx) && Branch(s, t, job) && Undisturbed(s, t) && Sound(t.held, t.rest)
    ensures Legal(s, Acts(s, t, job)) && Fits(s, Final(s, Acts(s, t, job)), t, t', job)
  {
    hide Legal, Final, FreshId, SstName, NotOlder, Tracked, Sound;
    TransactionAt(t);
    LegalNone(s);
    if |t.rest| == 5 { LegalOne(s, Begin(job.tx)); }
    if |t.rest| == 2 { LegalOne(s, Apply(job.tx)); }
  }

  /** A task before the step `q` of its flush. */
  ghost predicate Flushing(s: State, t: Task, t': Task, job: Job, q: nat) {
    && s.memory.Some? && Flushes(t.kind) && Advances(t, t')
    && FlushAt(t) == q < 12 && FlushAt(t') == q + 1 && t.rest[0] == FLUSH[q]
    && TaskOk(s, t, job.tx) && Branch(s, t, job) && Undisturbed(s, t)
    && (1 <= q <= 8 ==> HoldsForWriting(t, DataLock))
    && !InFlight(t) && !InFlight(t') && !HasApplied(t') && (Use(Log, Write) in t.rest <==> q <= 7)
  }

  /** Table file and filter. */
  lemma FlushMakesTable(s: State, t: Task, t': Task, job: Job, q: nat)
    requires 3 <= q <= 4 && Flushing(s, t, t', job, q)
    ensures Legal(s, Acts(s, t, job)) && Fits(s, Final(s, Acts(s, t, job)), t, t', job)
  {
    hide Legal, Final, FreshId, SstName, NotOlder, Advances, FlushAt, InFlight, Ends;
    if q == 3 {
      LegalOne(s, WriteTable(job.millis));
    } else {
      LegalOne(s, AddFilter);
      assert s.memory.value.flush.name in Do(s, AddFilter).memory.value.filters;
    }
  }

  /** Memtable, log and batch. */
  lemma FlushEmpties(s: State, t: Task, t': Task, job: Job, q: nat)
    requires (q == 5 || q == 7 || q == 8) && Flushing(s, t, t', job, q)
    ensures Legal(s, Acts(s, t, job)) && Fits(s, Final(s, Acts(s, t, job)), t, t', job)
  {
    hide Legal, Final, FreshId, SstName, NotOlder, Advances, FlushAt, InFlight, Ends;
    if q == 5 { LegalOne(s, ClearMemtable); }
    if q == 7 { EndsLegal(s, |s.memory.value.batch|); }
    if q == 8 { LegalOne(s, FinishFlush); }
  }

  /** The other steps. */
  lemma FlushGoesOn(s: State, t: Task, t': Task, job: Job, q: nat)
    requires !(3 <= q <= 5) && !(7 <= q <= 8) && Flushing(s, t, t', job, q)
    ensures Legal(s, Acts(s, t, job)) && Fits(s, Final(s, Acts(s, t, job)), t, t', job)
  {
    hide Legal, Final, FreshId, SstName, NotOlder, Advances, InFlight, Ends;
    LegalNone(s);
  }

  lemma FlushStep(s: State, t: Task, t': Task, job: Job)
    requires s.memory.Some? && Tracked(t) && Advances(t, t') && 0 <= FlushAt(t) < 12
    requires TaskOk(s, t, job.tx) && Branch(s, t, job) && Undisturbed(s, t)
    ensures Legal(s, Acts(s, t, job)) && Fits(s, Final(s, Acts(s, t, job)), t, t', job)
  {
    hide Legal, Final, Tracked, TaskOk, Branch, Undisturbed, Acts, Fits;
    var after := InsideFlush(t);
    var q := FlushAt(t);
    LogStepLeft(t.rest, q, after);
    if 3 <= q <= 4 {
      FlushMakesTable(s, t, t', job, q);
    } else if q == 5 || q == 7 || q == 8 {
      FlushEmpties(s, t, t', job, q);
    } else {
      FlushGoesOn(s, t, t', job, q);
    }
  }

  lemma LogStepLeft(rest: seq<Step>, q: nat, after: seq<Step>)
    requires q < 12 && rest == FLUSH[q..] + after && forall step :: step in after ==> !Changes(step)
    ensures rest[0] == FLUSH[q] && (Use(Log, Write) in rest <==> q <= 7)
  {
    if q <= 7 { assert rest[7 - q] == FLUSH[7]; }
  }

  lemma QuietStep(s: State, t: Task, t': Task, job: Job)
    requires s.memory.Some? && Tracked(t) && Advances(t, t')
    requires !t.kind.Transaction? && !(0 <= FlushAt(t) < 12)
    requires TaskOk(s, t, job.tx) && Undisturbed(s, t) && Sound(t.held, t.rest)
    ensures Legal(s, Acts(s, t, job)) && Fits(s, Final(s, Acts(s, t, job)), t, t', job)
  {
    hide Legal, Final, SstName, Tracked, Ends;
    LegalNone(s);
    if MayFlush(t.kind) {
      OutsideFlush(t);
      if t.rest[0] == Use(Index, Read) { LegalOne(s, WriteBloomFile); }
    }
  }

  lemma TaskStep(s: State, t: Task, t': Task, job: Job)
    requires s.memory.Some? && Tracked(t) && Advances(t, t') && Sound(t.held, t.rest)
    requires TaskOk(s, t, job.tx) && Branch(s, t, job) && Undisturbed(s, t)
    ensures Legal(s, Acts(s, t, job)) && Fits(s, Final(s, Acts(s, t, job)), t, t', job)
  {
    hide Legal, Final, Tracked, Sound, TaskOk, Branch, Undisturbed, Acts, Fits;
    if t.kind.Transaction? {
      TransactionStep(s, t, t', job);
    } else if 0 <= FlushAt(t) < 12 {
      FlushStep(s, t, t', job);
    } else {
      QuietStep(s, t, t', job);
    }
  }

  // ---------------------------------------------------------------- every move keeps the link

  lemma OtherTaskOk(s: State, s': State, t: Task, job: Job, u: Task, other: Store.Transaction)
    requires s.memory.Some? && s'.memory.Some? && LeavesAlone(s, s', t, job)
    requires Tracked(u) && TaskOk(s, u, other) && (InFlight(t) && InFlight(u) ==> job.tx != other)
    requires HoldsForWriting(t, DataLock) ==> !Holds(u, DataLock)
    ensures TaskOk(s', u, other)
  {
    hide Tracked;
    if 1 <= FlushAt(u) <= 8 { var _ := InsideFlush(u); }
  }

  lemma NobodyDisturbs(w: World, i: nat, env: Env)
    requires Joint(w, env) && i < |w.system.tasks|
    ensures Undisturbed(w.store, w.system.tasks[i])
  {
    hide Tracked, TaskOk, Base, TasksSound, QueuesOk, TransactionsWrite;
    var t, ts := w.system.tasks[i], w.system.tasks;
    if !w.store.memory.value.flush.Idle? {
      var j :| 0 <= j < |ts| && Owns(ts[j]);
      var _ := InsideFlush(ts[j]);
      if j != i {
        GuardedAlone(w.system, j, i, DataLock);
        GuardedAlone(w.system, j, i, BloomMapLock);
      }
    }
  }

  lemma FreshDiffers(s: State, tx: Store.Transaction, x: Store.Transaction)
    requires Base(s) && s.memory.Some? && x in s.memory.value.pending && FreshId(s.disk.log, tx.id)
    ensures x != tx
  {
    hide Begins, Unfinished, FreshId, NothingLost, OriginOk, FlushOk, MemtableOk;
    FreshIsNew(s.disk.log, tx);
  }

  /** A task that takes a step, and the rest of the link. */
  lemma JointStep(w: World, i: nat, t': Task, env: Env, system': System, s': State)
    requires Joint(w, env) && i < |w.system.tasks| && Advances(w.system.tasks[i], t')
    requires system'.tasks == w.system.tasks[i := t'] && Inv(system') && Tracked(t') && Base(s')
    requires var t := w.system.tasks[i];
             Branch(w.store, t, JobOf(w, i, env)) && Fits(w.store, s', t, t', JobOf(w, i, env))
    ensures Joint(World(system', s', w.time + 1), env)
  {
    hide Tracked, TaskOk, Base, Inv, LeavesAlone, Branch;
    var s, ts, t := w.store, w.system.tasks, w.system.tasks[i];
    forall j | 0 <= j < |ts| && j != i
      ensures TaskOk(s', ts[j], env.txs(j)) && (InFlight(t') && InFlight(ts[j]) ==> env.txs(i) != env.txs(j))
    {
      DataIsAlone(w.system, i, j);
      OtherTaskOk(s, s', t, JobOf(w, i, env), ts[j], env.txs(j));
      if InFlight(t') && InFlight(ts[j]) && !InFlight(t) { LogsLast(w, i, j, env); }
    }
    if !s'.memory.value.flush.Idle? {
      if Owns(t') {
        assert Owns(system'.tasks[i]);
      } else {
        var j :| 0 <= j < |ts| && Owns(ts[j]);
        assert Owns(system'.tasks[j]);
      }
    }
  }

  lemma DataIsAlone(s: System, i: nat, j: nat)
    requires Inv(s) && i < |s.tasks| && j < |s.tasks| && i != j
    ensures HoldsForWriting(s.tasks[i], DataLock) ==> !Holds(s.tasks[j], DataLock)
  {
    hide TasksSound, QueuesOk, TransactionsWrite;
  }

  /** A transaction about to log differs from those in flight. */
  lemma LogsLast(w: World, i: nat, j: nat, env: Env)
    requires Joint(w, env) && i < |w.system.tasks| && j < |w.system.tasks| && i != j
    requires w.system.tasks[i].kind.Transaction? && |w.system.tasks[i].rest| == 5 && InFlight(w.system.tasks[j])
    requires Branch(w.store, w.system.tasks[i], JobOf(w, i, env))
    ensures env.txs(i) != env.txs(j)
  {
    hide Tracked, Base, QueuesOk, Exclusive, TransactionsWrite, FreshId, SstName, Sound;
    assert Tracked(w.system.tasks[i]) && TaskOk(w.store, w.system.tasks[j], env.txs(j));
    TransactionAt(w.system.tasks[i]);
    FreshDiffers(w.store, env.txs(i), env.txs(j));
  }

  // ---------------------------------------------------------------- deciding

  lemma {:induction false} SoundFrom(p: seq<Step>, n: nat)
    requires Sound(map[], p) && n <= |p|
    ensures Sound(HeldBy(p[..n]), p[n..])
  {
    if n == 0 {
      assert p[..0] == [] && p[0..] == p;
    } else {
      SoundFrom(p, n - 1);
      assert p[..n][..n - 1] == p[..n - 1] && p[n - 1..][1..] == p[n..];
    }
  }

  /** The step at a decision is no request for a lock. */
  lemma AtDecision(t: Task)
    requires Tracked(t) && (AtCheck(t) || AtCreate(t))
    ensures t.rest != [] && !t.kind.Replay?
    ensures AtCheck(t) ==> t.rest[0] == Use(Memtable, Read)
    ensures AtCreate(t) ==> t.rest[0] == Use(TableFiles, if t.kind.flush.Done? then Write else Read)
  {
    hide Program, HeldBy, Before, Behind;
    Layout(t.kind);
    var p, b := Program(t.kind), |Before(t.kind)|;
    assert t.rest == p[Steps(t)..];
    FlushHeads(t.kind.flush);
    assert AtCheck(t) ==> p[b + 1] == FlushProgram(t.kind.flush)[1];
    assert AtCreate(t) ==> p[b + 3] == FlushProgram(t.kind.flush)[3];
  }

  lemma FlushHeads(f: Locks.Flush)
    ensures |FlushProgram(f)| >= 3 && FlushProgram(f)[1] == Use(Memtable, Read)
    ensures !f.Nothing? ==>
              |FlushProgram(f)| >= 6 && FlushProgram(f)[3] == Use(TableFiles, if f.Done? then Write else Read)
  {
  }

  lemma DecidingKeepsInv(s: System, i: nat, t': Task)
    requires Inv(s) && i < |s.tasks| && !WantsLock(s.tasks[i]) && !WantsLock(t')
    requires t'.held == s.tasks[i].held && t'.queued == s.tasks[i].queued && Sound(t'.held, t'.rest)
    requires !t'.kind.Transaction? && t'.rest != []
    ensures Inv(s.(tasks := s.tasks[i := t']))
  {
    hide Sound;
    var s' := s.(tasks := s.tasks[i := t']);
    assert forall l :: Queue(s', l) == Queue(s, l);
    forall l, p | 0 <= p < |Queue(s', l)| ensures Waiting(s', Queue(s', l)[p], l) {
      assert Waiting(s, Queue(s, l)[p], l);
    }
  }

  lemma SoundTask(t: Task)
    requires Tracked(t) && !t.kind.Replay?
    ensures Sound(t.held, t.rest)
  {
    hide Program, HeldBy, Sound;
    ProgramsSound(t.kind);
    SoundFrom(Program(t.kind), Steps(t));
  }

  lemma FlushAtIsSteps(t: Task)
    requires Flushes(t.kind)
    ensures FlushAt(t) == Steps(t) - |Before(t.kind)|
  {
    hide Program, Before, Behind;
    Layout(t.kind);
    BehindIsQuiet(t.kind);
    DoneIsFlush();
  }

  /** A file is created only at the place where the store has decided on it. */
  lemma CreateIsDecided(t: Task)
    requires Tracked(t) && t.rest != [] && MayFlush(t.kind) && t.rest[0] == Use(TableFiles, Write)
    ensures AtCreate(t)
  {
    hide Program, HeldBy, Tracked, Before;
    if !(0 <= FlushAt(t) < 12) {
      OutsideFlush(t);
    } else {
      var _ := InsideFlush(t);
      assert FLUSH[FlushAt(t)] == Use(TableFiles, Write);
      FlushAtIsSteps(t);
    }
  }

  lemma DecidedIsOk(s: State, t: Task, millis: nat, tx: Store.Transaction)
    requires s.memory.Some? && Tracked(t) && TaskOk(s, t, tx) && Placed(t) && (AtCheck(t) || AtCreate(t))
    ensures var t' := Decided(s, t, millis);
            && TaskOk(s, t', tx) && !Owns(t) && !Owns(t') && !InFlight(t) && !InFlight(t')
            && (AtCheck(t') ==> (s.memory.value.memtable == map[] <==> t'.kind.flush.Nothing?))
            && (AtCheck(t) ==> AtCheck(t')) && (AtCreate(t) ==> AtCreate(t'))
            && (AtCreate(t') ==> (SstName(millis) in s.disk.tables <==> t'.kind.flush.Refused?))
  {
    hide Program, HeldBy, Tracked, SstName, Before, FlushAt;
    var t' := Decided(s, t, millis);
    DecidedStays(s, t, millis);
    SameBefore(t.kind, t'.kind.flush);
    NoFlushAt(t);
    NoFlushAt(t');
    if Flushes(t.kind) { FlushAtIsSteps(t); }
    if Flushes(t'.kind) { FlushAtIsSteps(t'); }
  }

  lemma NoFlushAt(t: Task)
    ensures !Flushes(t.kind) ==> FlushAt(t) == -1
  {
  }

  /** Deciding keeps the link, and then the step is of the kind that the store calls for. */
  lemma JointDecides(w: World, i: nat, env: Env)
    requires Linked(w, env) && i < |w.system.tasks| && w.system.tasks[i].rest != []
    requires !WantsLock(w.system.tasks[i])
    ensures var t', job := Acting(w, i, env), JobOf(w, i, env);
            && t'.rest != [] && !WantsLock(t')
            && Joint(World(w.system.(tasks := w.system.tasks[i := t']), w.store, w.time), env)
            && (Admissible(w.store, t', job) ==> Branch(w.store, t', job))
  {
    hide Program, HeldBy, Base, Inv, Sound, SstName, NotOlder, FreshId, FlushAt, Before, Decided, Tracked, TaskOk;
    var s, ts, t, t' := w.store, w.system.tasks, w.system.tasks[i], Acting(w, i, env);
    assert Tracked(t) && TaskOk(s, t, env.txs(i)) && Placed(t);
    DecidedStays(s, t, env.clock(w.time));
    if AtCheck(t) || AtCreate(t) {
      DecidedIsOk(s, t, env.clock(w.time), env.txs(i));
      AtDecision(t');
      SoundTask(t');
      DecidingKeepsInv(w.system, i, t');
      if !s.memory.value.flush.Idle? {
        var j :| 0 <= j < |ts| && Owns(ts[j]);
        assert Owns(ts[i := t'][j]);
      }
    } else {
      if MayFlush(t.kind) && t.rest[0] == Use(TableFiles, Write) { CreateIsDecided(t); }
      assert ts[i := t'] == ts;
    }
  }

  // ---------------------------------------------------------------- every move keeps the link

  lemma MoveAdvances(s: System, m: Move)
    requires CanMove(s, m) && (m.Go? || m.Grant?)
    ensures var t' := After(s, m).tasks[m.i];
            After(s, m).tasks == s.tasks[m.i := t'] && Advances(s.tasks[m.i], t')
  {
    hide Admits, Queue, HeldAfter;
  }

  /** A step of a task that the store has decided on, or a lock that it is granted. */
  lemma JointMoves(w: World, m: Move, env: Env)
    requires Joint(w, env) && CanMove(w.system, m) && (m.Go? || m.Grant?)
    requires Branch(w.store, w.system.tasks[m.i], JobOf(w, m.i, env))
    ensures var acts := Acts(w.store, w.system.tasks[m.i], JobOf(w, m.i, env));
            && Legal(w.store, acts)
            && Joint(World(After(w.system, m), Final(w.store, acts), w.time + 1), env)
            && Fits(w.store, Final(w.store, acts), w.system.tasks[m.i], After(w.system, m).tasks[m.i],
                    JobOf(w, m.i, env))
  {
    hide Tracked, TaskOk, Base, Inv, Legal, Final, Fits, Undisturbed, Sound, Branch, Acts;
    var s, i, system' := w.store, m.i, After(w.system, m);
    var t, t', job := w.system.tasks[i], system'.tasks[i], JobOf(w, i, env);
    MoveAdvances(w.system, m);
    InvAfter(w.system, m);
    TrackedAfter(w.system, m);
    NobodyDisturbs(w, i, env);
    SoundHere(w.system, i);
    assert Tracked(t) && TaskOk(s, t, env.txs(i)) && Tracked(t');
    TaskStep(s, t, t', job);
    BaseAlways(s, Acts(s, t, job));
    JointStep(w, i, t', env, system', Final(s, Acts(s, t, job)));
  }

  lemma SoundHere(s: System, i: nat)
    requires Inv(s) && i < |s.tasks|
    ensures Sound(s.tasks[i].held, s.tasks[i].rest)
  {
    hide Sound;
  }

  lemma LinkedGoes(w: World, i: nat, env: Env)
    requires Linked(w, env) && Possible(w, Go(i), env)
    ensures Legal(w.store, ActsOf(w, Go(i), env)) && Linked(Moved(w, Go(i), env), env)
    ensures Fits(w.store, Moved(w, Go(i), env).store, Acting(w, i, env), Moved(w, Go(i), env).system.tasks[i],
                 JobOf(w, i, env))
  {
    hide Joint, Legal, Final, Branch, Admissible, Acts, Placed, Fits, Decided;
    var m, w1 := Go(i), World(Deciding(w, Go(i), env), w.store, w.time);
    JointDecides(w, i, env);
    JointMoves(w1, m, env);
    MoveAdvances(w1.system, m);
    PlacedGoes(w, i, env);
  }

  lemma PlacedGoes(w: World, i: nat, env: Env)
    requires Linked(w, env) && Possible(w, Go(i), env)
    ensures Placed(After(Deciding(w, Go(i), env), Go(i)).tasks[i])
  {
    hide Tracked, TaskOk, Base, Inv, Program, Before, SstName, Admissible, HeldAfter;
    var t, t' := w.system.tasks[i], Acting(w, i, env);
    assert Tracked(t) && Placed(t);
    DecidedStays(w.store, t, env.clock(w.time));
    if MayFlush(t.kind) { SameBefore(t.kind, t'.kind.flush); }
  }

  /** To be granted a lock is no step of the store's. */
  lemma LinkedGrants(w: World, i: nat, env: Env)
    requires Linked(w, env) && Possible(w, Grant(i), env)
    ensures Legal(w.store, ActsOf(w, Grant(i), env)) && Linked(Moved(w, Grant(i), env), env)
  {
    hide Joint, Legal, Final, Branch, Acts, Placed, Fits;
    var m := Grant(i);
    GrantIsQuiet(w, i, env);
    JointMoves(w, m, env);
    MoveAdvances(w.system, m);
    LegalNone(w.store);
    PlacedGrants(w, i, env);
  }

  lemma GrantIsQuiet(w: World, i: nat, env: Env)
    requires Linked(w, env) && CanMove(w.system, Grant(i)) && w.store.memory.Some?
    ensures var t := w.system.tasks[i];
            t.rest != [] && Branch(w.store, t, JobOf(w, i, env)) && Acts(w.store, t, JobOf(w, i, env)) == []
  {
    hide TaskOk, Base, Inv, Program, Before, Tracked, Queue, Admits, FreshId, SstName, NotOlder;
    var t := w.system.tasks[i];
    assert Tracked(t);
    if AtCheck(t) || AtCreate(t) { AtDecision(t); }
  }

  lemma PlacedGrants(w: World, i: nat, env: Env)
    requires Linked(w, env) && CanMove(w.system, Grant(i))
    ensures Placed(After(w.system, Grant(i)).tasks[i])
  {
    hide TaskOk, Base, Inv, Program, Before, Tracked, Queue, Admits, HeldAfter;
    var t := w.system.tasks[i];
    assert Tracked(t) && Placed(t);
    if AtCheck(t) || AtCreate(t) { AtDecision(t); }
  }

  lemma LinkedWaits(w: World, m: Move, env: Env)
    requires Linked(w, env) && Possible(w, m, env) && (m.Spawn? || m.Request?)
    ensures Legal(w.store, ActsOf(w, m, env)) && Linked(Moved(w, m, env), env)
  {
    hide Tracked, Base, Inv, Legal, Final, Program, TaskOk, FlushAt, Queue, Owns, InFlight, HasApplied, Placed;
    InvAfter(w.system, m);
    TrackedAfter(w.system, m);
    LegalNone(w.store);
    var ts, ts' := w.system.tasks, After(w.system, m).tasks;
    if m.Spawn? { SpawnIsOk(w.store, m.kind, env.txs(|ts|)); }
    forall i | 0 <= i < |ts|
      ensures TaskOk(w.store, ts'[i], env.txs(i)) && (InFlight(ts'[i]) <==> InFlight(ts[i]))
      ensures Owns(ts'[i]) <==> Owns(ts[i])
      ensures Placed(ts'[i]) <==> Placed(ts[i])
    {
      SamePlace(w.store, ts[i], ts'[i], env.txs(i));
    }
    if !w.store.memory.value.flush.Idle? {
      var j :| 0 <= j < |ts| && Owns(ts[j]);
      assert Owns(ts'[j]);
    }
  }

  lemma SamePlace(s: State, t: Task, t': Task, tx: Store.Transaction)
    requires s.memory.Some? && t'.kind == t.kind && t'.rest == t.rest && TaskOk(s, t, tx)
    ensures TaskOk(s, t', tx) && (InFlight(t') <==> InFlight(t)) && (Owns(t') <==> Owns(t))
    ensures Placed(t') <==> Placed(t)
  {
  }

  lemma SpawnIsOk(s: State, k: Kind, tx: Store.Transaction)
    requires s.memory.Some?
    ensures var t := Task(k, map[], Program(k), false); TaskOk(s, t, tx) && !InFlight(t) && Placed(t)
  {
    hide Program, FlushAt;
    StartsOutside(k);
  }

  lemma StartsOutside(k: Kind)
    ensures var t := Task(k, map[], Program(k), false); FlushAt(t) < 0 && !InFlight(t) && !HasApplied(t)
  {
    hide Program;
    if Flushes(k) {
      FlushAtIsSteps(Task(k, map[], Program(k), false));
    } else if k.Transaction? {
      TransactionIsLong();
    }
  }

  lemma TransactionIsLong()
    ensures |Program(Kind.Transaction)| == 6
  {
  }


  // ---------------------------------------------------------------- main results

  lemma LinkedNext(w: World, m: Move, env: Env)
    requires Linked(w, env) && Possible(w, m, env)
    ensures Legal(w.store, ActsOf(w, m, env)) && Linked(Moved(w, m, env), env)
  {
    hide Linked, Possible, Moved, ActsOf, Legal;
    match m
    case Go(i) => LinkedGoes(w, i, env);
    case Grant(i) => LinkedGrants(w, i, env);
    case _ => LinkedWaits(w, m, env);
  }

  /** Whatever tasks start, however the locks let them interleave, whatever transactions they bring and whatever the
      clock says: each step finds the store in a state in which its actions are possible. Together they are a run of
      the state machine, and it ends where the tasks have left the store. */
  lemma {:induction false} TasksRunTheStore(w: World, moves: seq<Move>, env: Env)
    requires Linked(w, env) && PossibleMoves(w, moves, env)
    ensures Legal(w.store, AllActs(w, moves, env))
    ensures Final(w.store, AllActs(w, moves, env)) == Arrives(w, moves, env).store
    ensures Linked(Arrives(w, moves, env), env)
    decreases |moves|
  {
    hide Linked, Possible, ActsOf, After, Legal, Final;
    if moves == [] {
      LegalNone(w.store);
    } else {
      var m := moves[0];
      LinkedNext(w, m, env);
      var w' := Moved(w, m, env);
      TasksRunTheStore(w', moves[1..], env);
      LegalAppend(w.store, ActsOf(w, m, env), AllActs(w', moves[1..], env));
    }
  }

  predicate IsReader(k: Kind) { k.MemoryLookup? || k.TableLookup? || k.RangeScan? }

  /** The task has the data, at every moment of a run. */
  predicate HoldsThrough(w: World, moves: seq<Move>, env: Env, i: nat)
    requires PossibleMoves(w, moves, env)
    decreases |moves|
  {
    && i < |w.system.tasks| && Holds(w.system.tasks[i], DataLock)
    && (moves == [] || HoldsThrough(Moved(w, moves[0], env), moves[1..], env, i))
  }

  lemma ReaderSeesNoFlush(w: World, env: Env, i: nat)
    requires Linked(w, env) && i < |w.system.tasks|
    requires IsReader(w.system.tasks[i].kind) && Holds(w.system.tasks[i], DataLock)
    ensures Readable(w.store)
  {
    hide Tracked, TaskOk, Base, TasksSound, QueuesOk, TransactionsWrite;
    var ts := w.system.tasks;
    if !w.store.memory.value.flush.Idle? {
      var j :| 0 <= j < |ts| && Owns(ts[j]);
      var _ := InsideFlush(ts[j]);
    }
  }

  /** While a task has the data, whatever the others do leaves it as it is. */
  lemma OthersKeepData(w: World, m: Move, env: Env, i: nat)
    requires Linked(w, env) && Possible(w, m, env) && i < |w.system.tasks|
    requires Holds(w.system.tasks[i], DataLock) && (m.Spawn? || m.i != i)
    ensures Moved(w, m, env).store.memory.Some? && SameData(w.store, Moved(w, m, env).store)
    ensures i < |Moved(w, m, env).system.tasks| && Moved(w, m, env).system.tasks[i] == w.system.tasks[i]
  {
    hide Tracked, TaskOk, Base, Inv, Sound, Branch, Admissible, Legal, Final, FlushAt, InFlight, Joint, Decided, Placed;
    hide HeldAfter, Queue, Admits, Acts;
    LegalNone(w.store);
    if m.Go? {
      LinkedGoes(w, m.i, env);
      ActingHolds(w, m.i, env, i);
    }
  }

  lemma ActingHolds(w: World, i: nat, env: Env, j: nat)
    requires Linked(w, env) && i < |w.system.tasks| && j < |w.system.tasks| && i != j
    requires Holds(w.system.tasks[j], DataLock)
    ensures !HoldsForWriting(Acting(w, i, env), DataLock)
  {
    hide Tracked, TaskOk, Base, Inv, Decided;
    assert Tracked(w.system.tasks[i]);
    DecidedStays(w.store, w.system.tasks[i], env.clock(w.time));
    DataIsAlone(w.system, i, j);
  }

  lemma ReaderKeepsData(w: World, m: Move, env: Env, i: nat)
    requires Linked(w, env) && Possible(w, m, env) && i < |w.system.tasks|
    requires IsReader(w.system.tasks[i].kind) && Holds(w.system.tasks[i], DataLock)
    ensures Moved(w, m, env).store.memory.Some? && SameData(w.store, Moved(w, m, env).store)
    ensures i < |Moved(w, m, env).system.tasks| && Moved(w, m, env).system.tasks[i].kind == w.system.tasks[i].kind
  {
    hide Linked, Legal, Final, Admissible, HeldAfter, Queue, Admits, Program;
    LegalNone(w.store);
    if m.Spawn? || m.i != i { OthersKeepData(w, m, env, i); }
  }

  /** While a lookup or a scan has the data lock, whatever else happens, no flush is in progress and nothing it reads
      changes: its steps see one and the same state of the store. */
  lemma {:induction false} ReadsAreAtomic(w: World, moves: seq<Move>, env: Env, i: nat)
    requires Linked(w, env) && PossibleMoves(w, moves, env)
    requires HoldsThrough(w, moves, env, i) && IsReader(w.system.tasks[i].kind)
    ensures var s' := Arrives(w, moves, env).store;
            Readable(w.store) && Readable(s') && SameData(w.store, s')
    decreases |moves|
  {
    hide Linked, Possible, Moved;
    ReaderSeesNoFlush(w, env, i);
    if moves != [] {
      LinkedNext(w, moves[0], env);
      ReaderKeepsData(w, moves[0], env, i);
      ReadsAreAtomic(Moved(w, moves[0], env), moves[1..], env, i);
    }
  }

  /** A shutdown that has flushed and finished has left a bloom file on disk. */
  lemma ShutdownLeavesBloomFile(w: World, moves: seq<Move>, env: Env, i: nat)
    requires Linked(w, env) && PossibleMoves(w, moves, env)
    requires var ts := Arrives(w, moves, env).system.tasks;
             i < |ts| && ts[i].kind == Shutdown(Done) && ts[i].rest == []
    ensures Arrives(w, moves, env).store.disk.bloomFile.Some?
  {
    hide Tracked, Base, Inv, PossibleMoves, Arrives, AllActs, Legal, Final;
    TasksRunTheStore(w, moves, env);
    var end := Arrives(w, moves, env);
    assert TaskOk(end.store, end.system.tasks[i], env.txs(i));
  }
}
