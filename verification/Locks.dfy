/** The store's read-write locks, the tasks that take them and what they do under them: no cyclic wait, and no two
    tasks at work on the same thing while one of them changes it. */
module Locks {
  import Bytes

  datatype Lock = ShutdownReceiver | StateLock | DataLock | BloomMapLock | CommitLogLock

  datatype Mode = Read | Write

  /** What the locks are there for. The memtable comes with its transaction ids. */
  datatype Thing = ShutdownFlag | Memtable | TableFiles | Index | Log

  function Guard(x: Thing): Lock {
    match x
    case ShutdownFlag => StateLock
    case Memtable => DataLock
    case TableFiles => DataLock
    case Index => BloomMapLock
    case Log => CommitLogLock
  }

  /** Taking a guard, dropping it, and reading or changing a thing in between. */
  datatype Step = Acquire(lock: Lock, mode: Mode) | Release(lock: Lock) | Use(thing: Thing, mode: Mode)

  function StepLock(step: Step): Lock {
    if step.Use? then Guard(step.thing) else step.lock
  }

  // ---------------------------------------------------------------- the programs

  /** How `write_sstable` ends: done, refused because the file exists, or nothing to do. */
  datatype Flush = Done | Refused | Nothing

  /** What a task is. A tick of the background task may go on to a flush, a shutdown always does; the last tick
      finds the store shut down, and a shutdown task may see its channel close without a request. */
  datatype Kind =
    | Transaction
    | MemoryLookup
    | TableLookup
    | RangeScan
    | Tick
    | TickAndFlush(flush: Flush)
    | LastTick
    | Shutdown(flush: Flush)
    | NoShutdown
    | Replay

  /** `do_transact`: the log guard is dropped before the data guard is taken. */
  const TRANSACT: seq<Step> :=
    [Acquire(CommitLogLock, Write), Use(Log, Write), Release(CommitLogLock),
     Acquire(DataLock, Write), Use(Memtable, Write), Release(DataLock)]

  const LOOKUP_IN_MEMORY: seq<Step> := [Acquire(DataLock, Read), Use(Memtable, Read), Release(DataLock)]

  const LOOKUP_IN_TABLES: seq<Step> :=
    [Acquire(DataLock, Read), Use(Memtable, Read),
     Acquire(BloomMapLock, Read), Use(Index, Read), Release(BloomMapLock),
     Use(TableFiles, Read), Release(DataLock)]

  const SCAN: seq<Step> :=
    [Acquire(DataLock, Read), Use(TableFiles, Read), Use(Memtable, Read), Release(DataLock)]

  const FLUSH: seq<Step> :=
    [Acquire(DataLock, Write), Use(Memtable, Read),
     Acquire(BloomMapLock, Write), Use(TableFiles, Write), Use(Index, Write), Use(Memtable, Write),
     Acquire(CommitLogLock, Write), Use(Log, Write), Use(Memtable, Write),
     Release(CommitLogLock), Release(BloomMapLock), Release(DataLock)]

  const FLUSH_REFUSED: seq<Step> :=
    [Acquire(DataLock, Write), Use(Memtable, Read),
     Acquire(BloomMapLock, Write), Use(TableFiles, Read), Release(BloomMapLock), Release(DataLock)]

  const FLUSH_NOTHING: seq<Step> := [Acquire(DataLock, Write), Use(Memtable, Read), Release(DataLock)]

  const SEE_FLAG: seq<Step> := [Acquire(StateLock, Read), Use(ShutdownFlag, Read), Release(StateLock)]

  const SAVE_INDEX: seq<Step> := [Acquire(BloomMapLock, Read), Use(Index, Read), Release(BloomMapLock)]

  /** `restore_previous_txs` applies transactions while it holds the log guard. */
  const REPLAY: seq<Step> :=
    [Acquire(CommitLogLock, Read), Use(Log, Read), Acquire(DataLock, Write), Use(Memtable, Write),
     Release(DataLock), Release(CommitLogLock)]

  function FlushProgram(f: Flush): seq<Step> {
    match f
    case Done => FLUSH
    case Refused => FLUSH_REFUSED
    case Nothing => FLUSH_NOTHING
  }

  /** A refused flush ends a shutdown with an error; otherwise the index is saved. */
  function ShutdownWork(f: Flush): seq<Step> {
    FlushProgram(f) + (if f.Refused? then [] else SAVE_INDEX)
  }

  /** A lock held for writing around some steps. */
  function Around(l: Lock, first: seq<Step>, inner: seq<Step>): seq<Step> {
    [Acquire(l, Write)] + (first + inner + [Release(l)])
  }

  function Program(k: Kind): seq<Step> {
    match k
    case Transaction => TRANSACT
    case MemoryLookup => LOOKUP_IN_MEMORY
    case TableLookup => LOOKUP_IN_TABLES
    case RangeScan => SCAN
    case Tick => SEE_FLAG + LOOKUP_IN_MEMORY
    case TickAndFlush(f) => SEE_FLAG + LOOKUP_IN_MEMORY + FlushProgram(f)
    case LastTick => SEE_FLAG
    case NoShutdown => [Acquire(ShutdownReceiver, Write), Release(ShutdownReceiver)]
    case Shutdown(f) => Around(ShutdownReceiver, [], Around(StateLock, [Use(ShutdownFlag, Write)], ShutdownWork(f)))
    case Replay => REPLAY
  }

  /** The things a program reads or changes, in order. */
  function Work(p: seq<Step>): seq<(Thing, Mode)> {
    if p == [] then []
    else (if p[0].Use? then [(p[0].thing, p[0].mode)] else []) + Work(p[1..])
  }

  // ---------------------------------------------------------------- the machine

  /** A task: what it is, the guards it holds, the steps it has left, and whether it waits in a queue. */
  datatype Task = Task(kind: Kind, held: map<Lock, Mode>, rest: seq<Step>, queued: bool)

  /** Tasks by number, and the first-come-first-served queue of each lock. */
  datatype System = System(tasks: seq<Task>, queues: map<Lock, seq<nat>>)

  function Queue(s: System, l: Lock): seq<nat> {
    if l in s.queues then s.queues[l] else []
  }

  datatype Move = Spawn(kind: Kind) | Request(i: nat) | Grant(i: nat) | Go(i: nat)

  predicate WantsLock(t: Task) { t.rest != [] && t.rest[0].Acquire? }

  /** A guard is granted to the head of the queue when every guard held by others admits it. */
  predicate Admits(s: System, i: nat, l: Lock, mode: Mode) {
    forall j :: 0 <= j < |s.tasks| && j != i && l in s.tasks[j].held ==> mode == Read && s.tasks[j].held[l] == Read
  }

  /** Tasks of every kind may start at any time, except the replay, which is over before the first one starts. */
  predicate CanMove(s: System, m: Move) {
    match m
    case Spawn(k) => !k.Replay?
    case Request(i) => i < |s.tasks| && WantsLock(s.tasks[i]) && !s.tasks[i].queued
    case Grant(i) =>
      && i < |s.tasks| && WantsLock(s.tasks[i]) && s.tasks[i].queued
      && (var step := s.tasks[i].rest[0];
          Queue(s, step.lock) != [] && Queue(s, step.lock)[0] == i && Admits(s, i, step.lock, step.mode))
    case Go(i) => i < |s.tasks| && s.tasks[i].rest != [] && !s.tasks[i].rest[0].Acquire?
  }

  function HeldAfter(held: map<Lock, Mode>, step: Step): map<Lock, Mode> {
    match step
    case Acquire(l, mode) => held[l := mode]
    case Release(l) => held - {l}
    case Use(_, _) => held
  }

  function After(s: System, m: Move): System
    requires CanMove(s, m)
  {
    match m
    case Spawn(k) => s.(tasks := s.tasks + [Task(k, map[], Program(k), false)])
    case Request(i) =>
      var t := s.tasks[i];
      var l := t.rest[0].lock;
      System(s.tasks[i := t.(queued := true)], s.queues[l := Queue(s, l) + [i]])
    case Grant(i) =>
      var t := s.tasks[i];
      var l := t.rest[0].lock;
      System(s.tasks[i := Task(t.kind, HeldAfter(t.held, t.rest[0]), t.rest[1..], false)],
             s.queues[l := Queue(s, l)[1..]])
    case Go(i) =>
      var t := s.tasks[i];
      s.(tasks := s.tasks[i := t.(held := HeldAfter(t.held, t.rest[0]), rest := t.rest[1..])])
  }

  predicate LegalMoves(s: System, moves: seq<Move>)
    decreases |moves|
  {
    moves == [] || (CanMove(s, moves[0]) && LegalMoves(After(s, moves[0]), moves[1..]))
  }

  function Reached(s: System, moves: seq<Move>): System
    requires LegalMoves(s, moves)
    decreases |moves|
  {
    if moves == [] then s else Reached(After(s, moves[0]), moves[1..])
  }

  const EMPTY := System([], map[])

  // ---------------------------------------------------------------- the order

  function Rank(l: Lock): nat {
    match l
    case ShutdownReceiver => 0
    case StateLock => 1
    case DataLock => 2
    case BloomMapLock => 3
    case CommitLogLock => 4
  }

  /** Locks are taken above all locks held, only held locks are dropped, and a thing is read under its guard and
      changed under its guard held for writing. */
  predicate SoundStep(held: map<Lock, Mode>, step: Step) {
    match step
    case Acquire(l, _) => forall h :: h in held ==> Rank(h) < Rank(l)
    case Release(l) => l in held
    case Use(x, mode) => Guard(x) in held && (mode == Write ==> held[Guard(x)] == Write)
  }

  /** From here on every step is sound, and in the end no lock is held. */
  predicate Sound(held: map<Lock, Mode>, rest: seq<Step>)
    decreases |rest|
  {
    if rest == [] then held == map[] else SoundStep(held, rest[0]) && Sound(HeldAfter(held, rest[0]), rest[1..])
  }

  lemma SoundAt(held: map<Lock, Mode>, held': map<Lock, Mode>, p: seq<Step>, k: nat)
    requires k < |p| && SoundStep(held, p[k]) && held' == HeldAfter(held, p[k]) && Sound(held', p[k + 1..])
    ensures Sound(held, p[k..])
  {
    hide SoundStep, HeldAfter;
    assert p[k..][0] == p[k] && p[k..][1..] == p[k + 1..];
  }

  lemma SoundEnd(p: seq<Step>)
    ensures Sound(map[], p[|p|..])
  {
  }

  lemma {:induction false} SoundFrame(base: map<Lock, Mode>, held: map<Lock, Mode>, p: seq<Step>, q: seq<Step>)
    requires Sound(held, p) && Sound(base, q) && base.Keys !! held.Keys
    requires forall i, h :: 0 <= i < |p| && h in base ==> Rank(h) < Rank(StepLock(p[i]))
    ensures Sound(base + held, p + q)
    decreases |p|
  {
    if p == [] {
      assert p + q == q && base + held == base;
    } else {
      var held' := HeldAfter(held, p[0]);
      assert StepLock(p[0]) !in base;
      FrameStep(base, held, p[0]);
      SoundFrame(base, held', p[1..], q);
      assert (p + q)[0] == p[0] && (p + q)[1..] == p[1..] + q;
    }
  }

  lemma FrameStep(base: map<Lock, Mode>, held: map<Lock, Mode>, step: Step)
    requires SoundStep(held, step) && base.Keys !! held.Keys && StepLock(step) !in base
    requires forall h :: h in base ==> Rank(h) < Rank(StepLock(step))
    ensures HeldAfter(base + held, step) == base + HeldAfter(held, step)
    ensures base.Keys !! HeldAfter(held, step).Keys
    ensures SoundStep(base + held, step)
  {
  }

  lemma SoundThen(p: seq<Step>, q: seq<Step>)
    requires Sound(map[], p) && Sound(map[], q)
    ensures Sound(map[], p + q)
  {
    hide Sound;
    var none: map<Lock, Mode> := map[];
    assert none + none == none;
    SoundFrame(none, none, p, q);
  }

  lemma TransactSound()
    ensures Sound(map[], TRANSACT)
  {
    hide Sound;
    var p := TRANSACT;
    var log, data := map[CommitLogLock := Write], map[DataLock := Write];
    SoundEnd(p);
    SoundAt(data, map[], p, 5);
    SoundAt(data, data, p, 4);
    SoundAt(map[], data, p, 3);
    SoundAt(log, map[], p, 2);
    SoundAt(log, log, p, 1);
    SoundAt(map[], log, p, 0);
    assert p[0..] == p;
  }

  lemma BlockSound(l: Lock, mode: Mode, x: Thing, how: Mode)
    requires Guard(x) == l && (how == Write ==> mode == Write)
    ensures Sound(map[], [Acquire(l, mode), Use(x, how), Release(l)])
  {
    hide Sound;
    var p := [Acquire(l, mode), Use(x, how), Release(l)];
    SoundEnd(p);
    SoundAt(map[l := mode], map[], p, 2);
    SoundAt(map[l := mode], map[l := mode], p, 1);
    SoundAt(map[], map[l := mode], p, 0);
    assert p[0..] == p;
  }

  lemma ReadersSound()
    ensures Sound(map[], LOOKUP_IN_TABLES) && Sound(map[], SCAN)
  {
    hide Sound;
    var p, data := LOOKUP_IN_TABLES, map[DataLock := Read];
    var both := data[BloomMapLock := Read];
    SoundEnd(p);
    SoundAt(data, map[], p, 6);
    SoundAt(data, data, p, 5);
    SoundAt(both, data, p, 4);
    SoundAt(both, both, p, 3);
    SoundAt(data, both, p, 2);
    SoundAt(data, data, p, 1);
    SoundAt(map[], data, p, 0);
    assert p[0..] == p;
    var q := SCAN;
    SoundEnd(q);
    SoundAt(data, map[], q, 3);
    SoundAt(data, data, q, 2);
    SoundAt(data, data, q, 1);
    SoundAt(map[], data, q, 0);
    assert q[0..] == q;
  }

  const DATA: map<Lock, Mode> := map[DataLock := Write]

  const DATA_AND_INDEX: map<Lock, Mode> := map[DataLock := Write, BloomMapLock := Write]

  lemma FlushEndsSound()
    ensures Sound(DATA_AND_INDEX, FLUSH[6..])
  {
    hide Sound;
    var p, three := FLUSH, DATA_AND_INDEX[CommitLogLock := Write];
    SoundEnd(p);
    SoundAt(DATA, map[], p, 11);
    SoundAt(DATA_AND_INDEX, DATA, p, 10);
    SoundAt(three, DATA_AND_INDEX, p, 9);
    SoundAt(three, three, p, 8);
    SoundAt(three, three, p, 7);
    SoundAt(DATA_AND_INDEX, three, p, 6);
  }

  lemma FlushSound()
    ensures Sound(map[], FLUSH)
  {
    hide Sound;
    var p := FLUSH;
    FlushEndsSound();
    SoundAt(DATA_AND_INDEX, DATA_AND_INDEX, p, 5);
    SoundAt(DATA_AND_INDEX, DATA_AND_INDEX, p, 4);
    SoundAt(DATA_AND_INDEX, DATA_AND_INDEX, p, 3);
    SoundAt(DATA, DATA_AND_INDEX, p, 2);
    SoundAt(DATA, DATA, p, 1);
    SoundAt(map[], DATA, p, 0);
    assert p[0..] == p;
  }

  lemma RefusedSound()
    ensures Sound(map[], FLUSH_REFUSED)
  {
    hide Sound;
    var p, data := FLUSH_REFUSED, map[DataLock := Write];
    var two := data[BloomMapLock := Write];
    SoundEnd(p);
    SoundAt(data, map[], p, 5);
    SoundAt(two, data, p, 4);
    SoundAt(two, two, p, 3);
    SoundAt(data, two, p, 2);
    SoundAt(data, data, p, 1);
    SoundAt(map[], data, p, 0);
    assert p[0..] == p;
  }

  lemma FlushesSound(f: Flush)
    ensures Sound(map[], FlushProgram(f))
    ensures forall i :: 0 <= i < |FlushProgram(f)| ==> Rank(DataLock) <= Rank(StepLock(FlushProgram(f)[i]))
  {
    hide Sound;
    match f
    case Done => FlushSound();
    case Refused => RefusedSound();
    case Nothing => BlockSound(DataLock, Write, Memtable, Read);
  }

  predicate Above(l: Lock, p: seq<Step>) {
    forall i :: 0 <= i < |p| ==> Rank(l) < Rank(StepLock(p[i]))
  }

  /** One guard held around a sound program that stays above it. */
  lemma SoundAround(l: Lock, inner: seq<Step>)
    requires Sound(map[], inner) && Above(l, inner)
    ensures Sound(map[l := Write], inner + [Release(l)])
    ensures Sound(map[], Around(l, [], inner))
  {
    hide Sound;
    var base, close := map[l := Write], [Release(l)];
    SoundEnd(close);
    SoundAt(base, map[], close, 0);
    assert close[0..] == close && base + map[] == base;
    SoundFrame(base, map[], inner, close);
    var p := Around(l, [], inner);
    AroundParts(l, inner);
    SoundAt(map[], base, p, 0);
  }

  lemma AroundParts(l: Lock, inner: seq<Step>)
    ensures var p := Around(l, [], inner);
            p != [] && p[0] == Acquire(l, Write) && p[1..] == inner + [Release(l)] && p[0..] == p
  {
    assert [] + inner == inner;
  }

  lemma SoundAroundFlag(inner: seq<Step>)
    requires Sound(map[], inner) && Above(StateLock, inner)
    ensures Sound(map[], Around(StateLock, [Use(ShutdownFlag, Write)], inner))
  {
    hide Sound, Above;
    SoundAround(StateLock, inner);
    var base := map[StateLock := Write];
    var p := Around(StateLock, [Use(ShutdownFlag, Write)], inner);
    assert p[2..] == inner + [Release(StateLock)];
    SoundAt(base, base, p, 1);
    SoundAt(map[], base, p, 0);
    assert p[0..] == p;
  }

  lemma StateAboveReceiver(inner: seq<Step>)
    requires Above(StateLock, inner)
    ensures Above(ShutdownReceiver, Around(StateLock, [Use(ShutdownFlag, Write)], inner))
  {
  }

  lemma ShutdownWorkSound(f: Flush)
    ensures Sound(map[], ShutdownWork(f)) && Above(StateLock, ShutdownWork(f))
  {
    hide Sound, FlushProgram;
    FlushesSound(f);
    BlockSound(BloomMapLock, Read, Index, Read);
    var none: seq<Step> := [];
    SoundEnd(none);
    assert none[|none|..] == none;
    SoundThen(FlushProgram(f), if f.Refused? then [] else SAVE_INDEX);
  }

  lemma ShutdownSound(f: Flush)
    ensures Sound(map[], Program(Shutdown(f)))
  {
    hide Sound, ShutdownWork, Around, Above;
    ShutdownWorkSound(f);
    SoundAroundFlag(ShutdownWork(f));
    StateAboveReceiver(ShutdownWork(f));
    SoundAround(ShutdownReceiver, Around(StateLock, [Use(ShutdownFlag, Write)], ShutdownWork(f)));
  }

  lemma TicksSound(f: Flush)
    ensures Sound(map[], Program(Tick)) && Sound(map[], Program(TickAndFlush(f))) && Sound(map[], Program(LastTick))
  {
    hide Sound, FlushProgram;
    BlockSound(StateLock, Read, ShutdownFlag, Read);
    BlockSound(DataLock, Read, Memtable, Read);
    SoundThen(SEE_FLAG, LOOKUP_IN_MEMORY);
    FlushesSound(f);
    SoundThen(SEE_FLAG + LOOKUP_IN_MEMORY, FlushProgram(f));
  }

  lemma NoShutdownSound()
    ensures Sound(map[], Program(NoShutdown))
  {
    hide Sound;
    var p, held := Program(NoShutdown), map[ShutdownReceiver := Write];
    SoundEnd(p);
    SoundAt(held, map[], p, 1);
    SoundAt(map[], held, p, 0);
    assert p[0..] == p;
  }

  /** Every task takes its locks in the one order and touches things only under their guards. */
  lemma ProgramsSound(k: Kind)
    requires !k.Replay?
    ensures Sound(map[], Program(k))
  {
    hide Sound, FlushProgram;
    match k
    case Transaction => TransactSound();
    case MemoryLookup => BlockSound(DataLock, Read, Memtable, Read);
    case TableLookup => ReadersSound();
    case RangeScan => ReadersSound();
    case Tick => TicksSound(Nothing);
    case TickAndFlush(f) => TicksSound(f);
    case LastTick => TicksSound(Nothing);
    case Shutdown(f) => ShutdownSound(f);
    case NoShutdown => NoShutdownSound();
  }

  lemma WorkEnd(p: seq<Step>)
    ensures Work(p[|p|..]) == []
  {
  }

  lemma WorkUse(p: seq<Step>, k: nat, work: seq<(Thing, Mode)>)
    requires k < |p| && p[k].Use? && Work(p[k + 1..]) == work
    ensures Work(p[k..]) == [(p[k].thing, p[k].mode)] + work
  {
    assert p[k..][1..] == p[k + 1..];
  }

  lemma WorkSkip(p: seq<Step>, k: nat, work: seq<(Thing, Mode)>)
    requires k < |p| && !p[k].Use? && Work(p[k + 1..]) == work
    ensures Work(p[k..]) == work
  {
    assert p[k..][1..] == p[k + 1..];
  }

  /** A transaction writes the log and then the memtable. */
  lemma WorkOfTransaction()
    ensures Work(Program(Transaction)) == [(Log, Write), (Memtable, Write)]
  {
    hide Work;
    WorkEnd(TRANSACT);
    WorkSkip(TRANSACT, 5, []);
    WorkUse(TRANSACT, 4, []);
    WorkSkip(TRANSACT, 3, [(Memtable, Write)]);
    WorkSkip(TRANSACT, 2, [(Memtable, Write)]);
    WorkUse(TRANSACT, 1, [(Memtable, Write)]);
    WorkSkip(TRANSACT, 0, [(Log, Write), (Memtable, Write)]);
    assert TRANSACT[0..] == TRANSACT;
  }

  /** A flush writes the table file, its filter, the empty memtable, the ends in the log, the empty list of ids. */
  lemma WorkOfFlush()
    ensures Work(FlushProgram(Done)) == [(Memtable, Read), (TableFiles, Write), (Index, Write), (Memtable, Write),
                                         (Log, Write), (Memtable, Write)]
  {
    hide Work;
    WorkEnd(FLUSH);
    WorkSkip(FLUSH, 11, []);
    WorkSkip(FLUSH, 10, []);
    WorkSkip(FLUSH, 9, []);
    WorkUse(FLUSH, 8, []);
    WorkUse(FLUSH, 7, [(Memtable, Write)]);
    WorkSkip(FLUSH, 6, [(Log, Write), (Memtable, Write)]);
    WorkUse(FLUSH, 5, [(Log, Write), (Memtable, Write)]);
    WorkUse(FLUSH, 4, [(Memtable, Write), (Log, Write), (Memtable, Write)]);
    WorkUse(FLUSH, 3, [(Index, Write), (Memtable, Write), (Log, Write), (Memtable, Write)]);
    WorkSkip(FLUSH, 2, [(TableFiles, Write), (Index, Write), (Memtable, Write), (Log, Write), (Memtable, Write)]);
    WorkUse(FLUSH, 1, [(TableFiles, Write), (Index, Write), (Memtable, Write), (Log, Write), (Memtable, Write)]);
    WorkSkip(FLUSH, 0, [(Memtable, Read), (TableFiles, Write), (Index, Write),
                       (Memtable, Write), (Log, Write), (Memtable, Write)]);
    assert FLUSH[0..] == FLUSH;
  }

  /** Lookups and scans change nothing. */
  lemma WorkOfReaders()
    ensures Work(Program(TableLookup)) == [(Memtable, Read), (Index, Read), (TableFiles, Read)]
    ensures Work(Program(RangeScan)) == [(TableFiles, Read), (Memtable, Read)]
  {
    hide Work;
    WorkEnd(LOOKUP_IN_TABLES);
    WorkSkip(LOOKUP_IN_TABLES, 6, []);
    WorkUse(LOOKUP_IN_TABLES, 5, []);
    WorkSkip(LOOKUP_IN_TABLES, 4, [(TableFiles, Read)]);
    WorkUse(LOOKUP_IN_TABLES, 3, [(TableFiles, Read)]);
    WorkSkip(LOOKUP_IN_TABLES, 2, [(Index, Read), (TableFiles, Read)]);
    WorkUse(LOOKUP_IN_TABLES, 1, [(Index, Read), (TableFiles, Read)]);
    WorkSkip(LOOKUP_IN_TABLES, 0, [(Memtable, Read), (Index, Read), (TableFiles, Read)]);
    assert LOOKUP_IN_TABLES[0..] == LOOKUP_IN_TABLES;
    WorkEnd(SCAN);
    WorkSkip(SCAN, 3, []);
    WorkUse(SCAN, 2, []);
    WorkUse(SCAN, 1, [(Memtable, Read)]);
    WorkSkip(SCAN, 0, [(TableFiles, Read), (Memtable, Read)]);
    assert SCAN[0..] == SCAN;
  }

  lemma {:induction false} WorkJoin(p: seq<Step>, q: seq<Step>)
    ensures Work(p + q) == Work(p) + Work(q)
  {
    hide Work;
    if p == [] {
      WorkEnd(p);
      assert p + q == q;
    } else {
      WorkJoin(p[1..], q);
      WorkHead(p, q);
      WorkHead(p, []);
      assert p + [] == p && p[1..] + [] == p[1..];
      Bytes.Associates(if p[0].Use? then [(p[0].thing, p[0].mode)] else [], Work(p[1..]), Work(q));
    }
  }

  lemma WorkHead(p: seq<Step>, q: seq<Step>)
    requires p != []
    ensures Work(p + q) == (if p[0].Use? then [(p[0].thing, p[0].mode)] else []) + Work(p[1..] + q)
  {
    assert (p + q)[1..] == p[1..] + q;
  }

  lemma WorkAround(l: Lock, first: seq<Step>, inner: seq<Step>)
    ensures Work(Around(l, first, inner)) == Work(first) + Work(inner)
  {
    WorkJoin(first, inner);
    WorkJoin(first + inner, [Release(l)]);
    WorkJoin([Acquire(l, Write)], first + inner + [Release(l)]);
    assert Work([Release(l)]) == [] && Work([Acquire(l, Write)]) == [];
  }

  lemma WorkOfOne(l: Lock, mode: Mode, x: Thing, use: Mode)
    ensures Work([Use(x, use)]) == [(x, use)]
    ensures Work([Acquire(l, mode), Use(x, use), Release(l)]) == [(x, use)]
  {
    hide Work;
    var p := [Acquire(l, mode), Use(x, use), Release(l)];
    WorkEnd(p);
    WorkSkip(p, 2, []);
    WorkUse(p, 1, []);
    WorkSkip(p, 0, [(x, use)]);
    assert p[0..] == p;
    var q := [Use(x, use)];
    WorkEnd(q);
    WorkUse(q, 0, []);
    assert q[0..] == q;
  }

  /** A shutdown raises its flag, flushes, and saves the index unless the flush was refused; a tick looks at the flag
      and at the memtable before it flushes. */
  lemma WorkOfBackgroundTasks(f: Flush)
    ensures Work(Program(Shutdown(f)))
         == [(ShutdownFlag, Write)] + (Work(FlushProgram(f)) + (if f.Refused? then [] else [(Index, Read)]))
    ensures Work(Program(TickAndFlush(f))) == [(ShutdownFlag, Read), (Memtable, Read)] + Work(FlushProgram(f))
  {
    hide Work, FlushProgram, ShutdownWork, Around;
    WorkOfOne(StateLock, Read, ShutdownFlag, Write);
    WorkOfOne(StateLock, Read, ShutdownFlag, Read);
    WorkOfOne(DataLock, Read, Memtable, Read);
    WorkEnd([]);
    WorkInShutdown(f);
    WorkAround(StateLock, [Use(ShutdownFlag, Write)], ShutdownWork(f));
    WorkAround(ShutdownReceiver, [], Around(StateLock, [Use(ShutdownFlag, Write)], ShutdownWork(f)));
    WorkJoin(SEE_FLAG, LOOKUP_IN_MEMORY);
    WorkJoin(SEE_FLAG + LOOKUP_IN_MEMORY, FlushProgram(f));
  }

  lemma WorkInShutdown(f: Flush)
    ensures Work(ShutdownWork(f)) == Work(FlushProgram(f)) + (if f.Refused? then [] else [(Index, Read)])
  {
    hide Work, FlushProgram;
    WorkOfOne(BloomMapLock, Read, Index, Read);
    WorkEnd([]);
    WorkJoin(FlushProgram(f), if f.Refused? then [] else SAVE_INDEX);
  }

  /** The guards a program takes, in order. */
  function Taken(p: seq<Step>): seq<(Lock, Mode)> {
    if p == [] then [] else (if p[0].Acquire? then [(p[0].lock, p[0].mode)] else []) + Taken(p[1..])
  }

  lemma TakenAt(p: seq<Step>, k: nat, taken: seq<(Lock, Mode)>)
    requires k < |p| && Taken(p[k + 1..]) == taken
    ensures Taken(p[k..]) == (if p[k].Acquire? then [(p[k].lock, p[k].mode)] else []) + taken
  {
    assert p[k..][1..] == p[k + 1..];
  }

  lemma TakenEnd(p: seq<Step>)
    ensures Taken(p[|p|..]) == []
  {
  }

  lemma {:induction false} TakenJoin(p: seq<Step>, q: seq<Step>)
    ensures Taken(p + q) == Taken(p) + Taken(q)
  {
    if p == [] {
      assert p + q == q;
    } else {
      TakenJoin(p[1..], q);
      assert (p + q)[1..] == p[1..] + q;
      Bytes.Associates(if p[0].Acquire? then [(p[0].lock, p[0].mode)] else [], Taken(p[1..]), Taken(q));
    }
  }

  /** Lookups and scans take the data and the filters for reading, so that they can go on side by side; a transaction
      takes the log and then the data for writing. */
  lemma LocksOfClients()
    ensures Taken(Program(Transaction)) == [(CommitLogLock, Write), (DataLock, Write)]
    ensures Taken(Program(MemoryLookup)) == [(DataLock, Read)] == Taken(Program(RangeScan))
    ensures Taken(Program(TableLookup)) == [(DataLock, Read), (BloomMapLock, Read)]
  {
    hide Taken;
    var p := TRANSACT;
    TakenEnd(p);
    TakenAt(p, 5, []);
    TakenAt(p, 4, []);
    TakenAt(p, 3, []);
    TakenAt(p, 2, [(DataLock, Write)]);
    TakenAt(p, 1, [(DataLock, Write)]);
    TakenAt(p, 0, [(DataLock, Write)]);
    assert p[0..] == p;
    LocksOfReaders();
  }

  lemma LocksOfReaders()
    ensures Taken(LOOKUP_IN_MEMORY) == [(DataLock, Read)] == Taken(SCAN)
    ensures Taken(LOOKUP_IN_TABLES) == [(DataLock, Read), (BloomMapLock, Read)]
  {
    hide Taken;
    OneGuard(DataLock, Read, Memtable, Read);
    var p := LOOKUP_IN_TABLES;
    TakenEnd(p);
    TakenAt(p, 6, []);
    TakenAt(p, 5, []);
    TakenAt(p, 4, []);
    TakenAt(p, 3, []);
    TakenAt(p, 2, []);
    TakenAt(p, 1, [(BloomMapLock, Read)]);
    TakenAt(p, 0, [(BloomMapLock, Read)]);
    assert p[0..] == p;
    var q := SCAN;
    TakenEnd(q);
    TakenAt(q, 3, []);
    TakenAt(q, 2, []);
    TakenAt(q, 1, []);
    TakenAt(q, 0, []);
    assert q[0..] == q;
  }

  lemma OneGuard(l: Lock, mode: Mode, x: Thing, use: Mode)
    ensures Taken([Acquire(l, mode), Use(x, use), Release(l)]) == [(l, mode)]
  {
    hide Taken;
    var p := [Acquire(l, mode), Use(x, use), Release(l)];
    TakenEnd(p);
    TakenAt(p, 2, []);
    TakenAt(p, 1, []);
    TakenAt(p, 0, []);
    assert p[0..] == p;
  }

  /** A tick looks at the flag and at the memtable for reading before it flushes; the last one at the flag alone. A
      flush takes the data, and when there is something to do the filters, and when it is not refused the log, for
      writing. A shutdown holds its channel and the flag for writing around that and takes the filters for reading to
      save them. */
  lemma LocksOfBackgroundTasks(f: Flush)
    ensures Taken(Program(LastTick)) == [(StateLock, Read)]
    ensures Taken(Program(Tick)) == [(StateLock, Read), (DataLock, Read)]
    ensures Taken(Program(TickAndFlush(f))) == [(StateLock, Read), (DataLock, Read)] + FlushLocks(f)
    ensures Taken(Program(NoShutdown)) == [(ShutdownReceiver, Write)]
    ensures Taken(Program(Shutdown(f)))
         == [(ShutdownReceiver, Write), (StateLock, Write)] + (FlushLocks(f)
            + (if f.Refused? then [] else [(BloomMapLock, Read)]))
  {
    hide Taken, FlushProgram, FlushLocks, ShutdownWork, Around;
    OneGuard(StateLock, Read, ShutdownFlag, Read);
    OneGuard(DataLock, Read, Memtable, Read);
    LocksOfFlush(f);
    TakenJoin(SEE_FLAG, LOOKUP_IN_MEMORY);
    TakenJoin(SEE_FLAG + LOOKUP_IN_MEMORY, FlushProgram(f));
    LocksOfShutdown(f);
    TakenAround(StateLock, [Use(ShutdownFlag, Write)], ShutdownWork(f));
    TakenAround(ShutdownReceiver, [], Around(StateLock, [Use(ShutdownFlag, Write)], ShutdownWork(f)));
    TakenTwo();
  }

  function FlushLocks(f: Flush): seq<(Lock, Mode)> {
    match f
    case Done => [(DataLock, Write), (BloomMapLock, Write), (CommitLogLock, Write)]
    case Refused => [(DataLock, Write), (BloomMapLock, Write)]
    case Nothing => [(DataLock, Write)]
  }

  lemma TakenTwo()
    ensures Taken([]) == [] && Taken([Use(ShutdownFlag, Write)]) == []
    ensures Taken(Program(NoShutdown)) == [(ShutdownReceiver, Write)]
  {
    hide Taken;
    var p := Program(NoShutdown);
    TakenEnd(p);
    TakenAt(p, 1, []);
    TakenAt(p, 0, []);
    assert p[0..] == p;
    var q := [Use(ShutdownFlag, Write)];
    TakenEnd(q);
    TakenAt(q, 0, []);
    assert q[0..] == q && q[1..] == [];
  }

  lemma TakenAround(l: Lock, first: seq<Step>, inner: seq<Step>)
    ensures Taken(Around(l, first, inner)) == [(l, Write)] + (Taken(first) + Taken(inner))
  {
    TakenJoin(first, inner);
    TakenJoin(first + inner, [Release(l)]);
    TakenJoin([Acquire(l, Write)], first + inner + [Release(l)]);
    assert Taken([Release(l)]) == [] && Taken([Acquire(l, Write)]) == [(l, Write)];
  }

  lemma LocksOfShutdown(f: Flush)
    ensures Taken(ShutdownWork(f)) == FlushLocks(f) + (if f.Refused? then [] else [(BloomMapLock, Read)])
  {
    hide Taken, FlushProgram, FlushLocks;
    LocksOfFlush(f);
    OneGuard(BloomMapLock, Read, Index, Read);
    TakenTwo();
    TakenJoin(FlushProgram(f), if f.Refused? then [] else SAVE_INDEX);
  }

  lemma LocksOfFlush(f: Flush)
    ensures Taken(FlushProgram(f)) == FlushLocks(f)
  {
    hide Taken;
    OneGuard(DataLock, Write, Memtable, Read);
    if f.Done? {
      LocksOfFullFlush();
    } else if f.Refused? {
      var p := FLUSH_REFUSED;
      TakenEnd(p);
      TakenAt(p, 5, []);
      TakenAt(p, 4, []);
      TakenAt(p, 3, []);
      TakenAt(p, 2, []);
      TakenAt(p, 1, [(BloomMapLock, Write)]);
      TakenAt(p, 0, [(BloomMapLock, Write)]);
      assert p[0..] == p;
    }
  }

  lemma LocksOfFlushEnd()
    ensures Taken(FLUSH[6..]) == [(CommitLogLock, Write)]
  {
    hide Taken;
    var p := FLUSH;
    TakenEnd(p);
    TakenAt(p, 11, []);
    TakenAt(p, 10, []);
    TakenAt(p, 9, []);
    TakenAt(p, 8, []);
    TakenAt(p, 7, []);
    TakenAt(p, 6, []);
  }

  lemma LocksOfFullFlush()
    ensures Taken(FLUSH) == [(DataLock, Write), (BloomMapLock, Write), (CommitLogLock, Write)]
  {
    hide Taken;
    var p := FLUSH;
    LocksOfFlushEnd();
    TakenAt(p, 5, [(CommitLogLock, Write)]);
    TakenAt(p, 4, [(CommitLogLock, Write)]);
    TakenAt(p, 3, [(CommitLogLock, Write)]);
    TakenAt(p, 2, [(CommitLogLock, Write)]);
    TakenAt(p, 1, [(BloomMapLock, Write), (CommitLogLock, Write)]);
    TakenAt(p, 0, [(BloomMapLock, Write), (CommitLogLock, Write)]);
    assert p[0..] == p;
  }

  // ---------------------------------------------------------------- what every move keeps

  ghost predicate TasksSound(s: System) {
    forall i :: 0 <= i < |s.tasks| ==> Sound(s.tasks[i].held, s.tasks[i].rest)
  }

  ghost predicate Waiting(s: System, i: nat, l: Lock) {
    i < |s.tasks| && s.tasks[i].queued && WantsLock(s.tasks[i]) && s.tasks[i].rest[0].lock == l
  }

  /** A task is in a queue exactly when it waits for that lock, and once only. */
  ghost predicate QueuesOk(s: System) {
    && (forall l, p | 0 <= p < |Queue(s, l)| :: Waiting(s, Queue(s, l)[p], l))
    && (forall l, p, q | 0 <= p < q < |Queue(s, l)| :: Queue(s, l)[p] != Queue(s, l)[q])
    && (forall i :: 0 <= i < |s.tasks| && s.tasks[i].queued ==>
          WantsLock(s.tasks[i]) && i in Queue(s, s.tasks[i].rest[0].lock))
  }

  /** A writer is alone. */
  ghost predicate Exclusive(s: System) {
    forall i, j, l | 0 <= i < |s.tasks| && 0 <= j < |s.tasks| && i != j ::
      l in s.tasks[i].held && l in s.tasks[j].held ==> s.tasks[i].held[l] == Read && s.tasks[j].held[l] == Read
  }

  /** A transaction holds its locks for writing. */
  ghost predicate TransactionsWrite(s: System) {
    forall i :: 0 <= i < |s.tasks| && s.tasks[i].kind.Transaction? ==> OnlyWrites(s.tasks[i])
  }

  predicate OnlyWrites(t: Task) {
    && (forall l :: l in t.held ==> t.held[l] == Write)
    && (forall k :: 0 <= k < |t.rest| && t.rest[k].Acquire? ==> t.rest[k].mode == Write)
  }

  ghost predicate Inv(s: System) { TasksSound(s) && QueuesOk(s) && Exclusive(s) && TransactionsWrite(s) }

  lemma TransactionsWriteAfter(s: System, m: Move)
    requires TransactionsWrite(s) && CanMove(s, m)
    ensures TransactionsWrite(After(s, m))
  {
    hide Queue;
    var s' := After(s, m);
    forall i | 0 <= i < |s'.tasks| && s'.tasks[i].kind.Transaction? ensures OnlyWrites(s'.tasks[i]) {
      if i < |s.tasks| && s'.tasks[i].rest != s.tasks[i].rest {
        assert OnlyWrites(s.tasks[i]);
        var rest := s'.tasks[i].rest;
        assert forall k :: 0 <= k < |rest| ==> rest[k] == s.tasks[i].rest[k + 1];
      }
    }
  }

  lemma TasksSoundAfter(s: System, m: Move)
    requires TasksSound(s) && CanMove(s, m)
    ensures TasksSound(After(s, m))
  {
    hide Program, Queue, SoundStep, HeldAfter, Admits;
    if m.Spawn? { ProgramsSound(m.kind); }
  }

  lemma ExclusiveAfter(s: System, m: Move)
    requires Exclusive(s) && CanMove(s, m)
    ensures Exclusive(After(s, m))
  {
    hide Program, Queue;
  }

  lemma QueuesOkSpawn(s: System, k: Kind)
    requires QueuesOk(s) && CanMove(s, Spawn(k))
    ensures QueuesOk(After(s, Spawn(k)))
  {
    hide Program;
    var s' := After(s, Spawn(k));
    assert forall l :: Queue(s', l) == Queue(s, l);
    assert forall i :: 0 <= i < |s.tasks| ==> s'.tasks[i] == s.tasks[i];
  }

  lemma QueuesOkRequest(s: System, i: nat)
    requires QueuesOk(s) && CanMove(s, Request(i))
    ensures QueuesOk(After(s, Request(i)))
  {
    var s', want := After(s, Request(i)), s.tasks[i].rest[0].lock;
    assert forall l :: Queue(s', l) == if l == want then Queue(s, l) + [i] else Queue(s, l);
    assert i !in Queue(s, want);
    forall l, p | 0 <= p < |Queue(s', l)| ensures Waiting(s', Queue(s', l)[p], l) {
      if p < |Queue(s, l)| { assert Waiting(s, Queue(s, l)[p], l); }
    }
    forall l, p, q | 0 <= p < q < |Queue(s', l)| ensures Queue(s', l)[p] != Queue(s', l)[q] {
      if q == |Queue(s, l)| { assert Queue(s, l)[p] in Queue(s, l); }
    }
  }

  lemma QueuesOkGrant(s: System, i: nat)
    requires QueuesOk(s) && CanMove(s, Grant(i))
    ensures QueuesOk(After(s, Grant(i)))
  {
    hide Admits;
    var s', got := After(s, Grant(i)), s.tasks[i].rest[0].lock;
    assert forall l :: Queue(s', l) == if l == got then Queue(s, l)[1..] else Queue(s, l);
    forall l, p | 0 <= p < |Queue(s', l)| ensures Waiting(s', Queue(s', l)[p], l) {
      var q := if l == got then p + 1 else p;
      assert Queue(s', l)[p] == Queue(s, l)[q] && Waiting(s, Queue(s, l)[q], l);
      assert Queue(s, l)[q] != i;
    }
    forall j | 0 <= j < |s'.tasks| && s'.tasks[j].queued
      ensures WantsLock(s'.tasks[j]) && j in Queue(s', s'.tasks[j].rest[0].lock)
    {
      var l := s.tasks[j].rest[0].lock;
      var p :| 0 <= p < |Queue(s, l)| && Queue(s, l)[p] == j;
      if l == got { assert Queue(s', l)[p - 1] == j; }
    }
  }

  lemma QueuesOkGo(s: System, i: nat)
    requires QueuesOk(s) && CanMove(s, Go(i))
    ensures QueuesOk(After(s, Go(i)))
  {
    var s' := After(s, Go(i));
    assert forall l :: Queue(s', l) == Queue(s, l);
    forall l, p | 0 <= p < |Queue(s', l)| ensures Waiting(s', Queue(s', l)[p], l) {
      assert Waiting(s, Queue(s, l)[p], l);
    }
  }

  lemma InvAfter(s: System, m: Move)
    requires Inv(s) && CanMove(s, m)
    ensures Inv(After(s, m))
  {
    hide TasksSound, QueuesOk, Exclusive, TransactionsWrite, After, Admits;
    TasksSoundAfter(s, m);
    ExclusiveAfter(s, m);
    TransactionsWriteAfter(s, m);
    match m
    case Spawn(k) => QueuesOkSpawn(s, k);
    case Request(i) => QueuesOkRequest(s, i);
    case Grant(i) => QueuesOkGrant(s, i);
    case Go(i) => QueuesOkGo(s, i);
  }

  lemma {:induction false} InvAlways(s: System, moves: seq<Move>)
    requires Inv(s) && LegalMoves(s, moves)
    ensures Inv(Reached(s, moves))
    decreases |moves|
  {
    hide Inv, CanMove, After;
    if moves != [] {
      InvAfter(s, moves[0]);
      InvAlways(After(s, moves[0]), moves[1..]);
    }
  }

  // ---------------------------------------------------------------- no cyclic wait

  /** `j` keeps `i` waiting: it holds the lock in a conflicting way, or it is ahead in the queue. */
  ghost predicate Blocks(s: System, j: nat, i: nat, l: Lock) {
    || (j < |s.tasks| && l in s.tasks[j].held)
    || (exists p, q :: 0 <= p < q < |Queue(s, l)| && Queue(s, l)[p] == j && Queue(s, l)[q] == i)
  }

  /** A set of waiting tasks each of which is blocked by a member of the set. */
  ghost predicate CyclicWait(s: System, tasks: set<nat>) {
    tasks != {} && forall i :: i in tasks ==> StuckIn(s, i, tasks)
  }

  ghost predicate StuckIn(s: System, i: nat, tasks: set<nat>) {
    exists j, l :: j in tasks && Waiting(s, i, l) && Blocks(s, j, i, l)
  }

  ghost predicate IsHighest(s: System, tasks: set<nat>, i: nat, l: Lock) {
    i in tasks && Waiting(s, i, l) && forall j, k | j in tasks :: Waiting(s, j, k) ==> Rank(k) <= Rank(l)
  }

  lemma {:induction false} HighestWaiter(s: System, tasks: set<nat>) returns (i: nat, l: Lock)
    requires tasks != {} && forall i :: i in tasks ==> exists l :: Waiting(s, i, l)
    ensures IsHighest(s, tasks, i, l)
    decreases |tasks|
  {
    i :| i in tasks;
    l :| Waiting(s, i, l);
    var others := tasks - {i};
    if others != {} {
      var j, k := HighestWaiter(s, others);
      if Rank(k) > Rank(l) { i, l := j, k; }
      forall m, k' | m in tasks && Waiting(s, m, k') ensures Rank(k') <= Rank(l) {
        assert m in others || m !in others;
      }
    }
  }

  /** The first member of `tasks` in a queue. */
  lemma {:induction false} FirstInQueue(queue: seq<nat>, tasks: set<nat>, i: nat) returns (p: nat)
    requires i in queue && i in tasks
    ensures p < |queue| && queue[p] in tasks && forall q :: 0 <= q < p ==> queue[q] !in tasks
    decreases |queue|
  {
    if queue[0] in tasks {
      p := 0;
    } else {
      p := FirstInQueue(queue[1..], tasks, i);
      p := p + 1;
    }
  }

  lemma NoCycle(s: System, tasks: set<nat>)
    requires Inv(s)
    ensures !CyclicWait(s, tasks)
  {
    hide Inv, Blocks, Waiting, Queue;
    if CyclicWait(s, tasks) {
      var i0, l := HighestWaiter(s, tasks);
      WaiterIsQueued(s, i0, l);
      var p := FirstInQueue(Queue(s, l), tasks, i0);
      var i := Queue(s, l)[p];
      assert StuckIn(s, i, tasks);
      var j, k :| j in tasks && Waiting(s, i, k) && Blocks(s, j, i, k);
      QueuedIsWaiter(s, p, l, k);
      assert StuckIn(s, j, tasks);
      NotBlocked(s, tasks, i, j, l, p);
    }
  }

  lemma WaiterIsQueued(s: System, i: nat, l: Lock)
    requires Inv(s) && Waiting(s, i, l)
    ensures i in Queue(s, l)
  {
    hide Sound;
  }

  lemma QueuedIsWaiter(s: System, p: nat, l: Lock, k: Lock)
    requires Inv(s) && p < |Queue(s, l)| && Waiting(s, Queue(s, l)[p], k)
    ensures k == l
  {
    hide Sound;
    assert Waiting(s, Queue(s, l)[p], l);
  }

  lemma NotBlocked(s: System, tasks: set<nat>, i: nat, j: nat, l: Lock, p: nat)
    requires Inv(s) && p < |Queue(s, l)| && Queue(s, l)[p] == i
    requires forall q :: 0 <= q < p ==> Queue(s, l)[q] !in tasks
    requires j in tasks && exists k :: Waiting(s, j, k) && Rank(k) <= Rank(l)
    ensures !Blocks(s, j, i, l)
  {
    var k :| Waiting(s, j, k) && Rank(k) <= Rank(l);
    assert Sound(s.tasks[j].held, s.tasks[j].rest);
    forall q, r | 0 <= q < r < |Queue(s, l)| && Queue(s, l)[r] == i ensures Queue(s, l)[q] != j {
      assert r == p;
    }
  }

  // ---------------------------------------------------------------- main results

  lemma Reachable(moves: seq<Move>)
    requires LegalMoves(EMPTY, moves)
    ensures Inv(Reached(EMPTY, moves))
  {
    hide Sound;
    InvAlways(EMPTY, moves);
  }

  /** Whatever tasks are started and however they interleave, no set of tasks waits in a circle, and a
      writer never shares its lock. */
  lemma NoDeadlock(moves: seq<Move>, tasks: set<nat>)
    requires LegalMoves(EMPTY, moves)
    ensures !CyclicWait(Reached(EMPTY, moves), tasks)
    ensures Exclusive(Reached(EMPTY, moves))
  {
    hide CyclicWait, TasksSound, QueuesOk, Exclusive, TransactionsWrite;
    Reachable(moves);
    NoCycle(Reached(EMPTY, moves), tasks);
  }

  /** In every reachable state a task that is about to change a thing holds its guard for writing and no other
      task holds that guard at all; a task that is about to read it holds the guard, and no other task holds it
      for writing. */
  lemma WorkIsGuarded(moves: seq<Move>, i: nat, j: nat)
    requires LegalMoves(EMPTY, moves)
    requires i < |Reached(EMPTY, moves).tasks| && j < |Reached(EMPTY, moves).tasks| && i != j
    requires var t := Reached(EMPTY, moves).tasks[i]; t.rest != [] && t.rest[0].Use?
    ensures var t, u := Reached(EMPTY, moves).tasks[i], Reached(EMPTY, moves).tasks[j];
            var guard := Guard(t.rest[0].thing);
            && guard in t.held
            && (t.rest[0].mode == Write ==> t.held[guard] == Write && guard !in u.held)
            && (guard in u.held ==> u.held[guard] == Read)
  {
    hide LegalMoves, Reached, QueuesOk, TransactionsWrite;
    Reachable(moves);
    var s := Reached(EMPTY, moves);
    assert Sound(s.tasks[i].held, s.tasks[i].rest);
    GuardedAlone(s, i, j, Guard(s.tasks[i].rest[0].thing));
  }

  lemma GuardedAlone(s: System, i: nat, j: nat, l: Lock)
    requires Exclusive(s) && i < |s.tasks| && j < |s.tasks| && i != j && l in s.tasks[i].held
    ensures l in s.tasks[j].held ==> s.tasks[i].held[l] == Read && s.tasks[j].held[l] == Read
  {
  }

  /** So no two tasks are ever at work on one thing while one of them changes it. */
  lemma NoRace(moves: seq<Move>, i: nat, j: nat)
    requires LegalMoves(EMPTY, moves)
    requires i < |Reached(EMPTY, moves).tasks| && j < |Reached(EMPTY, moves).tasks| && i != j
    ensures var t, u := Reached(EMPTY, moves).tasks[i], Reached(EMPTY, moves).tasks[j];
            t.rest != [] && t.rest[0].Use? && u.rest != [] && u.rest[0].Use? && t.rest[0].thing == u.rest[0].thing ==>
            t.rest[0].mode == Read && u.rest[0].mode == Read
  {
    hide LegalMoves, Reached;
    var t, u := Reached(EMPTY, moves).tasks[i], Reached(EMPTY, moves).tasks[j];
    if t.rest != [] && t.rest[0].Use? && u.rest != [] && u.rest[0].Use? && t.rest[0].thing == u.rest[0].thing {
      WorkIsGuarded(moves, i, j);
      WorkIsGuarded(moves, j, i);
    }
  }

  /** A transaction that holds the data lock is alone with the data: no lookup, scan, flush or other transaction
      holds it; and the same for the log. */
  lemma TransactionsExclude(moves: seq<Move>, i: nat, j: nat, l: Lock)
    requires LegalMoves(EMPTY, moves)
    requires i < |Reached(EMPTY, moves).tasks| && j < |Reached(EMPTY, moves).tasks| && i != j
    requires Reached(EMPTY, moves).tasks[i].kind.Transaction? && l in Reached(EMPTY, moves).tasks[i].held
    ensures l !in Reached(EMPTY, moves).tasks[j].held
  {
    hide LegalMoves, Reached, QueuesOk, TasksSound;
    Reachable(moves);
    assert OnlyWrites(Reached(EMPTY, moves).tasks[i]);
    GuardedAlone(Reached(EMPTY, moves), i, j, l);
  }

  /** A task has done the first steps of its program and has the others left. */
  predicate OnItsWay(t: Task) {
    |t.rest| <= |Program(t.kind)| && t.rest == Program(t.kind)[|Program(t.kind)| - |t.rest|..]
  }

  lemma OnItsWayFurther(t: Task, t': Task)
    requires OnItsWay(t) && t.rest != [] && t'.kind == t.kind && t'.rest == t.rest[1..]
    ensures OnItsWay(t')
  {
    hide Program;
    var p := Program(t.kind);
    assert t.rest[1..] == p[|p| - |t.rest| + 1..];
  }

  lemma OnItsWayStill(t: Task, t': Task)
    requires OnItsWay(t) && t'.kind == t.kind && t'.rest == t.rest
    ensures OnItsWay(t')
  {
    hide Program;
  }

  lemma OnItsWayFirst(k: Kind)
    ensures OnItsWay(Task(k, map[], Program(k), false))
  {
    hide Program;
  }

  lemma OnItsWayAfter(s: System, m: Move)
    requires CanMove(s, m) && forall i :: 0 <= i < |s.tasks| ==> OnItsWay(s.tasks[i])
    ensures forall i :: 0 <= i < |After(s, m).tasks| ==> OnItsWay(After(s, m).tasks[i])
  {
    hide Program, Queue, HeldAfter, Admits, OnItsWay;
    var s' := After(s, m);
    forall i | 0 <= i < |s'.tasks| ensures OnItsWay(s'.tasks[i]) {
      if i == |s.tasks| {
        OnItsWayFirst(m.kind);
      } else if s'.tasks[i].rest == s.tasks[i].rest {
        OnItsWayStill(s.tasks[i], s'.tasks[i]);
      } else {
        OnItsWayFurther(s.tasks[i], s'.tasks[i]);
      }
    }
  }

  lemma {:induction false} OnItsWayAlways(s: System, moves: seq<Move>)
    requires LegalMoves(s, moves) && forall i :: 0 <= i < |s.tasks| ==> OnItsWay(s.tasks[i])
    ensures forall i :: 0 <= i < |Reached(s, moves).tasks| ==> OnItsWay(Reached(s, moves).tasks[i])
    decreases |moves|
  {
    hide OnItsWay;
    if moves != [] {
      OnItsWayAfter(s, moves[0]);
      OnItsWayAlways(After(s, moves[0]), moves[1..]);
    }
  }

  /** A thing that is still to be changed, with its guard not to be taken again before, is guarded already. */
  lemma {:induction false} StillGuarded(held: map<Lock, Mode>, rest: seq<Step>, x: Thing, n: nat)
    requires Sound(held, rest) && n < |rest| && rest[n] == Use(x, Write)
    requires forall k :: 0 <= k < n ==> !(rest[k].Acquire? && rest[k].lock == Guard(x))
    ensures Guard(x) in held && held[Guard(x)] == Write
    decreases n
  {
    if n > 0 { StillGuarded(HeldAfter(held, rest[0]), rest[1..], x, n - 1); }
  }

  predicate TakesData(step: Step) { step.Acquire? && step.lock == DataLock }

  /** Changing anything but the shutdown flag. */
  predicate Changes(step: Step) { step.Use? && step.mode == Write && step.thing != ShutdownFlag }

  /** A tick or a shutdown that flushes is some steps, the flush, and some more that leave the data alone. */
  lemma FlushInside(k: Kind) returns (before: seq<Step>, after: seq<Step>)
    requires k == TickAndFlush(Done) || k == Shutdown(Done)
    ensures Program(k) == before + (FLUSH + after)
    ensures forall n :: 0 <= n < |after| ==> !TakesData(after[n])
    ensures |before| == (if k.Shutdown? then 3 else 6) && |after| == (if k.Shutdown? then 5 else 0)
    ensures forall step :: step in before || step in after ==> !Changes(step)
    ensures k.Shutdown? ==> after[1] == Use(Index, Read)
  {
    if k == TickAndFlush(Done) {
      before, after := SEE_FLAG + LOOKUP_IN_MEMORY, [];
      assert FLUSH + [] == FLUSH;
    } else {
      var first := [Acquire(StateLock, Write)] + [Use(ShutdownFlag, Write)];
      before := [Acquire(ShutdownReceiver, Write)] + first;
      after := SAVE_INDEX + [Release(StateLock)] + [Release(ShutdownReceiver)];
      ShutdownIs(FLUSH);
    }
  }

  lemma ShutdownIs(flush: seq<Step>)
    ensures Around(ShutdownReceiver, [], Around(StateLock, [Use(ShutdownFlag, Write)], flush + SAVE_INDEX))
         == [Acquire(ShutdownReceiver, Write)] + ([Acquire(StateLock, Write)] + [Use(ShutdownFlag, Write)])
            + (flush + (SAVE_INDEX + [Release(StateLock)] + [Release(ShutdownReceiver)]))
  {
  }

  lemma DataTakenOnce(k: Kind) returns (at: nat)
    requires k == TickAndFlush(Done) || k == Shutdown(Done)
    ensures at < |Program(k)| && Program(k)[at] == Use(TableFiles, Write)
    ensures forall n :: at < n < |Program(k)| ==> !TakesData(Program(k)[n])
  {
    hide Program;
    var before, after := FlushInside(k);
    at := |before| + 3;
    forall n | at < n < |Program(k)| ensures !TakesData(Program(k)[n]) {
      assert Program(k)[n] == (FLUSH + after)[n - |before|];
    }
  }

  lemma StillToCome(p: seq<Step>, rest: seq<Step>, at: nat)
    requires |rest| <= |p| && rest == p[|p| - |rest|..] && at < |p|
    ensures |p| - |rest| <= at ==> p[at] in rest
  {
    if |p| - |rest| <= at { assert rest[at - (|p| - |rest|)] == p[at]; }
  }

  /** From the moment its table file is written until it has dropped the transaction ids, a flush is alone with the
      data: no lookup, scan or transaction sees a half-made flush. */
  lemma FlushIsAtomic(moves: seq<Move>, i: nat, j: nat)
    requires LegalMoves(EMPTY, moves)
    requires i < |Reached(EMPTY, moves).tasks| && j < |Reached(EMPTY, moves).tasks| && i != j
    requires var t := Reached(EMPTY, moves).tasks[i];
             && (t.kind == TickAndFlush(Done) || t.kind == Shutdown(Done))
             && Use(TableFiles, Write) !in t.rest && Use(Memtable, Write) in t.rest
    ensures DataLock in Reached(EMPTY, moves).tasks[i].held
    ensures DataLock !in Reached(EMPTY, moves).tasks[j].held
  {
    hide LegalMoves, Reached, QueuesOk, TransactionsWrite, Program;
    Reachable(moves);
    OnItsWayAlways(EMPTY, moves);
    var s := Reached(EMPTY, moves);
    var t := s.tasks[i];
    assert OnItsWay(t);
    var at := DataTakenOnce(t.kind);
    StillToCome(Program(t.kind), t.rest, at);
    assert forall n :: 0 <= n < |t.rest| ==> !TakesData(t.rest[n]);
    var n :| 0 <= n < |t.rest| && t.rest[n] == Use(Memtable, Write);
    StillGuarded(t.held, t.rest, Memtable, n);
    GuardedAlone(s, i, j, DataLock);
  }

  /** As long as some task has steps left, some task can take one. */
  lemma SomeTaskCanMove(moves: seq<Move>, i: nat)
    requires LegalMoves(EMPTY, moves)
    requires i < |Reached(EMPTY, moves).tasks| && Reached(EMPTY, moves).tasks[i].rest != []
    ensures exists m: Move :: !m.Spawn? && CanMove(Reached(EMPTY, moves), m)
  {
    hide Inv;
    Reachable(moves);
    InvCanMove(Reached(EMPTY, moves), i);
  }

  lemma InvCanMove(s: System, i: nat)
    requires Inv(s) && i < |s.tasks| && s.tasks[i].rest != []
    ensures exists m: Move :: !m.Spawn? && CanMove(s, m)
  {
    hide StuckIn, Sound;
    var unfinished := set j | 0 <= j < |s.tasks| && s.tasks[j].rest != [];
    if !exists m: Move :: !m.Spawn? && CanMove(s, m) {
      forall j | j in unfinished ensures StuckIn(s, j, unfinished) { Stuck(s, j, unfinished); }
      assert i in unfinished;
      NoCycle(s, unfinished);
    }
  }

  lemma Stuck(s: System, i: nat, unfinished: set<nat>)
    requires Inv(s) && i in unfinished
    requires forall j :: j in unfinished <==> 0 <= j < |s.tasks| && s.tasks[j].rest != []
    requires forall m :: CanMove(s, m) ==> m.Spawn?
    ensures StuckIn(s, i, unfinished)
  {
    var t := s.tasks[i];
    assert !CanMove(s, Go(i)) && !CanMove(s, Request(i));
    var l, mode := t.rest[0].lock, t.rest[0].mode;
    assert Waiting(s, i, l);
    var q :| 0 <= q < |Queue(s, l)| && Queue(s, l)[q] == i;
    if q == 0 {
      assert !CanMove(s, Grant(i));
      var j :| 0 <= j < |s.tasks| && j != i && l in s.tasks[j].held && !(mode == Read && s.tasks[j].held[l] == Read);
      assert Sound(s.tasks[j].held, s.tasks[j].rest);
      assert j in unfinished && Blocks(s, j, i, l);
    } else {
      var j := Queue(s, l)[0];
      assert Waiting(s, j, l);
      assert j in unfinished && Blocks(s, j, i, l);
    }
  }

  // ---------------------------------------------------------------- every task ends

  /** What a task has left: two units for each step, one less when it is in a queue already. */
  function Load(t: Task): nat {
    if t.rest == [] then 0 else 2 * |t.rest| - (if t.queued then 1 else 0)
  }

  function TotalLoad(tasks: seq<Task>): nat {
    if tasks == [] then 0 else TotalLoad(tasks[..|tasks| - 1]) + Load(tasks[|tasks| - 1])
  }

  lemma {:induction false} TotalLoadUpdate(tasks: seq<Task>, i: nat, t: Task)
    requires i < |tasks|
    ensures TotalLoad(tasks[i := t]) == TotalLoad(tasks) - Load(tasks[i]) + Load(t)
  {
    hide Load;
    var n := |tasks| - 1;
    if i == n {
      assert tasks[i := t][..n] == tasks[..n];
    } else {
      assert tasks[i := t][..n] == tasks[..n][i := t];
      TotalLoadUpdate(tasks[..n], i, t);
    }
  }

  /** A move that starts no task uses up some of what is left. */
  lemma LoadShrinks(s: System, m: Move)
    requires CanMove(s, m) && !m.Spawn?
    ensures TotalLoad(After(s, m).tasks) < TotalLoad(s.tasks)
  {
    hide Queue, Admits, HeldAfter, TotalLoad;
    var s' := After(s, m);
    assert s'.tasks == s.tasks[m.i := s'.tasks[m.i]];
    TotalLoadUpdate(s.tasks, m.i, s'.tasks[m.i]);
  }

  /** Once no new task starts, a run has no more moves than the tasks have left. */
  lemma {:induction false} RunsAreShort(s: System, moves: seq<Move>)
    requires LegalMoves(s, moves) && forall k :: 0 <= k < |moves| ==> !moves[k].Spawn?
    ensures |moves| <= TotalLoad(s.tasks)
    decreases |moves|
  {
    hide CanMove, After, TotalLoad;
    if moves != [] {
      LoadShrinks(s, moves[0]);
      RunsAreShort(After(s, moves[0]), moves[1..]);
    }
  }

  predicate AllDone(s: System) {
    forall i :: 0 <= i < |s.tasks| ==> s.tasks[i].rest == [] && s.tasks[i].held == map[]
  }

  lemma {:induction false} MovesAppend(s: System, a: seq<Move>, b: seq<Move>)
    requires LegalMoves(s, a) && LegalMoves(Reached(s, a), b)
    ensures LegalMoves(s, a + b) && Reached(s, a + b) == Reached(Reached(s, a), b)
    decreases |a|
  {
    hide CanMove, After;
    if a == [] {
      assert a + b == b;
    } else {
      MovesAppend(After(s, a[0]), a[1..], b);
      assert (a + b)[1..] == a[1..] + b;
    }
  }

  /** Whatever has been started and wherever the tasks stand: once no new task starts, every run is finite, and one that
      cannot go on has let every task finish, with no lock held. */
  lemma EveryRunFinishes(before: seq<Move>, moves: seq<Move>)
    requires LegalMoves(EMPTY, before) && LegalMoves(Reached(EMPTY, before), moves)
    requires forall k :: 0 <= k < |moves| ==> !moves[k].Spawn?
    ensures |moves| <= TotalLoad(Reached(EMPTY, before).tasks)
    ensures var s := Reached(Reached(EMPTY, before), moves);
            (forall m :: CanMove(s, m) ==> m.Spawn?) ==> AllDone(s)
  {
    hide CanMove, After, TotalLoad, QueuesOk, Exclusive, TransactionsWrite, LegalMoves, Reached;
    RunsAreShort(Reached(EMPTY, before), moves);
    MovesAppend(EMPTY, before, moves);
    Reachable(before + moves);
    var s := Reached(EMPTY, before + moves);
    if forall m :: CanMove(s, m) ==> m.Spawn? {
      forall i | 0 <= i < |s.tasks| ensures s.tasks[i].rest == [] && s.tasks[i].held == map[] {
        if s.tasks[i].rest != [] {
          SomeTaskCanMove(before + moves, i);
        } else {
          assert Sound(s.tasks[i].held, s.tasks[i].rest);
        }
      }
    }
  }

  lemma MovesFirst(s: System, m: Move, rest: seq<Move>)
    requires CanMove(s, m) && LegalMoves(After(s, m), rest)
    ensures LegalMoves(s, [m] + rest) && Reached(s, [m] + rest) == Reached(After(s, m), rest)
  {
    hide CanMove, After;
    assert ([m] + rest)[1..] == rest;
  }

  lemma {:induction false} CanDrain(before: seq<Move>) returns (more: seq<Move>)
    requires LegalMoves(EMPTY, before)
    ensures LegalMoves(Reached(EMPTY, before), more) && forall k :: 0 <= k < |more| ==> !more[k].Spawn?
    ensures AllDone(Reached(Reached(EMPTY, before), more))
    decreases TotalLoad(Reached(EMPTY, before).tasks)
  {
    hide CanMove, After, TotalLoad, AllDone, LegalMoves, Reached;
    var s := Reached(EMPTY, before);
    StaysPut(s);
    if m: Move :| !m.Spawn? && CanMove(s, m) {
      LoadShrinks(s, m);
      StaysPut(After(s, m));
      MovesFirst(s, m, []);
      assert [m] + [] == [m];
      MovesAppend(EMPTY, before, [m]);
      var rest := CanDrain(before + [m]);
      MovesFirst(s, m, rest);
      more := [m] + rest;
    } else {
      more := [];
      EveryRunFinishes(before, []);
    }
  }

  lemma StaysPut(s: System)
    ensures LegalMoves(s, []) && Reached(s, []) == s
  {
  }

  /** In every reachable state a task of any kind can start, and the tasks can then go on so that all of them
      finish. */
  lemma EveryKindGetsThrough(before: seq<Move>, k: Kind)
    requires LegalMoves(EMPTY, before) && !k.Replay?
    ensures exists more: seq<Move> ::
              && LegalMoves(Reached(EMPTY, before), [Spawn(k)] + more)
              && (forall i :: 0 <= i < |more| ==> !more[i].Spawn?)
              && AllDone(Reached(Reached(EMPTY, before), [Spawn(k)] + more))
  {
    hide After, AllDone, LegalMoves, Reached;
    var s := Reached(EMPTY, before);
    StaysPut(After(s, Spawn(k)));
    MovesFirst(s, Spawn(k), []);
    assert [Spawn(k)] + [] == [Spawn(k)];
    MovesAppend(EMPTY, before, [Spawn(k)]);
    var more := CanDrain(before + [Spawn(k)]);
    MovesFirst(s, Spawn(k), more);
  }

  // ---------------------------------------------------------------- why replay comes first

  const REPLAYER := Task(Replay, map[], REPLAY, false)

  const FLUSHER := Task(TickAndFlush(Done), map[], FLUSH, false)

  /** A replay before its first step beside a background task that is about to flush. */
  const BESIDE_A_FLUSH := System([REPLAYER, FLUSHER], map[])

  /** The replay takes the log; the flush takes data and bloom map, works, and asks for the log; the replay asks
      for the data. */
  const MOVES_INTO_THE_CIRCLE: seq<Move> :=
    [Request(0), Grant(0), Go(0), Request(1), Grant(1), Go(1), Request(1), Grant(1), Go(1), Go(1), Go(1),
     Request(0), Request(1)]

  /** The replay with the log, ready for the data. */
  const LOGGED := Task(Replay, map[CommitLogLock := Read], REPLAY[2..], false)

  /** The flush with both its locks, ready for the log. */
  const FLUSHED := Task(TickAndFlush(Done), map[DataLock := Write, BloomMapLock := Write], FLUSH[6..], false)

  const HALFWAY := System([LOGGED, FLUSHED], map[CommitLogLock := [], DataLock := [], BloomMapLock := []])

  const CIRCLE := System([LOGGED.(queued := true), FLUSHED.(queued := true)],
                         map[CommitLogLock := [1], DataLock := [0], BloomMapLock := []])

  lemma MoveAt(s: System, s': System, k: nat)
    requires k < |MOVES_INTO_THE_CIRCLE| && CanMove(s, MOVES_INTO_THE_CIRCLE[k])
    requires Same(After(s, MOVES_INTO_THE_CIRCLE[k]), s') && Leads(s', k + 1)
    ensures Leads(s, k)
  {
    hide CanMove, After;
    SameSystem(After(s, MOVES_INTO_THE_CIRCLE[k]), s');
    assert MOVES_INTO_THE_CIRCLE[k..][1..] == MOVES_INTO_THE_CIRCLE[k + 1..];
  }

  /** From the `k`-th move on the moves lead into the circle. */
  predicate Leads(s: System, k: nat)
    requires k <= |MOVES_INTO_THE_CIRCLE|
  {
    LegalMoves(s, MOVES_INTO_THE_CIRCLE[k..]) && Reached(s, MOVES_INTO_THE_CIRCLE[k..]) == CIRCLE
  }

  predicate Same(s: System, s': System) {
    && |s.tasks| == |s'.tasks| && (forall i :: 0 <= i < |s.tasks| ==> s.tasks[i] == s'.tasks[i])
    && s.queues.Keys == s'.queues.Keys && forall l :: l in s.queues ==> s.queues[l] == s'.queues[l]
  }

  lemma SameSystem(s: System, s': System)
    requires Same(s, s')
    ensures s == s'
  {
    assert s.tasks == s'.tasks && s.queues == s'.queues;
  }

  lemma AtTheEnd()
    ensures Leads(CIRCLE, 13)
  {
    assert MOVES_INTO_THE_CIRCLE[13..] == [];
  }

  const ONE_WAITS := System([LOGGED.(queued := true), FLUSHED],
                            map[CommitLogLock := [], DataLock := [0], BloomMapLock := []])

  lemma BothWait()
    ensures Leads(ONE_WAITS, 12)
  {
    hide Leads;
    AtTheEnd();
    MoveAt(ONE_WAITS, CIRCLE, 12);
  }

  lemma IntoTheCircle()
    ensures Leads(HALFWAY, 11)
  {
    hide Leads;
    BothWait();
    MoveAt(HALFWAY, ONE_WAITS, 11);
  }

  /** The flush has the data lock and the bloom map. */
  function Flushing(k: nat): System
    requires k <= 6
  {
    System([LOGGED, Task(TickAndFlush(Done), FLUSHED.held, FLUSH[k..], false)],
           map[CommitLogLock := [], DataLock := [], BloomMapLock := []])
  }

  lemma FlushWorks()
    ensures Leads(Flushing(3), 8)
  {
    hide Leads;
    IntoTheCircle();
    MoveAt(Flushing(5), HALFWAY, 10);
    MoveAt(Flushing(4), Flushing(5), 9);
    MoveAt(Flushing(3), Flushing(4), 8);
  }

  const FIRST_LOCK := Task(TickAndFlush(Done), map[DataLock := Write], FLUSH[1..], false)

  const LOOKED := FIRST_LOCK.(rest := FLUSH[2..])

  const NO_QUEUES: map<Lock, seq<nat>> := map[CommitLogLock := [], DataLock := []]

  const SECOND_WAITS := System([LOGGED, LOOKED.(queued := true)], NO_QUEUES[BloomMapLock := [1]])

  lemma FlushGetsSecond()
    ensures Leads(SECOND_WAITS, 7)
  {
    hide Leads;
    FlushWorks();
    MoveAt(SECOND_WAITS, Flushing(3), 7);
  }

  lemma FlushTakesSecond()
    ensures Leads(System([LOGGED, LOOKED], NO_QUEUES), 6)
  {
    hide Leads;
    FlushGetsSecond();
    MoveAt(System([LOGGED, LOOKED], NO_QUEUES), SECOND_WAITS, 6);
  }

  lemma FlushLooks()
    ensures Leads(System([LOGGED, FIRST_LOCK], NO_QUEUES), 5)
  {
    hide Leads;
    FlushTakesSecond();
    MoveAt(System([LOGGED, FIRST_LOCK], NO_QUEUES), System([LOGGED, LOOKED], NO_QUEUES), 5);
  }

  lemma FlushTakesFirst()
    ensures Leads(System([LOGGED, FLUSHER], map[CommitLogLock := []]), 3)
  {
    hide Leads;
    FlushLooks();
    var s := System([LOGGED, FLUSHER.(queued := true)], map[CommitLogLock := [], DataLock := [1]]);
    MoveAt(s, System([LOGGED, FIRST_LOCK], NO_QUEUES), 4);
    MoveAt(System([LOGGED, FLUSHER], map[CommitLogLock := []]), s, 3);
  }

  lemma ReachesTheCircle()
    ensures Leads(BESIDE_A_FLUSH, 0)
  {
    hide Leads;
    FlushTakesFirst();
    var r := Task(Replay, map[CommitLogLock := Read], REPLAY[1..], false);
    var s1 := System([REPLAYER.(queued := true), FLUSHER], map[CommitLogLock := [0]]);
    var s2 := System([r, FLUSHER], map[CommitLogLock := []]);
    MoveAt(s2, System([LOGGED, FLUSHER], map[CommitLogLock := []]), 2);
    MoveAt(s1, s2, 1);
    MoveAt(BESIDE_A_FLUSH, s1, 0);
  }

  /** The replay of `initialize` takes the locks the other way round. Started next to a flush, the two can come
      to wait in a circle, so it must be over before the tasks start, as it is. */
  lemma ReplayMustComeFirst()
    ensures !Sound(map[], Program(Replay))
    ensures LegalMoves(BESIDE_A_FLUSH, MOVES_INTO_THE_CIRCLE)
    ensures CyclicWait(Reached(BESIDE_A_FLUSH, MOVES_INTO_THE_CIRCLE), {0, 1})
  {
    hide LegalMoves, Reached;
    ReachesTheCircle();
    assert MOVES_INTO_THE_CIRCLE[0..] == MOVES_INTO_THE_CIRCLE;
    var held: map<Lock, Mode> := map[CommitLogLock := Read];
    assert !Sound(held, REPLAY[2..]) by { assert CommitLogLock in held; }
    assert REPLAY[1..][1..] == REPLAY[2..];
    assert !Sound(held, REPLAY[1..]);
    assert HeldAfter(map[], REPLAY[0]) == held;
    assert Waiting(CIRCLE, 0, DataLock) && Blocks(CIRCLE, 1, 0, DataLock);
    assert Waiting(CIRCLE, 1, CommitLogLock) && Blocks(CIRCLE, 0, 1, CommitLogLock);
  }
}
