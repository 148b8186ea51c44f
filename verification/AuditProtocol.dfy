/**
 Many threads of any number of processes appending to the log of one run. Every access to shared state is a step of
 its own: looking up the lock under the guard, taking it, deciding on a rotation, reading the head, renaming, writing,
 leaving. The files are shared by all processes; the registry of locks is each process's own. A run is any list of
 steps of any threads; a step that is not enabled changes nothing.
 */
module AuditProtocol {
  import opened Basics
  import opened AuditRows
  import opened AuditLog

  type ThreadId = nat
  type ProcessId = nat
  type LockId = nat

  /** The digest, the size of a file in bytes, the run whose log is written, and the process each thread belongs to. */
  datatype Env = Env(h: Hash, size: File -> nat, run: string, host: ThreadId -> ProcessId)

  /** Where a thread is in the append. */
  datatype Stage =
    | Idle
    | Called
    | Guarding
    | Looked(found: Option<LockId>)
    | Provided(lock: LockId)
    | HasLock(lock: LockId)
    | Inside(lock: LockId)
    | Choosing(lock: LockId, n: nat)
    | Measured(lock: LockId, n: nat, head: Head)
    | Renamed(lock: LockId, n: nat, head: Head)
    | Ready(lock: LockId)
    | Sealing(lock: LockId, head: Head)
    | Written(lock: LockId)

  datatype Thread = Thread(at: Stage, event: Payload, rotateBytes: int)

  /**
   The log. `written` lists the events in the order they were written; `cuts` are the numbers of the rotations that an
   error cut short after renaming the full file and before opening the next one.
   */
  datatype Files = Files(rotated: map<nat, File>, current: Option<File>, written: seq<Payload>, cuts: set<nat>)
  {
    /** The rows of the current file, none when it does not exist. */
    function Newest(): File {
      if current.Some? then current.value else []
    }
  }

  /**
   `table` is the lock registered for the file in each process, `guard` the holder of each registry's own lock, `owner`
   who holds which lock.
   */
  datatype Locks = Locks(
    table: map<ProcessId, LockId>, unused: LockId, guard: map<ProcessId, ThreadId>, owner: map<LockId, ThreadId>)
  {
    function Registered(p: ProcessId): Option<LockId> {
      if p in table then Some(table[p]) else None
    }
  }

  datatype State = State(files: Files, locks: Locks, threads: map<ThreadId, Thread>)

  datatype Step =
    | Call(t: ThreadId, event: Payload, rotateBytes: int, now: string)
    | EnterGuard(t: ThreadId)
    | LookUp(t: ThreadId)
    | Provide(t: ThreadId)
    | LeaveGuard(t: ThreadId)
    | Acquire(t: ThreadId)
    | Decide(t: ThreadId)
    | Measure(t: ThreadId)
    | Rename(t: ThreadId)
    | OpenNext(t: ThreadId, ts: string)
    | ReadHead(t: ThreadId)
    | Write(t: ThreadId)
    | Release(t: ThreadId)
    | Raise(t: ThreadId)

  const NOBODY := Thread(Idle, map[], 0)

  function ThreadOf(s: State, t: ThreadId): Thread {
    if t in s.threads then s.threads[t] else NOBODY
  }

  function StageOf(s: State, t: ThreadId): Stage {
    ThreadOf(s, t).at
  }

  /** The thread is between taking the file's lock and giving it back. */
  predicate Critical(at: Stage) {
    at.Inside? || at.Choosing? || at.Measured? || at.Renamed? || at.Ready? || at.Sealing? || at.Written?
  }

  predicate KnowsLock(at: Stage) {
    at.Provided? || at.HasLock? || Critical(at)
  }

  predicate HoldsGuard(at: Stage) {
    at.Guarding? || at.Looked? || at.Provided?
  }

  function TakenFrom(rotated: map<nat, File>, n: nat): set<nat> {
    set m | m in rotated && n <= m
  }

  /** The first number from `n` on that no rotated file has. */
  function FirstFreeFrom(rotated: map<nat, File>, n: nat): nat
    decreases TakenFrom(rotated, n)
  {
    if n in rotated then
      assert TakenFrom(rotated, n) == TakenFrom(rotated, n + 1) + {n};
      FirstFreeFrom(rotated, n + 1)
    else n
  }

  // ---------------------------------------------------------------- one step

  /** Steps that look up or take the lock. */
  predicate Registers(step: Step) {
    step.Call? || step.EnterGuard? || step.LookUp? || step.Provide? || step.LeaveGuard? || step.Acquire?
  }

  /** The way to the file's lock, of thread `me` in process `p`. */
  function NextLock(p: ProcessId, locks: Locks, me: Thread, step: Step): (Locks, Thread)
    requires Registers(step)
  {
    match step
    case Call(_, event, rotateBytes, now) =>
      (locks, if me.at.Idle? then Thread(Called, WithTimestamp(event, now), rotateBytes) else me)
    case EnterGuard(t) =>
      if me.at.Called? && p !in locks.guard
      then (locks.(guard := locks.guard[p := t]), me.(at := Guarding)) else (locks, me)
    case LookUp(_) =>
      (locks, if me.at.Guarding? then me.(at := Looked(locks.Registered(p))) else me)
    case Provide(_) =>
      if !me.at.Looked? then (locks, me)
      else if me.at.found.Some? then (locks, me.(at := Provided(me.at.found.value)))
      else
        (locks.(table := locks.table[p := locks.unused], unused := locks.unused + 1),
         me.(at := Provided(locks.unused)))
    case LeaveGuard(_) =>
      if me.at.Provided?
      then (locks.(guard := locks.guard - {p}), me.(at := HasLock(me.at.lock))) else (locks, me)
    case Acquire(t) =>
      if me.at.HasLock? && me.at.lock !in locks.owner
      then (locks.(owner := locks.owner[me.at.lock := t]), me.(at := Inside(me.at.lock))) else (locks, me)
  }

  /** What thread `me` does under the lock. It gives the lock back by becoming idle. */
  function NextFile(env: Env, files: Files, me: Thread, step: Step): (Files, Thread)
    requires !Registers(step)
  {
    match step
    case Decide(_) =>
      if !me.at.Inside? then (files, me)
      else if me.rotateBytes > 0 && files.current.Some? && env.size(files.current.value) >= me.rotateBytes
      then (files, me.(at := Choosing(me.at.lock, FirstFreeFrom(files.rotated, 1))))
      else (files, me.(at := Ready(me.at.lock)))
    case Measure(_) =>
      (files, if me.at.Choosing? then me.(at := Measured(me.at.lock, me.at.n, HeadOf(files.Newest()))) else me)
    case Rename(_) =>
      if me.at.Measured? && files.current.Some?
      then
        (files.(rotated := files.rotated[me.at.n := files.current.value], current := None),
         me.(at := Renamed(me.at.lock, me.at.n, me.at.head)))
      else (files, me)
    case OpenNext(_, ts) =>
      if me.at.Renamed?
      then
        var anchor := AnchorRow(env.h, env.run, me.at.n, me.at.head, ts);
        (files.(current := Some(files.Newest() + [Object(anchor)])), me.(at := Ready(me.at.lock)))
      else (files, me)
    case ReadHead(_) =>
      (files, if me.at.Ready? then me.(at := Sealing(me.at.lock, HeadOf(files.Newest()))) else me)
    case Write(_) =>
      if me.at.Sealing?
      then
        var row := NewRow(env.h, me.event, me.at.head);
        (files.(current := Some(files.Newest() + [Object(row)]), written := files.written + [me.event]),
         me.(at := Written(me.at.lock)))
      else (files, me)
    case Release(_) =>
      (files, if me.at.Written? then me.(at := Idle) else me)
    case Raise(_) =>
      // an error inside the critical section: what was done stays done
      if Critical(me.at)
      then (files.(cuts := if me.at.Renamed? then files.cuts + {me.at.n} else files.cuts), me.(at := Idle))
      else (files, me)
  }

  function Next(env: Env, s: State, step: Step): State {
    var t, me := step.t, ThreadOf(s, step.t);
    if Registers(step) then
      var (locks, now) := NextLock(env.host(t), s.locks, me, step);
      if now == me then s else s.(locks := locks, threads := s.threads[t := now])
    else
      var (files, now) := NextFile(env, s.files, me, step);
      if now == me then s else State(files, GivenBack(s.locks, me.at, now.at), s.threads[t := now])
  }

  /** The lock of a thread that leaves the critical section is free again. */
  function GivenBack(locks: Locks, was: Stage, now: Stage): Locks {
    if Critical(was) && now.Idle? then locks.(owner := locks.owner - {was.lock}) else locks
  }

  function Run(env: Env, s: State, steps: seq<Step>): State {
    if steps == [] then s else Next(env, Run(env, s, steps[..|steps| - 1]), steps[|steps| - 1])
  }

  /** No thread has started; the file is missing, or holds only rows from before chaining. */
  function Start(legacy: File): State {
    State(Files(map[], if legacy == [] then None else Some(legacy), [], {}), Locks(map[], 0, map[], map[]), map[])
  }

  lemma {:induction false} OtherThreadStays(env: Env, s: State, step: Step, u: ThreadId)
    requires u != step.t
    ensures ThreadOf(Next(env, s, step), u) == ThreadOf(s, u)
  {}

  /** A step seen from its own thread. */
  lemma {:induction false} OwnStep(env: Env, s: State, step: Step)
    ensures var s', me := Next(env, s, step), ThreadOf(s, step.t);
            if Registers(step) then
              && s'.files == s.files
              && (s'.locks, ThreadOf(s', step.t)) == NextLock(env.host(step.t), s.locks, me, step)
            else
              && (s'.files, ThreadOf(s', step.t)) == NextFile(env, s.files, me, step)
              && s'.locks == GivenBack(s.locks, me.at, StageOf(s', step.t))
  {
    var me := ThreadOf(s, step.t);
    if Registers(step) {
      LockStepMoves(env.host(step.t), s.locks, me, step);
    } else {
      FileStepMoves(env, s.files, me, step);
    }
  }

  /** A step that does not move its thread is not enabled and does nothing. */
  lemma {:induction false} LockStepMoves(p: ProcessId, locks: Locks, me: Thread, step: Step)
    requires Registers(step)
    ensures NextLock(p, locks, me, step).1 == me ==> NextLock(p, locks, me, step).0 == locks
  {}

  lemma {:induction false} FileStepMoves(env: Env, files: Files, me: Thread, step: Step)
    requires !Registers(step)
    ensures NextFile(env, files, me, step).1 == me ==> NextFile(env, files, me, step).0 == files
    ensures NextFile(env, files, me, step).1 == me && Critical(me.at) ==> !me.at.Idle?
  {}

  // ---------------------------------------------------------------- locks

  ghost predicate LockFacts(locks: Locks, p: ProcessId, t: ThreadId, at: Stage) {
    && (HoldsGuard(at) ==> p in locks.guard && locks.guard[p] == t)
    && (at.Looked? ==> at.found == locks.Registered(p))
    && (KnowsLock(at) ==> locks.Registered(p) == Some(at.lock))
    && (Critical(at) ==> at.lock in locks.owner && locks.owner[at.lock] == t)
  }

  ghost predicate LocksHold(env: Env, s: State) {
    forall t :: LockFacts(s.locks, env.host(t), t, StageOf(s, t))
  }

  lemma {:induction false} RegisterSelf(p: ProcessId, locks: Locks, me: Thread, step: Step)
    requires Registers(step) && LockFacts(locks, p, step.t, me.at)
    ensures var (locks', now) := NextLock(p, locks, me, step); LockFacts(locks', p, step.t, now.at)
  {}

  lemma {:induction false} RegisterOther(
    p: ProcessId, locks: Locks, me: Thread, step: Step, q: ProcessId, u: ThreadId, at: Stage)
    requires Registers(step) && LockFacts(locks, p, step.t, me.at) && LockFacts(locks, q, u, at) && u != step.t
    ensures LockFacts(NextLock(p, locks, me, step).0, q, u, at)
  {}

  lemma {:induction false} FileStepSelf(env: Env, files: Files, locks: Locks, p: ProcessId, me: Thread, step: Step)
    requires !Registers(step) && LockFacts(locks, p, step.t, me.at)
    ensures var now := NextFile(env, files, me, step).1;
            LockFacts(GivenBack(locks, me.at, now.at), p, step.t, now.at)
  {}

  lemma {:induction false} GivingBackKeeps(
    locks: Locks, p: ProcessId, t: ThreadId, was: Stage, now: Stage, q: ProcessId, u: ThreadId, at: Stage)
    requires LockFacts(locks, p, t, was) && LockFacts(locks, q, u, at) && u != t
    ensures LockFacts(GivenBack(locks, was, now), q, u, at)
  {}

  lemma {:induction false} LocksOfOther(env: Env, s: State, step: Step, u: ThreadId)
    requires LocksHold(env, s) && u != step.t
    ensures LockFacts(Next(env, s, step).locks, env.host(u), u, StageOf(s, u))
  {
    var p, q, me, at := env.host(step.t), env.host(u), ThreadOf(s, step.t), StageOf(s, u);
    assert LockFacts(s.locks, p, step.t, me.at) && LockFacts(s.locks, q, u, at);
    OwnStep(env, s, step);
    if Registers(step) {
      RegisterOther(p, s.locks, me, step, q, u, at);
    } else {
      GivingBackKeeps(s.locks, p, step.t, me.at, StageOf(Next(env, s, step), step.t), q, u, at);
    }
  }

  /** Every step of every thread keeps the locks of all processes in order. */
  lemma {:induction false} StepKeepsLocks(env: Env, s: State, step: Step)
    requires LocksHold(env, s)
    ensures LocksHold(env, Next(env, s, step))
  {
    var s', me := Next(env, s, step), ThreadOf(s, step.t);
    assert LockFacts(s.locks, env.host(step.t), step.t, me.at);
    OwnStep(env, s, step);
    if Registers(step) {
      RegisterSelf(env.host(step.t), s.locks, me, step);
    } else {
      FileStepSelf(env, s.files, s.locks, env.host(step.t), me, step);
    }
    forall u ensures LockFacts(s'.locks, env.host(u), u, StageOf(s', u)) {
      if u != step.t {
        OtherThreadStays(env, s, step, u);
        LocksOfOther(env, s, step, u);
      }
    }
  }

  lemma {:induction false} RunKeepsLocks(env: Env, legacy: File, steps: seq<Step>)
    ensures LocksHold(env, Run(env, Start(legacy), steps))
  {
    if steps != [] {
      RunKeepsLocks(env, legacy, steps[..|steps| - 1]);
      StepKeepsLocks(env, Run(env, Start(legacy), steps[..|steps| - 1]), steps[|steps| - 1]);
    }
  }

  /** Of each process at most one thread is in the critical section of the file. */
  lemma OneThreadInside(env: Env, s: State, t: ThreadId, u: ThreadId)
    requires LocksHold(env, s) && env.host(t) == env.host(u)
    requires Critical(StageOf(s, t)) && Critical(StageOf(s, u))
    ensures t == u
  {
    assert LockFacts(s.locks, env.host(t), t, StageOf(s, t)) && LockFacts(s.locks, env.host(u), u, StageOf(s, u));
  }

  /** In every run of any processes, at most one thread of each process is in the critical section of the file. */
  lemma MutualExclusion(env: Env, legacy: File, steps: seq<Step>, t: ThreadId, u: ThreadId)
    requires env.host(t) == env.host(u)
    requires var s := Run(env, Start(legacy), steps); Critical(StageOf(s, t)) && Critical(StageOf(s, u))
    ensures t == u
  {
    RunKeepsLocks(env, legacy, steps);
    OneThreadInside(env, Run(env, Start(legacy), steps), t, u);
  }

  // ---------------------------------------------------------------- files

  /** What a thread at this stage knows about the files. */
  ghost predicate FileFacts(files: Files, at: Stage) {
    && (at.Choosing? || at.Measured? ==> files.current.Some? && at.n == |files.rotated| + 1)
    && (at.Measured? ==> at.head == HeadOf(files.Newest()))
    && (at.Renamed? ==>
          && files.current.None? && at.n == |files.rotated| && at.n !in files.cuts
          && at.n in files.rotated && at.head == HeadOf(files.rotated[at.n]))
    && (at.Sealing? ==> at.head == HeadOf(files.Newest()))
  }

  /** Some thread has renamed the full file and not yet opened the next one. */
  ghost predicate BetweenFiles(s: State) {
    exists t :: StageOf(s, t).Renamed?
  }

  /** Each file is intact, rotated files are numbered without gaps, and the files hold what was written, in order. */
  ghost predicate FilesHold(
    env: Env, legacy: File, rotated: map<nat, File>, current: Option<File>, written: seq<Payload>)
  {
    && Numbered(rotated)
    && (forall n :: n in rotated ==> Good(env.h, rotated[n]))
    && (current.Some? ==> Good(env.h, current.value))
    && OwnEvents(LogEvents(rotated, current)) == OwnEvents(EventsOf(legacy) + written)
  }

  ghost predicate FilesSound(env: Env, legacy: File, f: Files, between: bool) {
    && FilesHold(env, legacy, f.rotated, f.current, f.written)
    && (forall n :: n in f.cuts ==> n in f.rotated)
    && Anchored(env.h, env.run, f.rotated, f.current, f.cuts)
    && (|f.rotated| > 0 && |f.rotated| !in f.cuts ==> f.current.Some? || between)
  }

  ghost predicate Inv(env: Env, legacy: File, s: State) {
    && LocksHold(env, s)
    && (forall t :: FileFacts(s.files, StageOf(s, t)))
    && FilesSound(env, legacy, s.files, BetweenFiles(s))
  }

  lemma {:induction false} StartsSound(env: Env, legacy: File)
    requires Legacy(legacy)
    ensures Inv(env, legacy, Start(legacy))
  {
    var f := Start(legacy).files;
    LegacyIsGood(env.h, legacy);
    assert EventsOf(legacy) + [] == EventsOf(legacy);
    assert LogEvents(f.rotated, f.current) == EventsOf(legacy);
    forall n ensures JoinedAt(env.h, env.run, f.rotated, n) {}
  }

  lemma {:induction false} FreeIsNext(rotated: map<nat, File>, n: nat)
    requires Numbered(rotated) && 1 <= n <= |rotated| + 1
    ensures FirstFreeFrom(rotated, n) == |rotated| + 1
    decreases |rotated| + 1 - n
  {
    if n in rotated { FreeIsNext(rotated, n + 1); }
  }

  predicate TouchesFiles(step: Step) {
    step.Rename? || step.OpenNext? || step.Write?
  }

  lemma {:induction false} FactsWhenQuiet(env: Env, files: Files, me: Thread, step: Step)
    requires FileFacts(files, me.at) && Numbered(files.rotated) && !Registers(step) && !TouchesFiles(step)
    ensures var (files', now) := NextFile(env, files, me, step); FileFacts(files', now.at)
  {
    FreeIsNext(files.rotated, 1);
  }

  lemma {:induction false} FactsWhenTouching(env: Env, files: Files, me: Thread, step: Step)
    requires FileFacts(files, me.at) && Numbered(files.rotated) && TouchesFiles(step)
    requires forall n :: n in files.cuts ==> n in files.rotated
    ensures var (files', now) := NextFile(env, files, me, step); FileFacts(files', now.at)
  {}

  lemma {:induction false} FactsWhenRegistering(p: ProcessId, files: Files, locks: Locks, me: Thread, step: Step)
    requires FileFacts(files, me.at) && Registers(step)
    ensures FileFacts(files, NextLock(p, locks, me, step).1.at)
  {}

  lemma {:induction false} FactsOfSelf(env: Env, s: State, step: Step)
    requires FileFacts(s.files, StageOf(s, step.t)) && Numbered(s.files.rotated)
    requires forall n :: n in s.files.cuts ==> n in s.files.rotated
    ensures FileFacts(Next(env, s, step).files, StageOf(Next(env, s, step), step.t))
  {
    OwnStep(env, s, step);
    var me := ThreadOf(s, step.t);
    if Registers(step) {
      FactsWhenRegistering(env.host(step.t), s.files, s.locks, me, step);
    } else if TouchesFiles(step) {
      FactsWhenTouching(env, s.files, me, step);
    } else {
      FactsWhenQuiet(env, s.files, me, step);
    }
  }

  /** What a step that leaves the files alone leaves alone. */
  ghost predicate FilesStay(was: Files, now: Files, at: Stage) {
    now == was || (at.Renamed? && now == was.(cuts := was.cuts + {at.n}))
  }

  lemma {:induction false} QuietFiles(env: Env, files: Files, me: Thread, step: Step)
    requires !Registers(step) && !TouchesFiles(step)
    ensures FilesStay(files, NextFile(env, files, me, step).0, me.at)
    ensures me.at.Renamed? && me.at.n !in files.cuts && NextFile(env, files, me, step).0 == files ==>
              NextFile(env, files, me, step).1 == me
  {}

  lemma {:induction false} IdleFiles(env: Env, files: Files, me: Thread, step: Step)
    requires TouchesFiles(step) && !Critical(me.at)
    ensures NextFile(env, files, me, step) == (files, me)
  {}

  lemma {:induction false} QuietFrame(env: Env, s: State, step: Step)
    requires !TouchesFiles(step)
    ensures FilesStay(s.files, Next(env, s, step).files, StageOf(s, step.t))
  {
    OwnStep(env, s, step);
    if !Registers(step) { QuietFiles(env, s.files, ThreadOf(s, step.t), step); }
  }

  lemma {:induction false} QuietBetween(env: Env, s: State, step: Step)
    requires !TouchesFiles(step) && FileFacts(s.files, StageOf(s, step.t)) && Next(env, s, step).files == s.files
    ensures BetweenFiles(s) ==> BetweenFiles(Next(env, s, step))
  {
    if BetweenFiles(s) {
      var t :| StageOf(s, t).Renamed?;
      OwnStep(env, s, step);
      if t != step.t {
        OtherThreadStays(env, s, step, t);
      } else if !Registers(step) {
        QuietFiles(env, s.files, ThreadOf(s, t), step);
      }
      assert StageOf(Next(env, s, step), t).Renamed?;
    }
  }

  lemma {:induction false} FactsOfOther(env: Env, s: State, step: Step, u: ThreadId)
    requires FileFacts(s.files, StageOf(s, u)) && u != step.t
    requires !(Critical(StageOf(s, u)) && Critical(StageOf(s, step.t)))
    ensures FileFacts(Next(env, s, step).files, StageOf(s, u))
  {
    OwnStep(env, s, step);
    if !TouchesFiles(step) {
      QuietFrame(env, s, step);
    } else if !Critical(StageOf(s, step.t)) {
      IdleFiles(env, s.files, ThreadOf(s, step.t), step);
    }
  }

  lemma {:induction false} QuietStep(env: Env, legacy: File, s: State, step: Step)
    requires FilesSound(env, legacy, s.files, BetweenFiles(s)) && FileFacts(s.files, StageOf(s, step.t))
    requires !TouchesFiles(step)
    ensures FilesSound(env, legacy, Next(env, s, step).files, BetweenFiles(Next(env, s, step)))
  {
    QuietFrame(env, s, step);
    if Next(env, s, step).files == s.files { QuietBetween(env, s, step); }
  }

  lemma {:induction false} RenameKeepsEvents(rotated: map<nat, File>, f: File)
    requires Numbered(rotated)
    ensures LogEvents(rotated[|rotated| + 1 := f], None) == LogEvents(rotated, Some(f))
  {
    var n := |rotated| + 1;
    assert n !in rotated && |rotated[n := f]| == n;
    RotatedEventsFrame(rotated, n, f, |rotated|);
  }

  lemma {:induction false} OneMoreIsNumbered(rotated: map<nat, File>, f: File)
    requires Numbered(rotated)
    ensures |rotated| + 1 !in rotated && Numbered(rotated[|rotated| + 1 := f])
  {
    assert |rotated| + 1 !in rotated;
  }

  lemma {:induction false} RenameKeepsFiles(
    env: Env, legacy: File, rotated: map<nat, File>, f: File, written: seq<Payload>)
    requires FilesHold(env, legacy, rotated, Some(f), written)
    ensures FilesHold(env, legacy, rotated[|rotated| + 1 := f], None, written)
  {
    OneMoreIsNumbered(rotated, f);
    RenameKeepsEvents(rotated, f);
  }

  lemma {:induction false} RenameKeepsAnchors(env: Env, rotated: map<nat, File>, f: File, cuts: set<nat>)
    requires Numbered(rotated) && Anchored(env.h, env.run, rotated, Some(f), cuts)
    requires forall n :: n in cuts ==> n in rotated
    ensures Anchored(env.h, env.run, rotated[|rotated| + 1 := f], None, cuts)
  {
    var n := |rotated| + 1;
    var rotated' := rotated[n := f];
    forall m | m !in cuts ensures JoinedAt(env.h, env.run, rotated', m) {
      assert JoinedAt(env.h, env.run, rotated, m);
    }
  }

  lemma {:induction false} RenameFiles(env: Env, legacy: File, files: Files, me: Thread, step: Step)
    requires FilesSound(env, legacy, files, false) && FileFacts(files, me.at) && step.Rename? && me.at.Measured?
    ensures FilesSound(env, legacy, NextFile(env, files, me, step).0, true)
  {
    RenameKeepsFiles(env, legacy, files.rotated, files.current.value, files.written);
    RenameKeepsAnchors(env, files.rotated, files.current.value, files.cuts);
  }

  lemma {:induction false} OpenNextKeepsEvents(rotated: map<nat, File>, begun: File)
    requires OwnEvents(EventsOf(begun)) == []
    ensures OwnEvents(LogEvents(rotated, Some(begun))) == OwnEvents(LogEvents(rotated, None))
  {
    assert LogEvents(rotated, None) + EventsOf(begun) == LogEvents(rotated, Some(begun));
    OwnEventsConcat(LogEvents(rotated, None), EventsOf(begun));
  }

  lemma {:induction false} OpenNextMeans(env: Env, files: Files, me: Thread, step: Step)
    requires FileFacts(files, me.at) && step.OpenNext? && me.at.Renamed?
    ensures NextFile(env, files, me, step).0
         == files.(current := Some(Begun(env.h, env.run, me.at.n, files.rotated[me.at.n], step.ts)))
  {
    var begun := Begun(env.h, env.run, me.at.n, files.rotated[me.at.n], step.ts);
    assert files.Newest() + begun == begun;
  }

  lemma {:induction false} OpenNextFiles(env: Env, legacy: File, files: Files, me: Thread, step: Step)
    requires FilesSound(env, legacy, files, true) && FileFacts(files, me.at) && step.OpenNext? && me.at.Renamed?
    ensures FilesSound(env, legacy, NextFile(env, files, me, step).0, false)
  {
    var begun := Begun(env.h, env.run, me.at.n, files.rotated[me.at.n], step.ts);
    AnchorFileIsGood(env.h, env.run, me.at.n, me.at.head, step.ts);
    OpenNextMeans(env, files, me, step);
    assert Continues(env.h, env.run, me.at.n, files.rotated[me.at.n], begun);
    OpenNextKeepsEvents(files.rotated, begun);
  }

  lemma {:induction false} WriteKeepsFiles(
    env: Env, legacy: File, rotated: map<nat, File>, current: Option<File>, written: seq<Payload>, event: Payload)
    requires FilesHold(env, legacy, rotated, current, written)
    ensures var f := Appended(env.h, if current.Some? then current.value else [], event);
            FilesHold(env, legacy, rotated, Some(f), written + [event])
  {
    var before := if current.Some? then current.value else [];
    LegacyIsGood(env.h, []);
    AppendKeepsGood(env.h, before, event);
    AppendedEvents(env.h, rotated, current, event);
    OneMoreEvent(LogEvents(rotated, current), EventsOf(legacy), written, event);
  }

  lemma {:induction false} OneMoreEvent(seen: seq<Payload>, before: seq<Payload>, written: seq<Payload>, event: Payload)
    requires OwnEvents(seen) == OwnEvents(before + written)
    ensures OwnEvents(seen + [event]) == OwnEvents(before + (written + [event]))
  {
    OwnEventsConcat(seen, [event]);
    OwnEventsConcat(before + written, [event]);
    assert before + written + [event] == before + (written + [event]);
  }

  lemma {:induction false} WriteKeepsAnchors(
    env: Env, rotated: map<nat, File>, current: Option<File>, event: Payload, cuts: set<nat>)
    requires Anchored(env.h, env.run, rotated, current, cuts) && Numbered(rotated)
    requires |rotated| > 0 && |rotated| !in cuts ==> current.Some?
    ensures var f := Appended(env.h, if current.Some? then current.value else [], event);
            Anchored(env.h, env.run, rotated, Some(f), cuts)
  {
    var before := if current.Some? then current.value else [];
    AppendKeepsContinues(env.h, env.run, rotated, before, Appended(env.h, before, event));
  }

  lemma {:induction false} WriteMeans(env: Env, files: Files, me: Thread, step: Step)
    requires step.Write? && me.at.Sealing? && FileFacts(files, me.at)
    ensures NextFile(env, files, me, step).0
         == files.(current := Some(Appended(env.h, files.Newest(), me.event)), written := files.written + [me.event])
  {}

  lemma {:induction false} WriteFiles(env: Env, legacy: File, files: Files, event: Payload)
    requires FilesSound(env, legacy, files, false)
    ensures var f := Appended(env.h, files.Newest(), event);
            FilesSound(env, legacy, files.(current := Some(f), written := files.written + [event]), false)
  {
    WriteKeepsFiles(env, legacy, files.rotated, files.current, files.written, event);
    WriteKeepsAnchors(env, files.rotated, files.current, event, files.cuts);
  }

  /** A touching step of the only thread in the critical section. */
  lemma {:induction false} TouchFiles(env: Env, legacy: File, files: Files, me: Thread, step: Step)
    requires TouchesFiles(step) && FilesSound(env, legacy, files, me.at.Renamed?) && FileFacts(files, me.at)
    ensures var (files', now) := NextFile(env, files, me, step); FilesSound(env, legacy, files', now.at.Renamed?)
  {
    if step.Rename? && me.at.Measured? {
      RenameFiles(env, legacy, files, me, step);
    } else if step.OpenNext? && me.at.Renamed? {
      OpenNextFiles(env, legacy, files, me, step);
    } else if step.Write? && me.at.Sealing? {
      WriteMeans(env, files, me, step);
      WriteFiles(env, legacy, files, me.event);
    }
  }

  lemma BetweenIsRenamed(s: State, t: ThreadId)
    requires forall u :: Critical(StageOf(s, u)) ==> u == t
    ensures BetweenFiles(s) <==> StageOf(s, t).Renamed?
  {}

  lemma {:induction false} StaysAlone(env: Env, s: State, step: Step)
    requires Critical(StageOf(s, step.t)) && forall u :: Critical(StageOf(s, u)) ==> u == step.t
    ensures forall u :: Critical(StageOf(Next(env, s, step), u)) ==> u == step.t
  {
    forall u | u != step.t ensures !Critical(StageOf(Next(env, s, step), u)) {
      OtherThreadStays(env, s, step, u);
      assert !Critical(StageOf(s, u));
    }
  }

  lemma {:induction false} TouchStep(env: Env, legacy: File, s: State, step: Step)
    requires FilesSound(env, legacy, s.files, BetweenFiles(s)) && FileFacts(s.files, StageOf(s, step.t))
    requires TouchesFiles(step) && Critical(StageOf(s, step.t))
    requires forall t :: Critical(StageOf(s, t)) ==> t == step.t
    ensures FilesSound(env, legacy, Next(env, s, step).files, BetweenFiles(Next(env, s, step)))
  {
    BetweenIsRenamed(s, step.t);
    OwnStep(env, s, step);
    TouchFiles(env, legacy, s.files, ThreadOf(s, step.t), step);
    StaysAlone(env, s, step);
    BetweenIsRenamed(Next(env, s, step), step.t);
  }

  lemma IdleStep(env: Env, s: State, step: Step)
    requires TouchesFiles(step) && !Critical(StageOf(s, step.t))
    ensures Next(env, s, step) == s
  {
    IdleFiles(env, s.files, ThreadOf(s, step.t), step);
  }

  // ---------------------------------------------------------------- the invariant of a run

  /** No two processes are in the critical section of the file. */
  ghost predicate OneProcessInside(env: Env, s: State) {
    forall t, u :: Critical(StageOf(s, t)) && Critical(StageOf(s, u)) ==> env.host(t) == env.host(u)
  }

  lemma OneInside(env: Env, s: State, t: ThreadId, u: ThreadId)
    requires LocksHold(env, s) && OneProcessInside(env, s)
    ensures Critical(StageOf(s, t)) && Critical(StageOf(s, u)) ==> t == u
  {
    if Critical(StageOf(s, t)) && Critical(StageOf(s, u)) { OneThreadInside(env, s, t, u); }
  }

  lemma {:induction false} StepKeepsFacts(env: Env, legacy: File, s: State, step: Step)
    requires Inv(env, legacy, s) && OneProcessInside(env, s)
    ensures var s' := Next(env, s, step); forall u :: FileFacts(s'.files, StageOf(s', u))
  {
    var s' := Next(env, s, step);
    assert FileFacts(s.files, StageOf(s, step.t));
    forall u ensures FileFacts(s'.files, StageOf(s', u)) {
      assert FileFacts(s.files, StageOf(s, u));
      if u == step.t {
        FactsOfSelf(env, s, step);
      } else {
        OneInside(env, s, u, step.t);
        FactsOfOther(env, s, step, u);
        OtherThreadStays(env, s, step, u);
      }
    }
  }

  /** A step taken while no two processes are in the critical section keeps every fact about the files. */
  lemma {:induction false} StepKeepsInv(env: Env, legacy: File, s: State, step: Step)
    requires Inv(env, legacy, s) && OneProcessInside(env, s)
    ensures Inv(env, legacy, Next(env, s, step))
  {
    StepKeepsLocks(env, s, step);
    StepKeepsFacts(env, legacy, s, step);
    if !TouchesFiles(step) {
      QuietStep(env, legacy, s, step);
    } else if Critical(StageOf(s, step.t)) {
      forall t | Critical(StageOf(s, t)) ensures t == step.t {
        OneInside(env, s, t, step.t);
      }
      TouchStep(env, legacy, s, step);
    } else {
      IdleStep(env, s, step);
    }
  }

  /** At no step of the run are two processes in the critical section. */
  ghost predicate Apart(env: Env, legacy: File, steps: seq<Step>) {
    forall k: nat :: k < |steps| ==> OneProcessInside(env, Run(env, Start(legacy), steps[..k]))
  }

  /** All threads belong to one process. */
  ghost predicate SingleProcess(env: Env) {
    forall t, u :: env.host(t) == env.host(u)
  }

  /** One process appends, or several that take turns. */
  ghost predicate Exclusive(env: Env, legacy: File, steps: seq<Step>) {
    SingleProcess(env) || Apart(env, legacy, steps)
  }

  lemma ExclusiveBefore(env: Env, legacy: File, steps: seq<Step>)
    requires steps != [] && Exclusive(env, legacy, steps)
    ensures Exclusive(env, legacy, steps[..|steps| - 1])
    ensures OneProcessInside(env, Run(env, Start(legacy), steps[..|steps| - 1]))
  {
    var before := steps[..|steps| - 1];
    forall k: nat | k < |before| ensures before[..k] == steps[..k] {}
    if SingleProcess(env) {
      var s := Run(env, Start(legacy), before);
      forall t, u | Critical(StageOf(s, t)) && Critical(StageOf(s, u)) ensures env.host(t) == env.host(u) {}
    }
  }

  lemma {:induction false} RunKeepsInv(env: Env, legacy: File, steps: seq<Step>)
    requires Legacy(legacy) && Exclusive(env, legacy, steps)
    ensures Inv(env, legacy, Run(env, Start(legacy), steps))
  {
    if steps == [] {
      StartsSound(env, legacy);
    } else {
      ExclusiveBefore(env, legacy, steps);
      RunKeepsInv(env, legacy, steps[..|steps| - 1]);
      StepKeepsInv(env, legacy, Run(env, Start(legacy), steps[..|steps| - 1]), steps[|steps| - 1]);
    }
  }

  // ---------------------------------------------------------------- what every run satisfies

  /**
   Whatever the interleaving of the threads of one process, or of several that are never in the critical section
   together, and whatever the rotate sizes and the errors raised on the way, every file that exists at any moment is
   one the verifier reports as intact.
   */
  lemma ParallelAppendsNeverFork(env: Env, legacy: File, steps: seq<Step>)
    requires Legacy(legacy) && Exclusive(env, legacy, steps)
    ensures var f := Run(env, Start(legacy), steps).files;
            && (forall n :: n in f.rotated ==> ChainHolds(env.h, f.rotated[n]))
            && (f.current.Some? ==> ChainHolds(env.h, f.current.value))
  {
    RunKeepsInv(env, legacy, steps);
  }

  /**
   Reading the rotated files and the current one back yields exactly what was written, in order, once the
   rotation anchors are left aside, whatever the rotate sizes; rotated files are numbered from 1 without gaps.
   */
  lemma NothingLostOrReordered(env: Env, legacy: File, steps: seq<Step>)
    requires Legacy(legacy) && Exclusive(env, legacy, steps)
    ensures var f := Run(env, Start(legacy), steps).files;
            && Numbered(f.rotated)
            && OwnEvents(DataOf(Concatenated(LogFiles(f.rotated, f.current))))
               == OwnEvents(EventsOf(legacy)) + OwnEvents(f.written)
  {
    RunKeepsInv(env, legacy, steps);
    var f := Run(env, Start(legacy), steps).files;
    ListedEvents(f.rotated, f.current);
    OwnEventsConcat(EventsOf(legacy), f.written);
  }

  /** No caller uses the event name reserved for rotations. */
  predicate NoAnchorCalls(steps: seq<Step>) {
    forall k :: 0 <= k < |steps| && steps[k].Call? ==> !IsAnchorEvent(steps[k].event)
  }

  ghost predicate PlainEvents(s: State) {
    forall t :: !IsAnchorEvent(ThreadOf(s, t).event)
  }

  predicate OpensWithAnchor(f: File) {
    f != [] && f[0].Object? && IsAnchor(f[0].row)
  }

  /** No file behind a rotation cut short opens with an anchor. */
  ghost predicate CutsShow(f: Files) {
    && (forall n :: n in f.cuts && n + 1 in f.rotated ==> !OpensWithAnchor(f.rotated[n + 1]))
    && (f.current.Some? && |f.rotated| in f.cuts ==> !OpensWithAnchor(f.current.value))
  }

  lemma {:induction false} EventWhenRegistering(p: ProcessId, locks: Locks, me: Thread, step: Step)
    requires Registers(step) && !IsAnchorEvent(me.event) && (step.Call? ==> !IsAnchorEvent(step.event))
    ensures !IsAnchorEvent(NextLock(p, locks, me, step).1.event)
  {}

  lemma {:induction false} EventStays(env: Env, files: Files, me: Thread, step: Step)
    requires !Registers(step)
    ensures NextFile(env, files, me, step).1.event == me.event
  {}

  lemma {:induction false} PlainStep(env: Env, s: State, step: Step)
    requires PlainEvents(s) && (step.Call? ==> !IsAnchorEvent(step.event))
    ensures PlainEvents(Next(env, s, step))
  {
    forall t ensures !IsAnchorEvent(ThreadOf(Next(env, s, step), t).event) {
      assert !IsAnchorEvent(ThreadOf(s, t).event);
      if t != step.t {
        OtherThreadStays(env, s, step, t);
      } else {
        OwnStep(env, s, step);
        if Registers(step) {
          EventWhenRegistering(env.host(t), s.locks, ThreadOf(s, t), step);
        } else {
          EventStays(env, s.files, ThreadOf(s, t), step);
        }
      }
    }
  }

  lemma {:induction false} CutsWrite(env: Env, files: Files, me: Thread, step: Step)
    requires CutsShow(files) && FileFacts(files, me.at) && step.Write? && me.at.Sealing? && !IsAnchorEvent(me.event)
    ensures CutsShow(NextFile(env, files, me, step).0)
  {
    WriteMeans(env, files, me, step);
  }

  lemma {:induction false} CutsRename(env: Env, files: Files, me: Thread, step: Step)
    requires CutsShow(files) && FileFacts(files, me.at) && step.Rename? && me.at.Measured?
    requires Numbered(files.rotated) && forall n :: n in files.cuts ==> n in files.rotated
    ensures CutsShow(NextFile(env, files, me, step).0)
  {}

  lemma {:induction false} CutsOpenNext(env: Env, files: Files, me: Thread, step: Step)
    requires CutsShow(files) && FileFacts(files, me.at) && step.OpenNext? && me.at.Renamed?
    ensures CutsShow(NextFile(env, files, me, step).0)
  {}

  lemma {:induction false} CutsRaise(env: Env, files: Files, me: Thread, step: Step)
    requires CutsShow(files) && FileFacts(files, me.at) && step.Raise? && Numbered(files.rotated)
    ensures CutsShow(NextFile(env, files, me, step).0)
  {}

  lemma {:induction false} CutsOfFiles(env: Env, files: Files, me: Thread, step: Step)
    requires CutsShow(files) && FileFacts(files, me.at) && !IsAnchorEvent(me.event) && !Registers(step)
    requires Numbered(files.rotated) && forall n :: n in files.cuts ==> n in files.rotated
    ensures CutsShow(NextFile(env, files, me, step).0)
  {
    match step {
      case Write(_) => if me.at.Sealing? { CutsWrite(env, files, me, step); }
      case Rename(_) => if me.at.Measured? { CutsRename(env, files, me, step); }
      case OpenNext(_, _) => if me.at.Renamed? { CutsOpenNext(env, files, me, step); }
      case Raise(_) => CutsRaise(env, files, me, step);
      case _ =>
    }
  }

  lemma {:induction false} CutsStep(env: Env, legacy: File, s: State, step: Step)
    requires Inv(env, legacy, s) && PlainEvents(s) && CutsShow(s.files)
    ensures CutsShow(Next(env, s, step).files)
  {
    assert FileFacts(s.files, StageOf(s, step.t)) && !IsAnchorEvent(ThreadOf(s, step.t).event);
    OwnStep(env, s, step);
    if !Registers(step) { CutsOfFiles(env, s.files, ThreadOf(s, step.t), step); }
  }

  lemma {:induction false} RunKeepsCuts(env: Env, legacy: File, steps: seq<Step>)
    requires Legacy(legacy) && Exclusive(env, legacy, steps) && NoAnchorCalls(steps)
    ensures var s := Run(env, Start(legacy), steps); PlainEvents(s) && CutsShow(s.files)
  {
    if steps != [] {
      var before := steps[..|steps| - 1];
      ExclusiveBefore(env, legacy, steps);
      var s := Run(env, Start(legacy), before);
      RunKeepsCuts(env, legacy, before);
      RunKeepsInv(env, legacy, before);
      PlainStep(env, s, steps[|steps| - 1]);
      CutsStep(env, legacy, s, steps[|steps| - 1]);
    }
  }

  /** The file after rotated file `n`: the next rotated one or the current one, if there is any. */
  function FileAfter(f: Files, n: nat): Option<File> {
    if n + 1 in f.rotated then Some(f.rotated[n + 1]) else f.current
  }

  /** The file after rotated file `n` opens with its anchor. */
  ghost predicate ContinuedAt(env: Env, f: Files, n: nat)
    requires n in f.rotated && FileAfter(f, n).Some?
  {
    Continues(env.h, env.run, n, f.rotated[n], FileAfter(f, n).value)
  }

  lemma {:induction false} AnchoredUnlessCut(env: Env, legacy: File, f: Files, between: bool, n: nat)
    requires FilesSound(env, legacy, f, between) && n in f.rotated && n !in f.cuts
    ensures if FileAfter(f, n).Some? then ContinuedAt(env, f, n) else between
  {
    assert JoinedAt(env.h, env.run, f.rotated, n);
    if n + 1 !in f.rotated { assert n == |f.rotated|; }
  }

  lemma {:induction false} NotAnchoredIfCut(env: Env, f: Files, n: nat)
    requires Numbered(f.rotated) && CutsShow(f) && n in f.rotated && n in f.cuts && FileAfter(f, n).Some?
    ensures !ContinuedAt(env, f, n)
  {
    if n + 1 !in f.rotated { assert n == |f.rotated|; }
  }

  /**
   The file after a rotated one opens with the anchor of its predecessor unless an error cut that very rotation
   short; and only unless, when no caller writes anchors of its own. With no file after it, some thread is about to
   open one, or the rotation was cut short.
   */
  lemma EveryFileIsAnchored(env: Env, legacy: File, steps: seq<Step>, n: nat)
    requires Legacy(legacy) && Exclusive(env, legacy, steps)
    requires n in Run(env, Start(legacy), steps).files.rotated
    ensures var s := Run(env, Start(legacy), steps);
            && (n !in s.files.cuts ==>
                  if FileAfter(s.files, n).Some? then ContinuedAt(env, s.files, n) else BetweenFiles(s))
            && (n in s.files.cuts && NoAnchorCalls(steps) && FileAfter(s.files, n).Some? ==>
                  !ContinuedAt(env, s.files, n))
  {
    RunKeepsInv(env, legacy, steps);
    var s := Run(env, Start(legacy), steps);
    if n !in s.files.cuts {
      AnchoredUnlessCut(env, legacy, s.files, BetweenFiles(s), n);
    } else if NoAnchorCalls(steps) && FileAfter(s.files, n).Some? {
      RunKeepsCuts(env, legacy, steps);
      NotAnchoredIfCut(env, s.files, n);
    }
  }
}
