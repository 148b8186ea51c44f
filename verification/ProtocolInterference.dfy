/**
 The protocol with and without interference: a thread by itself does what the sequential append does, and two processes,
 each with a registry of its own, can write for one head.
 */
module ProtocolInterference {
  import opened Basics
  import opened AuditRows
  import opened AuditLog
  import opened AuditProtocol

  // ---------------------------------------------------------------- one thread by itself

  /** From the call to knowing the lock, with nobody in between. */
  function KnowAlone(env: Env, s: State, t: ThreadId, event: Payload, rotateBytes: int, now: string): State {
    var called := Next(env, s, Call(t, event, rotateBytes, now));
    Next(env, Next(env, Next(env, called, EnterGuard(t)), LookUp(t)), Provide(t))
  }

  function LockAlone(env: Env, s: State, t: ThreadId, event: Payload, rotateBytes: int, now: string): State {
    Next(env, Next(env, KnowAlone(env, s, t, event, rotateBytes, now), LeaveGuard(t)), Acquire(t))
  }

  function RotateAlone(env: Env, s: State, t: ThreadId, ts: string): State {
    RenameAlone(env, Next(env, s, Decide(t)), t, ts)
  }

  function RenameAlone(env: Env, s: State, t: ThreadId, ts: string): State {
    Next(env, Next(env, Next(env, s, Measure(t)), Rename(t)), OpenNext(t, ts))
  }

  function WriteAlone(env: Env, s: State, t: ThreadId): State {
    Next(env, Next(env, Next(env, s, ReadHead(t)), Write(t)), Release(t))
  }

  /** The lock a process has for the file, or would register now. */
  function LockOf(locks: Locks, p: ProcessId): LockId {
    if p in locks.table then locks.table[p] else locks.unused
  }

  /** The registry of the process is free, and so is its lock. */
  predicate Free(locks: Locks, p: ProcessId) {
    p !in locks.guard && LockOf(locks, p) !in locks.owner
  }

  /** The process has registered its lock. */
  function WithLock(locks: Locks, p: ProcessId): Locks {
    if p in locks.table then locks else locks.(table := locks.table[p := locks.unused], unused := locks.unused + 1)
  }

  /** A thread that knows its lock and holds the guard. */
  function Knowing(env: Env, s: State, t: ThreadId, payload: Payload, rotateBytes: int): State {
    var p, lock, locks := env.host(t), LockOf(s.locks, env.host(t)), WithLock(s.locks, env.host(t));
    State(s.files, locks.(guard := locks.guard[p := t]), s.threads[t := Thread(Provided(lock), payload, rotateBytes)])
  }

  /** The state in which the thread holds the lock of its process and has done nothing else. */
  function Holding(env: Env, s: State, t: ThreadId, payload: Payload, rotateBytes: int): State {
    var lock, locks := LockOf(s.locks, env.host(t)), WithLock(s.locks, env.host(t));
    State(s.files, locks.(owner := locks.owner[lock := t]), s.threads[t := Thread(Inside(lock), payload, rotateBytes)])
  }

  lemma {:induction false} CallAndEnter(
    env: Env, s: State, t: ThreadId, event: Payload, rotateBytes: int, now: string)
    requires StageOf(s, t).Idle? && env.host(t) !in s.locks.guard
    ensures Next(env, Next(env, s, Call(t, event, rotateBytes, now)), EnterGuard(t))
         == State(s.files, s.locks.(guard := s.locks.guard[env.host(t) := t]),
                  s.threads[t := Thread(Guarding, WithTimestamp(event, now), rotateBytes)])
  {
    var payload := WithTimestamp(event, now);
    assert s.threads[t := Thread(Called, payload, rotateBytes)][t := Thread(Guarding, payload, rotateBytes)]
        == s.threads[t := Thread(Guarding, payload, rotateBytes)];
  }

  lemma {:induction false} LookAndProvide(env: Env, s: State, t: ThreadId)
    requires StageOf(s, t).Guarding?
    ensures var p := env.host(t);
            Next(env, Next(env, s, LookUp(t)), Provide(t))
            == State(s.files, WithLock(s.locks, p),
                     s.threads[t := ThreadOf(s, t).(at := Provided(LockOf(s.locks, p)))])
  {
    var looked := ThreadOf(s, t).(at := Looked(s.locks.Registered(env.host(t))));
    var provided := looked.(at := Provided(LockOf(s.locks, env.host(t))));
    assert s.threads[t := looked][t := provided] == s.threads[t := provided];
  }

  lemma {:induction false} KnowAloneMeans(
    env: Env, s: State, t: ThreadId, event: Payload, rotateBytes: int, now: string)
    requires StageOf(s, t).Idle? && env.host(t) !in s.locks.guard
    ensures KnowAlone(env, s, t, event, rotateBytes, now)
         == Knowing(env, s, t, WithTimestamp(event, now), rotateBytes)
  {
    var entered := Next(env, Next(env, s, Call(t, event, rotateBytes, now)), EnterGuard(t));
    CallAndEnter(env, s, t, event, rotateBytes, now);
    LookAndProvide(env, entered, t);
    var guarding := Thread(Guarding, WithTimestamp(event, now), rotateBytes);
    var provided := guarding.(at := Provided(LockOf(s.locks, env.host(t))));
    assert s.threads[t := guarding][t := provided] == s.threads[t := provided];
  }

  lemma {:induction false} LeaveAndAcquire(env: Env, s: State, t: ThreadId)
    requires StageOf(s, t).Provided? && StageOf(s, t).lock !in s.locks.owner
    ensures var lock := StageOf(s, t).lock;
            Next(env, Next(env, s, LeaveGuard(t)), Acquire(t))
            == State(s.files,
                     s.locks.(guard := s.locks.guard - {env.host(t)}, owner := s.locks.owner[lock := t]),
                     s.threads[t := ThreadOf(s, t).(at := Inside(lock))])
  {
    var lock := StageOf(s, t).lock;
    var has, inside := ThreadOf(s, t).(at := HasLock(lock)), ThreadOf(s, t).(at := Inside(lock));
    assert s.threads[t := has][t := inside] == s.threads[t := inside];
  }

  lemma {:induction false} LockAloneMeans(
    env: Env, s: State, t: ThreadId, event: Payload, rotateBytes: int, now: string)
    requires StageOf(s, t).Idle? && Free(s.locks, env.host(t))
    ensures LockAlone(env, s, t, event, rotateBytes, now)
         == Holding(env, s, t, WithTimestamp(event, now), rotateBytes)
  {
    KnowAloneMeans(env, s, t, event, rotateBytes, now);
    LeavesHolding(env, s, t, WithTimestamp(event, now), rotateBytes);
  }

  lemma {:induction false} LeavesHolding(env: Env, s: State, t: ThreadId, payload: Payload, rotateBytes: int)
    requires Free(s.locks, env.host(t))
    ensures Next(env, Next(env, Knowing(env, s, t, payload, rotateBytes), LeaveGuard(t)), Acquire(t))
         == Holding(env, s, t, payload, rotateBytes)
  {
    var p, lock, locks := env.host(t), LockOf(s.locks, env.host(t)), WithLock(s.locks, env.host(t));
    LeaveAndAcquire(env, Knowing(env, s, t, payload, rotateBytes), t);
    assert locks.guard[p := t] - {p} == locks.guard;
    var provided, inside := Thread(Provided(lock), payload, rotateBytes), Thread(Inside(lock), payload, rotateBytes);
    assert s.threads[t := provided][t := inside] == s.threads[t := inside];
  }

  predicate Full(env: Env, s: State, t: ThreadId) {
    && ThreadOf(s, t).rotateBytes > 0 && s.files.current.Some?
    && env.size(s.files.current.value) >= ThreadOf(s, t).rotateBytes
  }

  /** A full file was rotated away and the next one begun; otherwise the files stayed. */
  predicate RotatedFrom(env: Env, s: State, s': State, t: ThreadId, ts: string) {
    && StageOf(s, t).Inside? && StageOf(s', t) == Ready(StageOf(s, t).lock)
    && ThreadOf(s', t).event == ThreadOf(s, t).event && s'.locks == s.locks
    && var n := |s.files.rotated| + 1;
       s'.files == if Full(env, s, t)
                   then s.files.(rotated := s.files.rotated[n := s.files.current.value],
                                 current := Some(Begun(env.h, env.run, n, s.files.current.value, ts)))
                   else s.files
  }

  /** The row was written and the lock given back. */
  predicate WrittenFrom(env: Env, s: State, s': State, t: ThreadId) {
    && StageOf(s, t).Ready? && StageOf(s', t).Idle?
    && s'.locks == s.locks.(owner := s.locks.owner - {StageOf(s, t).lock})
    && s'.files == s.files.(current := Some(Appended(env.h, s.files.Newest(), ThreadOf(s, t).event)),
                            written := s.files.written + [ThreadOf(s, t).event])
  }

  lemma {:induction false} RenameAloneMeans(env: Env, s: State, t: ThreadId, ts: string)
    requires StageOf(s, t).Choosing? && s.files.current.Some?
    ensures var s', at := RenameAlone(env, s, t, ts), StageOf(s, t);
            && StageOf(s', t) == Ready(at.lock) && ThreadOf(s', t).event == ThreadOf(s, t).event
            && s'.locks == s.locks
            && s'.files == s.files.(rotated := s.files.rotated[at.n := s.files.current.value],
                                    current := Some(Begun(env.h, env.run, at.n, s.files.current.value, ts)))
  {
    var at := StageOf(s, t);
    var measured := Next(env, s, Measure(t));
    assert StageOf(measured, t) == Measured(at.lock, at.n, HeadOf(s.files.current.value));
    var renamed := Next(env, measured, Rename(t));
    assert StageOf(renamed, t) == Renamed(at.lock, at.n, HeadOf(s.files.current.value));
    var anchor := Object(AnchorRow(env.h, env.run, at.n, HeadOf(s.files.current.value), ts));
    assert renamed.files.Newest() + [anchor] == [anchor];
  }

  lemma {:induction false} DecideFile(env: Env, files: Files, me: Thread, step: Step)
    requires step.Decide? && me.at.Inside? && Numbered(files.rotated)
    ensures var (files', now) := NextFile(env, files, me, step);
            var full := me.rotateBytes > 0 && files.current.Some? && env.size(files.current.value) >= me.rotateBytes;
            files' == files
            && now == me.(at := if full then Choosing(me.at.lock, |files.rotated| + 1) else Ready(me.at.lock))
  {
    FreeIsNext(files.rotated, 1);
  }

  lemma {:induction false} DecideMeans(env: Env, s: State, t: ThreadId)
    requires StageOf(s, t).Inside? && Numbered(s.files.rotated)
    ensures var s', lock := Next(env, s, Decide(t)), StageOf(s, t).lock;
            && s'.locks == s.locks && s'.files == s.files && ThreadOf(s', t).event == ThreadOf(s, t).event
            && StageOf(s', t) == if Full(env, s, t) then Choosing(lock, |s.files.rotated| + 1) else Ready(lock)
  {
    DecideFile(env, s.files, ThreadOf(s, t), Decide(t));
    OwnStep(env, s, Decide(t));
  }

  lemma {:induction false} NoRenameAlone(env: Env, s: State, t: ThreadId, ts: string)
    requires StageOf(s, t).Ready?
    ensures RenameAlone(env, s, t, ts) == s
  {}

  lemma {:induction false} RotateAloneMeans(env: Env, s: State, t: ThreadId, ts: string)
    requires StageOf(s, t).Inside? && Numbered(s.files.rotated)
    ensures RotatedFrom(env, s, RotateAlone(env, s, t, ts), t, ts)
  {
    DecideMeans(env, s, t);
    var decided := Next(env, s, Decide(t));
    if Full(env, s, t) {
      RenameAloneMeans(env, decided, t, ts);
    } else {
      NoRenameAlone(env, decided, t, ts);
    }
  }

  lemma {:induction false} WriteAloneMeans(env: Env, s: State, t: ThreadId)
    requires StageOf(s, t).Ready?
    ensures WrittenFrom(env, s, WriteAlone(env, s, t), t)
  {}

  /** What the sequential append leaves. */
  predicate AppendedFrom(env: Env, s: State, s': State, t: ThreadId, payload: Payload, rotateBytes: int, ts: string) {
    && StageOf(s', t).Idle? && s'.locks.guard == s.locks.guard && s'.locks.owner == s.locks.owner
    && s'.files.written == s.files.written + [payload] && s'.files.current.Some?
    && (s'.files.rotated, s'.files.current.value)
       == AfterAppend(env.h, env.size, env.run, s.files.rotated, s.files.current, payload, rotateBytes, ts)
  }

  lemma PhasesAppend(
    env: Env, s: State, locked: State, rotated: State, done: State, t: ThreadId, payload: Payload, rotateBytes: int,
    ts: string)
    requires Free(s.locks, env.host(t)) && locked == Holding(env, s, t, payload, rotateBytes)
    requires RotatedFrom(env, locked, rotated, t, ts) && WrittenFrom(env, rotated, done, t)
    ensures AppendedFrom(env, s, done, t, payload, rotateBytes, ts)
  {
    var lock := LockOf(s.locks, env.host(t));
    assert s.locks.owner[lock := t] - {lock} == s.locks.owner;
  }

  /** Without interference the protocol does what the sequential append does. */
  lemma AloneIsSequential(env: Env, s: State, t: ThreadId, event: Payload, rotateBytes: int, now: string, ts: string)
    requires StageOf(s, t).Idle? && Free(s.locks, env.host(t)) && Numbered(s.files.rotated)
    ensures var locked := LockAlone(env, s, t, event, rotateBytes, now);
            AppendedFrom(env, s, WriteAlone(env, RotateAlone(env, locked, t, ts), t),
                         t, WithTimestamp(event, now), rotateBytes, ts)
  {
    var locked := LockAlone(env, s, t, event, rotateBytes, now);
    var rotated := RotateAlone(env, locked, t, ts);
    LockAloneMeans(env, s, t, event, rotateBytes, now);
    RotateAloneMeans(env, locked, t, ts);
    WriteAloneMeans(env, rotated, t);
    PhasesAppend(env, s, locked, rotated, WriteAlone(env, rotated, t), t, WithTimestamp(event, now), rotateBytes, ts);
  }

  // ---------------------------------------------------------------- several processes at once

  /** From holding the lock to having read the head of a file that is not rotated. */
  function ReadAlone(env: Env, s: State, t: ThreadId): State {
    Next(env, Next(env, s, Decide(t)), ReadHead(t))
  }

  lemma {:induction false} ReadAloneMeans(env: Env, s: State, t: ThreadId)
    requires StageOf(s, t).Inside? && ThreadOf(s, t).rotateBytes <= 0
    ensures var sealing := Sealing(StageOf(s, t).lock, HeadOf(s.files.Newest()));
            ReadAlone(env, s, t) == s.(threads := s.threads[t := ThreadOf(s, t).(at := sealing)])
  {}

  lemma AddsItsRow(env: Env, s: State, t: ThreadId)
    requires StageOf(s, t).Sealing?
    ensures Next(env, s, Write(t)).files.Newest()
         == s.files.Newest() + [Object(NewRow(env.h, ThreadOf(s, t).event, StageOf(s, t).head))]
  {
    OwnStep(env, s, Write(t));
  }

  /** A write keeps an intact file intact exactly when the row attaches to what the file ends with by then. */
  lemma WriteKeepsFileIff(env: Env, s: State, t: ThreadId)
    requires StageOf(s, t).Sealing? && ChainHolds(env.h, s.files.Newest())
    ensures ChainHolds(env.h, Next(env, s, Write(t)).files.Newest()) <==>
            Attaches(ChainedRows(s.files.Newest()), ThreadOf(s, t).event, StageOf(s, t).head)
  {
    AddsItsRow(env, s, t);
    WriteKeepsChainIff(env.h, s.files.Newest(), ThreadOf(s, t).event, StageOf(s, t).head);
  }

  /** Of two rows written for the head of a missing file the second breaks it. */
  lemma SecondDetached(h: Hash, first: Payload, second: Payload)
    ensures var f := [Object(NewRow(h, first, FRESH))];
            ChainHolds(h, f) && !ChainHolds(h, f + [Object(NewRow(h, second, FRESH))])
  {
    var f := [Object(NewRow(h, first, FRESH))];
    assert [] + f == f && f[..0] == [];
    WriteKeepsChainIff(h, [], first, FRESH);
    assert ChainedRows(f) == [NewRow(h, first, FRESH)];
    WriteKeepsChainIff(h, f, second, FRESH);
  }

  lemma BothWrite(env: Env, s: State, t: ThreadId, u: ThreadId)
    requires t != u && s.files.current.None?
    requires StageOf(s, t).Sealing? && StageOf(s, t).head == FRESH
    requires StageOf(s, u).Sealing? && StageOf(s, u).head == FRESH
    ensures var one := Next(env, s, Write(t));
            && one.files.Newest() == [Object(NewRow(env.h, ThreadOf(s, t).event, FRESH))]
            && Next(env, one, Write(u)).files.Newest()
               == one.files.Newest() + [Object(NewRow(env.h, ThreadOf(s, u).event, FRESH))]
  {
    AddsItsRow(env, s, t);
    OtherThreadStays(env, s, Write(t), u);
    AddsItsRow(env, Next(env, s, Write(t)), u);
  }

  /** Two threads of different processes that have taken their locks and read the head of the missing file. */
  function BothInside(env: Env, t: ThreadId, u: ThreadId, one: Payload, two: Payload, now: string): State {
    LockAlone(env, LockAlone(env, Start([]), t, one, 0, now), u, two, 0, now)
  }

  lemma BothGetIn(env: Env, t: ThreadId, u: ThreadId, one: Payload, two: Payload, now: string)
    requires env.host(t) != env.host(u)
    ensures var s := BothInside(env, t, u, one, two, now);
            && s.files == Start([]).files
            && StageOf(s, t).Inside? && ThreadOf(s, t).rotateBytes == 0
            && StageOf(s, u).Inside? && ThreadOf(s, u).rotateBytes == 0
  {
    var s0 := LockAlone(env, Start([]), t, one, 0, now);
    LockAloneMeans(env, Start([]), t, one, 0, now);
    LockAloneMeans(env, s0, u, two, 0, now);
  }

  /**
   Two processes fork the chain: each takes the lock of its own registry, both read the head of the missing file, and
   both write. After the first row the file is intact, after the second it is not.
   */
  lemma ProcessesCanFork(env: Env, t: ThreadId, u: ThreadId, one: Payload, two: Payload, now: string)
    requires env.host(t) != env.host(u)
    ensures var inside := BothInside(env, t, u, one, two, now);
            var first := Next(env, ReadAlone(env, ReadAlone(env, inside, t), u), Write(t));
            var second := Next(env, first, Write(u));
            ChainHolds(env.h, first.files.Newest()) && !ChainHolds(env.h, second.files.Newest())
  {
    var inside := BothInside(env, t, u, one, two, now);
    BothGetIn(env, t, u, one, two, now);
    ReadAloneMeans(env, inside, t);
    ReadAloneMeans(env, ReadAlone(env, inside, t), u);
    var reading := ReadAlone(env, ReadAlone(env, inside, t), u);
    BothWrite(env, reading, t, u);
    SecondDetached(env.h, ThreadOf(reading, t).event, ThreadOf(reading, u).event);
  }
}
