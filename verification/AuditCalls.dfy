/**
 Whose events the rows of the protocol are: every row written bears the event of a call of its own, made by the thread
 that wrote it.
 */
module AuditCalls {
  import opened Basics
  import opened AuditRows
  import opened AuditLog
  import opened AuditProtocol

  /** The index of the last call that a thread made when it was idle, None when it made none. */
  function LastCall(env: Env, legacy: File, steps: seq<Step>, t: ThreadId): Option<nat> {
    if steps == [] then None else
    var before, step := steps[..|steps| - 1], steps[|steps| - 1];
    if step.Call? && step.t == t && StageOf(Run(env, Start(legacy), before), t).Idle? then Some(|steps| - 1)
    else LastCall(env, legacy, before, t)
  }

  /** The calls whose events were written, in the order of writing. */
  function Sources(env: Env, legacy: File, steps: seq<Step>): seq<nat> {
    if steps == [] then [] else
    var before, step := steps[..|steps| - 1], steps[|steps| - 1];
    var call := LastCall(env, legacy, before, step.t);
    var writes := step.Write? && StageOf(Run(env, Start(legacy), before), step.t).Sealing?;
    Sources(env, legacy, before) + if writes && call.Some? then [call.value] else []
  }

  /** On the way from the call to the write. */
  predicate Carrying(at: Stage) {
    !at.Idle? && !at.Written?
  }

  /** The call `k` is one of thread `t`, and its event is what the payload bears. */
  predicate CallBorne(steps: seq<Step>, k: nat, t: ThreadId, payload: Payload) {
    k < |steps| && steps[k].Call? && steps[k].t == t && Bears(payload, steps[k].event, steps[k].now)
  }

  /** A thread on its way carries the event of its last call, which is not written yet. */
  ghost predicate CarriesCall(env: Env, legacy: File, steps: seq<Step>, t: ThreadId) {
    Carrying(StageOf(Run(env, Start(legacy), steps), t)) ==>
      var call := LastCall(env, legacy, steps, t);
      && call.Some? && call.value !in Sources(env, legacy, steps)
      && CallBorne(steps, call.value, t, ThreadOf(Run(env, Start(legacy), steps), t).event)
  }

  /** Payload `i` of those written is borne by source `i`. */
  ghost predicate SourcesBorne(steps: seq<Step>, sources: seq<nat>, written: seq<Payload>) {
    && |sources| == |written|
    && forall i :: 0 <= i < |written| ==>
         sources[i] < |steps| && CallBorne(steps, sources[i], steps[sources[i]].t, written[i])
  }

  predicate AllDifferent(ks: seq<nat>) {
    forall i, j :: 0 <= i < j < |ks| ==> ks[i] != ks[j]
  }

  lemma LastCallIsOwn(env: Env, legacy: File, steps: seq<Step>, t: ThreadId)
    ensures var call := LastCall(env, legacy, steps, t);
            call.Some? ==> call.value < |steps| && steps[call.value].Call? && steps[call.value].t == t
  {
    if steps != [] { LastCallIsOwn(env, legacy, steps[..|steps| - 1], t); }
  }

  lemma SourcesAreBefore(env: Env, legacy: File, steps: seq<Step>)
    ensures forall i :: 0 <= i < |Sources(env, legacy, steps)| ==> Sources(env, legacy, steps)[i] < |steps|
  {
    if steps != [] {
      SourcesAreBefore(env, legacy, steps[..|steps| - 1]);
      LastCallIsOwn(env, legacy, steps[..|steps| - 1], steps[|steps| - 1].t);
    }
  }

  /** What a step does to its own thread, as far as its event goes. */
  lemma OwnEvent(env: Env, s: State, step: Step)
    ensures var me, now := ThreadOf(s, step.t), ThreadOf(Next(env, s, step), step.t);
            if step.Call? && me.at.Idle? then now.at.Called? && Bears(now.event, step.event, step.now)
            else now.event == me.event && (Carrying(now.at) ==> Carrying(me.at))
                 && (step.Write? && me.at.Sealing? ==> !Carrying(now.at))
  {
    OwnStep(env, s, step);
    if Registers(step) {
      RegisterEvent(env.host(step.t), s.locks, ThreadOf(s, step.t), step);
    } else {
      FileEvent(env, s.files, ThreadOf(s, step.t), step);
    }
  }

  lemma RegisterEvent(p: ProcessId, locks: Locks, me: Thread, step: Step)
    requires Registers(step)
    ensures var now := NextLock(p, locks, me, step).1;
            if step.Call? && me.at.Idle? then now.at.Called? && Bears(now.event, step.event, step.now)
            else now.event == me.event && (Carrying(now.at) ==> Carrying(me.at))
  {
    if step.Call? { TimestampBears(step.event, step.now); }
  }

  lemma FileEvent(env: Env, files: Files, me: Thread, step: Step)
    requires !Registers(step)
    ensures var (files', now) := NextFile(env, files, me, step);
            && now.event == me.event && (Carrying(now.at) ==> Carrying(me.at))
            && (step.Write? && me.at.Sealing? ==> !Carrying(now.at))
            && files'.written == if step.Write? && me.at.Sealing? then files.written + [me.event] else files.written
  {}

  /** What a step adds to what was written. */
  lemma WrittenNext(env: Env, s: State, step: Step)
    ensures Next(env, s, step).files.written ==
            s.files.written + if step.Write? && StageOf(s, step.t).Sealing? then [ThreadOf(s, step.t).event] else []
  {
    OwnStep(env, s, step);
    if !Registers(step) { FileEvent(env, s.files, ThreadOf(s, step.t), step); }
  }

  lemma CallBorneLater(steps: seq<Step>, k: nat, t: ThreadId, payload: Payload)
    requires steps != [] && CallBorne(steps[..|steps| - 1], k, t, payload)
    ensures CallBorne(steps, k, t, payload)
  {}

  /** The thread that steps carries its call on, or a new one, or none. */
  lemma SelfCarries(env: Env, legacy: File, steps: seq<Step>)
    requires steps != []
    requires CarriesCall(env, legacy, steps[..|steps| - 1], steps[|steps| - 1].t)
    ensures CarriesCall(env, legacy, steps, steps[|steps| - 1].t)
  {
    var before, step := steps[..|steps| - 1], steps[|steps| - 1];
    var s := Run(env, Start(legacy), before);
    OwnEvent(env, s, step);
    SourcesAreBefore(env, legacy, before);
    if !(step.Call? && StageOf(s, step.t).Idle?) && Carrying(StageOf(Next(env, s, step), step.t)) {
      CallBorneLater(steps, LastCall(env, legacy, before, step.t).value, step.t, ThreadOf(s, step.t).event);
    }
  }

  /** The others carry theirs on: no thread writes the call of another. */
  lemma OtherCarries(env: Env, legacy: File, steps: seq<Step>, u: ThreadId)
    requires steps != [] && u != steps[|steps| - 1].t && CarriesCall(env, legacy, steps[..|steps| - 1], u)
    ensures CarriesCall(env, legacy, steps, u)
  {
    var before, step := steps[..|steps| - 1], steps[|steps| - 1];
    var s := Run(env, Start(legacy), before);
    OtherThreadStays(env, s, step, u);
    LastCallIsOwn(env, legacy, before, u);
    LastCallIsOwn(env, legacy, before, step.t);
    if Carrying(StageOf(s, u)) {
      CallBorneLater(steps, LastCall(env, legacy, before, u).value, u, ThreadOf(s, u).event);
    }
  }

  lemma {:induction false} ThreadsCarryCalls(env: Env, legacy: File, steps: seq<Step>, t: ThreadId)
    ensures CarriesCall(env, legacy, steps, t)
  {
    if steps != [] {
      ThreadsCarryCalls(env, legacy, steps[..|steps| - 1], t);
      if t == steps[|steps| - 1].t {
        SelfCarries(env, legacy, steps);
      } else {
        OtherCarries(env, legacy, steps, t);
      }
    }
  }

  /**
   In every run of any processes, errors included, every event written is that of a call of its own: payload `i` has
   every key of the event of call `Sources[i]`, with the caller's value, gets a time exactly if that event had none, and
   has no other key; and no call is written twice.
   */
  lemma {:induction false} EveryRowHasItsCall(env: Env, legacy: File, steps: seq<Step>)
    ensures var sources := Sources(env, legacy, steps);
            && AllDifferent(sources)
            && SourcesBorne(steps, sources, Run(env, Start(legacy), steps).files.written)
  {
    if steps != [] {
      var before, step := steps[..|steps| - 1], steps[|steps| - 1];
      var s := Run(env, Start(legacy), before);
      EveryRowHasItsCall(env, legacy, before);
      ThreadsCarryCalls(env, legacy, before, step.t);
      WrittenNext(env, s, step);
      BorneLater(steps, Sources(env, legacy, before), s.files.written);
    }
  }

  lemma BorneLater(steps: seq<Step>, sources: seq<nat>, written: seq<Payload>)
    requires steps != [] && SourcesBorne(steps[..|steps| - 1], sources, written)
    ensures SourcesBorne(steps, sources, written)
  {
    forall i | 0 <= i < |written|
      ensures sources[i] < |steps| && CallBorne(steps, sources[i], steps[sources[i]].t, written[i])
    {
      CallBorneLater(steps, sources[i], steps[..|steps| - 1][sources[i]].t, written[i]);
    }
  }
}
