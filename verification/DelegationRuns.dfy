/**
 Runs of granting and revoking by any number of processes. Every operation is a load, a decision and a save, and
 other processes may do theirs in between; the clock never goes back.
 */
module DelegationRuns {
  import opened Basics
  import opened Texts
  import opened Delegations

  // ---------------------------------------------------------------- the graph of active delegations

  /** Some active delegation leads from `a` to `b`. */
  ghost predicate Edge(fold: Fold, items: seq<Delegation>, t: int, a: string, b: string) {
    exists k: nat :: EdgeAt(fold, items, t, a, b, k)
  }

  predicate EdgeAt(fold: Fold, items: seq<Delegation>, t: int, a: string, b: string, k: nat) {
    && k < |items| && Active(items[k], t)
    && Norm(fold, items[k].fromActor) == a && Norm(fold, items[k].toActor) == b
  }

  /** The actors in turn, each delegating to the next. */
  ghost predicate Walk(fold: Fold, items: seq<Delegation>, t: int, actors: seq<string>) {
    forall k, l :: 0 <= k && l == k + 1 && l < |actors| ==> Edge(fold, items, t, actors[k], actors[l])
  }

  /** No actor delegates to itself, directly or through any number of others. */
  ghost predicate Acyclic(fold: Fold, items: seq<Delegation>, t: int) {
    forall actors: seq<string> :: |actors| >= 2 && actors[0] == actors[|actors| - 1] ==> !Walk(fold, items, t, actors)
  }

  /** No active delegation starts where another active one ends. */
  ghost predicate ChainFree(fold: Fold, items: seq<Delegation>, t: int) {
    forall i, j :: 0 <= i < |items| && 0 <= j < |items| && Active(items[i], t) && Active(items[j], t) ==>
      Norm(fold, items[i].toActor) != Norm(fold, items[j].fromActor)
  }

  /** What the checks keep true: no active item ends where itself or a later active item starts. */
  ghost predicate Ordered(fold: Fold, items: seq<Delegation>, t: int) {
    forall i, j :: 0 <= i <= j < |items| && Active(items[i], t) && Active(items[j], t) ==>
      Norm(fold, items[i].toActor) != Norm(fold, items[j].fromActor)
  }

  /** Two active grants for one pair of actors are for different scopes. */
  ghost predicate ScopesApart(fold: Fold, items: seq<Delegation>, t: int) {
    forall i, j ::
      0 <= i < j < |items| && Active(items[i], t) && Active(items[j], t) && SamePair(fold, items[i], items[j]) ==>
        && Present(items[i].scope) && Present(items[j].scope)
        && Norm(fold, items[i].scope.value) != Norm(fold, items[j].scope.value)
  }

  /** Along a walk the positions of the delegations taken go down. */
  lemma {:induction false} WalkDescends(
    fold: Fold, items: seq<Delegation>, t: int, actors: seq<string>, n: nat, first: nat, last: nat)
    requires Ordered(fold, items, t) && Walk(fold, items, t, actors)
    requires 1 <= n < |actors|
    requires EdgeAt(fold, items, t, actors[0], actors[1], first)
    requires EdgeAt(fold, items, t, actors[n - 1], actors[n], last)
    requires n > 1 || last == first
    ensures last <= first
  {
    if n > 1 {
      assert Edge(fold, items, t, actors[n - 2], actors[n - 1]);
      var before: nat :=
        if n == 2 then first else (var k: nat :| EdgeAt(fold, items, t, actors[n - 2], actors[n - 1], k); k);
      WalkDescends(fold, items, t, actors, n - 1, first, before);
      assert !(before <= last);
    }
  }

  lemma {:induction false} OrderedIsAcyclic(fold: Fold, items: seq<Delegation>, t: int)
    requires Ordered(fold, items, t)
    ensures Acyclic(fold, items, t)
  {
    forall actors: seq<string> | |actors| >= 2 && actors[0] == actors[|actors| - 1]
      ensures !Walk(fold, items, t, actors)
    {
      if Walk(fold, items, t, actors) {
        var n := |actors| - 1;
        assert Edge(fold, items, t, actors[0], actors[1]) && Edge(fold, items, t, actors[n - 1], actors[n]);
        var first: nat :| EdgeAt(fold, items, t, actors[0], actors[1], first);
        assert n > 1;
        var last: nat :| EdgeAt(fold, items, t, actors[n - 1], actors[n], last);
        WalkDescends(fold, items, t, actors, n, first, last);
        assert false;
      }
    }
  }

  // ---------------------------------------------------------------- one operation

  /** Later is no worse: items only ever stop being active. */
  lemma LaterStillOrdered(fold: Fold, items: seq<Delegation>, t: int, u: int)
    requires t <= u
    ensures Ordered(fold, items, t) ==> Ordered(fold, items, u)
    ensures ScopesApart(fold, items, t) ==> ScopesApart(fold, items, u)
  {}

  lemma {:induction false} LoadKeepsOrder(fold: Fold, disk: seq<Delegation>, t: int)
    requires Ordered(fold, disk, t)
    ensures Ordered(fold, Load(disk), t)
  {
    var items := Load(disk);
    forall i, j | 0 <= i <= j < |items| && Active(items[i], t) && Active(items[j], t)
      ensures Norm(fold, items[i].toActor) != Norm(fold, items[j].fromActor)
    {
      assert Active(disk[i], t) && Active(disk[j], t);
    }
  }

  /** An accepted request keeps the order, even when the clock moved on after its check. */
  lemma {:induction false} AddKeepsOrder(
    fold: Fold, items: seq<Delegation>, req: Request, stamp: int, id: string, t: int)
    requires Ordered(fold, items, t) && stamp <= t && Decide(fold, items, req, stamp, id).Ok?
    ensures Ordered(fold, items + [Decide(fold, items, req, stamp, id).value], t)
  {
    var entry := Entry(req, stamp, id);
    NoConflict(fold, items, entry, stamp);
    forall i | 0 <= i < |items| && Active(items[i], t)
      ensures Norm(fold, items[i].toActor) != Norm(fold, entry.fromActor)
    {
      assert Conflict(fold, items[i], entry, stamp).None?;
    }
  }

  lemma {:induction false} RevokeKeepsOrder(fold: Fold, items: seq<Delegation>, id: string, t: int)
    ensures Ordered(fold, items, t) ==> Ordered(fold, Revoked(items, id), t)
    ensures ScopesApart(fold, items, t) ==> ScopesApart(fold, Revoked(items, id), t)
  {
    var after := Revoked(items, id);
    assert |after| == |items|;
    forall i | 0 <= i < |items| ensures Active(after[i], t) ==> after[i] == items[i] {}
  }

  /** A scope of blanks only: neither absent nor a name. */
  predicate BlankScope(req: Request) {
    Present(req.scope) && Strip(req.scope.value) == ""
  }

  /** Some active item grants the same pair of actors a scope. */
  ghost predicate ScopedRival(fold: Fold, items: seq<Delegation>, entry: Delegation, t: int) {
    exists i :: 0 <= i < |items| && Active(items[i], t) && SamePair(fold, items[i], entry)
  }

  /**
   An accepted request keeps the scopes of a pair apart exactly when it does not add, with a scope of blanks, an
   active grant beside an active one for the same pair.
   */
  lemma {:induction false} AddKeepsScopesApartIff(
    fold: Fold, items: seq<Delegation>, req: Request, stamp: int, id: string, t: int)
    requires ScopesApart(fold, items, t) && stamp <= t && Decide(fold, items, req, stamp, id).Ok?
    requires forall k :: 0 <= k < |items| ==> Reload(items[k]) == items[k]
    ensures var entry := Decide(fold, items, req, stamp, id).value;
            ScopesApart(fold, items + [entry], t) <==>
            !(BlankScope(req) && Active(entry, t) && ScopedRival(fold, items, entry, t))
  {
    var entry := Entry(req, stamp, id);
    var after := items + [entry];
    NoConflict(fold, items, entry, stamp);
    if BlankScope(req) && Active(entry, t) && ScopedRival(fold, items, entry, t) {
      var i :| 0 <= i < |items| && Active(items[i], t) && SamePair(fold, items[i], entry);
      assert after[i] == items[i] && after[|items|] == entry;
      assert !Present(entry.scope);
    } else {
      forall i, j |
        0 <= i < j < |after| && Active(after[i], t) && Active(after[j], t) && SamePair(fold, after[i], after[j])
        ensures Present(after[i].scope) && Present(after[j].scope)
             && Norm(fold, after[i].scope.value) != Norm(fold, after[j].scope.value)
      {
        if j == |items| {
          assert Conflict(fold, items[i], entry, stamp).None?;
          assert !BlankScope(req);
        }
      }
    }
  }

  /** Beside a grant of scope `x` a scope of blanks is accepted, and the two active grants are not kept apart. */
  lemma BlankScopeIsAccepted(fold: Fold)
    requires fold("a") != fold("b")
    ensures var item := Delegation("1", "a", "b", Some(SECOND), Some("x"), false, 0);
            var r := Decide(fold, [item], Request("a", "b", Some(SECOND), Some(" ")), 0, "2");
            r.Ok? && ScopesApart(fold, [item], 0) && !ScopesApart(fold, [item, r.value], 0)
  {
    var item := Delegation("1", "a", "b", Some(SECOND), Some("x"), false, 0);
    var req := Request("a", "b", Some(SECOND), Some(" "));
    StripTrims("a");
    StripTrims("b");
    assert Strip(" ") == "" by { assert TrimLeft(" ") == TrimLeft([]) == []; }
    NoConflict(fold, [item], Entry(req, 0, "2"), 0);
    var entry := Decide(fold, [item], req, 0, "2").value;
    var items := [item, entry];
    assert FormatClock(SECOND) == SECOND;
    assert items[0] == item && items[1] == entry && Active(item, 0) && Active(entry, 0) && SamePair(fold, item, entry);
  }

  /** The actor gives no active delegation. */
  ghost predicate GivesNothing(fold: Fold, items: seq<Delegation>, actor: string, t: int) {
    forall i :: 0 <= i < |items| && Active(items[i], t) ==> Norm(fold, items[i].fromActor) != Norm(fold, actor)
  }

  /**
   Chains. A request whose delegator already receives a delegation is refused, but one whose delegate already gives
   one is not: an accepted request leaves the active delegations free of chains exactly when it is no longer active
   once its time is stored, or its delegate gives no active delegation.
   */
  lemma {:induction false} AddKeepsChainFreeIff(
    fold: Fold, items: seq<Delegation>, req: Request, stamp: int, id: string)
    requires ChainFree(fold, items, stamp) && Decide(fold, items, req, stamp, id).Ok?
    ensures var entry := Decide(fold, items, req, stamp, id).value;
            ChainFree(fold, items + [entry], stamp) <==>
            FormatClock(req.until.value) <= stamp || GivesNothing(fold, items, entry.toActor, stamp)
  {
    var entry := Entry(req, stamp, id);
    var after := items + [entry];
    NoConflict(fold, items, entry, stamp);
    assert after[|items|] == entry && forall i :: 0 <= i < |items| ==> after[i] == items[i];
    if FormatClock(req.until.value) <= stamp || GivesNothing(fold, items, entry.toActor, stamp) {
      forall i, j | 0 <= i < |after| && 0 <= j < |after| && Active(after[i], stamp) && Active(after[j], stamp)
        ensures Norm(fold, after[i].toActor) != Norm(fold, after[j].fromActor)
      {
        if i < |items| && j == |items| {
          assert Conflict(fold, items[i], entry, stamp).None?;
        }
      }
    }
  }

  lemma FirstGrantIsAccepted(fold: Fold, req: Request, id: string)
    requires OwnRefusal(fold, req, 0).None?
    ensures Decide(fold, [], req, 0, id) == Ok(Entry(req, 0, id))
    ensures Load([Entry(req, 0, id)]) == [Reload(Entry(req, 0, id))]
  {
    assert [Entry(req, 0, id)][1..] == [];
  }

  lemma SecondGrantIsAccepted(fold: Fold, item: Delegation, req: Request, id: string)
    requires OwnRefusal(fold, req, 0).None? && Conflict(fold, item, Entry(req, 0, id), 0).None?
    ensures Decide(fold, [item], req, 0, id) == Ok(Entry(req, 0, id))
  {
    NoConflict(fold, [item], Entry(req, 0, id), 0);
  }

  lemma MakesAChain(fold: Fold, a: Delegation, b: Delegation)
    requires Active(a, 0) && Active(b, 0) && Norm(fold, b.toActor) == Norm(fold, a.fromActor)
    ensures !ChainFree(fold, [a, b], 0)
  {
    assert [a, b][0] == a && [a, b][1] == b;
  }

  lemma PlainRequest(fold: Fold, a: string, b: string)
    requires a != "" && Trimmed(a) && b != "" && Trimmed(b) && fold(a) != fold(b)
    ensures var req := Request(a, b, Some(SECOND), None);
            OwnRefusal(fold, req, 0).None? && Norm(fold, a) == fold(a) && Norm(fold, b) == fold(b)
            && forall id :: Entry(req, 0, id) == Delegation(id, a, b, Some(SECOND), None, false, 0)
  {
    StripTrims(a);
    StripTrims(b);
  }

  lemma SecondHop(fold: Fold, item: Delegation, req: Request, id: string)
    requires OwnRefusal(fold, req, 0).None? && Norm(fold, item.toActor) != Norm(fold, Strip(req.fromActor))
    requires Norm(fold, item.fromActor) != Norm(fold, Strip(req.fromActor))
    ensures Decide(fold, [item], req, 0, id) == Ok(Entry(req, 0, id))
  {
    SecondGrantIsAccepted(fold, item, req, id);
  }

  /** First bob delegates to carol, then alice to bob: both are accepted, and alice's delegation reaches carol. */
  lemma TwoHopsAreAccepted(fold: Fold)
    requires fold("alice") != fold("bob") && fold("bob") != fold("carol") && fold("carol") != fold("alice")
    ensures var first := Request("bob", "carol", Some(SECOND), None);
            var second := Request("alice", "bob", Some(SECOND), None);
            var one := Decide(fold, [], first, 0, "1");
            one.Ok? &&
            var two := Decide(fold, Load([one.value]), second, 0, "2");
            two.Ok? && !ChainFree(fold, [one.value, two.value], 0)
  {
    var first, second := Request("bob", "carol", Some(SECOND), None), Request("alice", "bob", Some(SECOND), None);
    PlainRequest(fold, "bob", "carol");
    PlainRequest(fold, "alice", "bob");
    FirstGrantIsAccepted(fold, first, "1");
    SecondHop(fold, Entry(first, 0, "1"), second, "2");
    MakesAChain(fold, Entry(first, 0, "1"), Entry(second, 0, "2"));
  }

  // ---------------------------------------------------------------- any number of processes

  type ProcessId = nat

  /** What a process is in the middle of: a request with the time it was stamped, or a loaded copy of the store. */
  datatype Process =
    | Resting
    | Asked(req: Request, stamp: int)
    | Checking(req: Request, stamp: int, loaded: seq<Delegation>)
    | Revoking(id: string, loaded: seq<Delegation>)

  datatype State = State(disk: seq<Delegation>, clock: int, processes: map<ProcessId, Process>)

  datatype Step =
    | Tick(amount: nat)
    | Ask(p: ProcessId, req: Request)
    | LoadToAdd(p: ProcessId)
    | SaveAdded(p: ProcessId, id: string)
    | LoadToRevoke(p: ProcessId, id: string)
    | SaveRevoked(p: ProcessId)

  function ProcessOf(s: State, p: ProcessId): Process {
    if p in s.processes then s.processes[p] else Resting
  }

  /** What becomes of the process that takes a step. */
  function NextProcess(disk: seq<Delegation>, clock: int, me: Process, step: Step): Process
    requires !step.Tick?
  {
    match step
    case Ask(_, req) => if me.Resting? then Asked(req, clock) else me
    case LoadToAdd(_) => if me.Asked? then Checking(me.req, me.stamp, Load(disk)) else me
    case SaveAdded(_, _) => if me.Checking? then Resting else me
    case LoadToRevoke(_, id) => if me.Resting? then Revoking(Strip(id), Load(disk)) else me
    case SaveRevoked(_) => if me.Revoking? then Resting else me
  }

  /** What becomes of the store. */
  function NextDisk(fold: Fold, disk: seq<Delegation>, me: Process, step: Step): seq<Delegation> {
    match step
    case SaveAdded(_, id) =>
      if !me.Checking? then disk else
      var r := Decide(fold, me.loaded, me.req, me.stamp, id);
      if r.Ok? then me.loaded + [r.value] else disk
    case SaveRevoked(_) =>
      if me.Revoking? && IndexOf(me.loaded, me.id).Some? then Revoked(me.loaded, me.id) else disk
    case _ => disk
  }

  /** A step that is not enabled changes nothing. */
  function Next(fold: Fold, s: State, step: Step): State {
    if step.Tick? then s.(clock := s.clock + step.amount) else
    var me := ProcessOf(s, step.p);
    State(NextDisk(fold, s.disk, me, step), s.clock, s.processes[step.p := NextProcess(s.disk, s.clock, me, step)])
  }

  lemma Moves(fold: Fold, s: State, step: Step, p: ProcessId)
    requires !step.Tick?
    ensures ProcessOf(Next(fold, s, step), p)
         == if p == step.p then NextProcess(s.disk, s.clock, ProcessOf(s, p), step) else ProcessOf(s, p)
  {}

  function Run(fold: Fold, s: State, steps: seq<Step>): State {
    if steps == [] then s else Next(fold, Run(fold, s, steps[..|steps| - 1]), steps[|steps| - 1])
  }

  function LoadedBy(me: Process): seq<Delegation> {
    if me.Checking? || me.Revoking? then me.loaded else []
  }

  predicate StampedInThePast(me: Process, clock: int) {
    me.Asked? || me.Checking? ==> me.stamp <= clock
  }

  /** The store and every loaded copy are in order now. */
  ghost predicate InOrder(fold: Fold, s: State) {
    && Ordered(fold, s.disk, s.clock)
    && (forall p :: StampedInThePast(ProcessOf(s, p), s.clock))
    && (forall p :: Ordered(fold, LoadedBy(ProcessOf(s, p)), s.clock))
  }

  lemma {:induction false} DiskInOrder(fold: Fold, disk: seq<Delegation>, clock: int, me: Process, step: Step)
    requires Ordered(fold, disk, clock) && StampedInThePast(me, clock) && Ordered(fold, LoadedBy(me), clock)
    ensures Ordered(fold, NextDisk(fold, disk, me, step), clock)
  {
    if step.SaveAdded? && me.Checking? {
      if Decide(fold, me.loaded, me.req, me.stamp, step.id).Ok? {
        AddKeepsOrder(fold, me.loaded, me.req, me.stamp, step.id, clock);
      }
    } else if step.SaveRevoked? && me.Revoking? {
      RevokeKeepsOrder(fold, me.loaded, me.id, clock);
    }
  }

  lemma {:induction false} CopyInOrder(fold: Fold, disk: seq<Delegation>, clock: int, me: Process, step: Step)
    requires !step.Tick? && Ordered(fold, disk, clock)
    requires StampedInThePast(me, clock) && Ordered(fold, LoadedBy(me), clock)
    ensures var now := NextProcess(disk, clock, me, step);
            StampedInThePast(now, clock) && Ordered(fold, LoadedBy(now), clock)
  {
    LoadKeepsOrder(fold, disk, clock);
  }

  lemma {:induction false} TickKeepsInOrder(fold: Fold, s: State, amount: nat)
    requires InOrder(fold, s)
    ensures InOrder(fold, s.(clock := s.clock + amount))
  {
    var later := s.(clock := s.clock + amount);
    LaterStillOrdered(fold, s.disk, s.clock, later.clock);
    forall p ensures StampedInThePast(ProcessOf(later, p), later.clock)
                  && Ordered(fold, LoadedBy(ProcessOf(later, p)), later.clock)
    {
      assert ProcessOf(later, p) == ProcessOf(s, p);
      assert StampedInThePast(ProcessOf(s, p), s.clock) && Ordered(fold, LoadedBy(ProcessOf(s, p)), s.clock);
      LaterStillOrdered(fold, LoadedBy(ProcessOf(s, p)), s.clock, later.clock);
    }
  }

  lemma {:induction false} StepKeepsInOrder(fold: Fold, s: State, step: Step)
    requires InOrder(fold, s)
    ensures InOrder(fold, Next(fold, s, step))
  {
    if step.Tick? {
      TickKeepsInOrder(fold, s, step.amount);
    } else {
      var s', me := Next(fold, s, step), ProcessOf(s, step.p);
      assert StampedInThePast(me, s.clock) && Ordered(fold, LoadedBy(me), s.clock);
      DiskInOrder(fold, s.disk, s.clock, me, step);
      forall p
        ensures StampedInThePast(ProcessOf(s', p), s.clock) && Ordered(fold, LoadedBy(ProcessOf(s', p)), s.clock)
      {
        Moves(fold, s, step, p);
        assert StampedInThePast(ProcessOf(s, p), s.clock) && Ordered(fold, LoadedBy(ProcessOf(s, p)), s.clock);
        if p == step.p { CopyInOrder(fold, s.disk, s.clock, me, step); }
      }
    }
  }

  lemma {:induction false} RunKeepsInOrder(fold: Fold, s: State, steps: seq<Step>)
    requires InOrder(fold, s)
    ensures InOrder(fold, Run(fold, s, steps))
  {
    if steps != [] {
      RunKeepsInOrder(fold, s, steps[..|steps| - 1]);
      StepKeepsInOrder(fold, Run(fold, s, steps[..|steps| - 1]), steps[|steps| - 1]);
    }
  }

  function Empty(clock: int): State {
    State([], clock, map[])
  }

  /**
   At every moment of every run, however the loads and saves of different processes interleave, the active
   delegations have no cycle of any length, now or at any later time.
   */
  lemma NeverCyclic(fold: Fold, clock: int, steps: seq<Step>, t: int)
    requires t >= Run(fold, Empty(clock), steps).clock
    ensures Acyclic(fold, Run(fold, Empty(clock), steps).disk, t)
  {
    RunKeepsInOrder(fold, Empty(clock), steps);
    var s := Run(fold, Empty(clock), steps);
    LaterStillOrdered(fold, s.disk, s.clock, t);
    OrderedIsAcyclic(fold, s.disk, t);
  }

  // ---------------------------------------------------------------- scopes over whole runs

  predicate Plain(items: seq<Delegation>) {
    forall k :: 0 <= k < |items| ==> Reload(items[k]) == items[k]
  }

  /** No request was made with a scope of blanks. */
  predicate NoBlankScopes(steps: seq<Step>) {
    forall k :: 0 <= k < |steps| && steps[k].Ask? ==> !BlankScope(steps[k].req)
  }

  predicate RequestNamed(me: Process) {
    me.Asked? || me.Checking? ==> !BlankScope(me.req)
  }

  ghost predicate Apart(fold: Fold, items: seq<Delegation>, t: int) {
    Plain(items) && ScopesApart(fold, items, t)
  }

  ghost predicate AllApart(fold: Fold, s: State) {
    && Apart(fold, s.disk, s.clock)
    && (forall p :: RequestNamed(ProcessOf(s, p)))
    && (forall p :: Apart(fold, LoadedBy(ProcessOf(s, p)), s.clock))
  }

  lemma {:induction false} RevokeKeepsPlain(items: seq<Delegation>, id: string)
    requires Plain(items)
    ensures Plain(Revoked(items, id))
  {
    var after := Revoked(items, id);
    forall k | 0 <= k < |after| ensures Reload(after[k]) == after[k] {
      assert Reload(items[k]) == items[k];
    }
  }

  lemma {:induction false} DiskApart(fold: Fold, disk: seq<Delegation>, clock: int, me: Process, step: Step)
    requires Apart(fold, disk, clock)
    requires RequestNamed(me) && StampedInThePast(me, clock) && Apart(fold, LoadedBy(me), clock)
    ensures Apart(fold, NextDisk(fold, disk, me, step), clock)
  {
    if step.SaveAdded? && me.Checking? {
      if Decide(fold, me.loaded, me.req, me.stamp, step.id).Ok? {
        AddKeepsScopesApartIff(fold, me.loaded, me.req, me.stamp, step.id, clock);
      }
    } else if step.SaveRevoked? && me.Revoking? {
      RevokeKeepsOrder(fold, me.loaded, me.id, clock);
      RevokeKeepsPlain(me.loaded, me.id);
    }
  }

  lemma {:induction false} CopyApart(fold: Fold, disk: seq<Delegation>, clock: int, me: Process, step: Step)
    requires !step.Tick? && Apart(fold, disk, clock) && (step.Ask? ==> !BlankScope(step.req))
    requires RequestNamed(me) && Apart(fold, LoadedBy(me), clock)
    ensures var now := NextProcess(disk, clock, me, step); RequestNamed(now) && Apart(fold, LoadedBy(now), clock)
  {
    assert Load(disk) == disk;
  }

  lemma {:induction false} TickKeepsApart(fold: Fold, s: State, amount: nat)
    requires AllApart(fold, s)
    ensures AllApart(fold, s.(clock := s.clock + amount))
  {
    var later := s.(clock := s.clock + amount);
    LaterStillOrdered(fold, s.disk, s.clock, later.clock);
    forall p ensures RequestNamed(ProcessOf(later, p)) && Apart(fold, LoadedBy(ProcessOf(later, p)), later.clock) {
      assert ProcessOf(later, p) == ProcessOf(s, p);
      assert RequestNamed(ProcessOf(s, p)) && Apart(fold, LoadedBy(ProcessOf(s, p)), s.clock);
      LaterStillOrdered(fold, LoadedBy(ProcessOf(s, p)), s.clock, later.clock);
    }
  }

  lemma {:induction false} StepKeepsApart(fold: Fold, s: State, step: Step)
    requires AllApart(fold, s) && (forall p :: StampedInThePast(ProcessOf(s, p), s.clock))
    requires step.Ask? ==> !BlankScope(step.req)
    ensures AllApart(fold, Next(fold, s, step))
  {
    if step.Tick? {
      TickKeepsApart(fold, s, step.amount);
    } else {
      var s', me := Next(fold, s, step), ProcessOf(s, step.p);
      assert RequestNamed(me) && StampedInThePast(me, s.clock) && Apart(fold, LoadedBy(me), s.clock);
      DiskApart(fold, s.disk, s.clock, me, step);
      forall p ensures RequestNamed(ProcessOf(s', p)) && Apart(fold, LoadedBy(ProcessOf(s', p)), s.clock) {
        Moves(fold, s, step, p);
        assert RequestNamed(ProcessOf(s, p)) && Apart(fold, LoadedBy(ProcessOf(s, p)), s.clock);
        if p == step.p { CopyApart(fold, s.disk, s.clock, me, step); }
      }
    }
  }

  /**
   At every moment of every run without scopes of blanks, two active delegations for one pair of actors both carry a
   scope, and the scopes differ after normalising.
   */
  lemma {:induction false} NeverOverlapping(fold: Fold, clock: int, steps: seq<Step>)
    requires NoBlankScopes(steps)
    ensures AllApart(fold, Run(fold, Empty(clock), steps))
  {
    if steps != [] {
      var before := steps[..|steps| - 1];
      NeverOverlapping(fold, clock, before);
      RunKeepsInOrder(fold, Empty(clock), before);
      StepKeepsApart(fold, Run(fold, Empty(clock), before), steps[|steps| - 1]);
    }
  }

  // ---------------------------------------------------------------- revocation

  /** The stored item with this id, if there is one, is revoked. */
  predicate IsRevoked(items: seq<Delegation>, id: string) {
    forall k :: 0 <= k < |items| && items[k].id == id ==> items[k].revoked
  }

  /** Neither the store nor any loaded copy holds the item unrevoked. */
  ghost predicate RevokedEverywhere(s: State, id: string) {
    && IsRevoked(s.disk, id)
    && (forall p :: IsRevoked(LoadedBy(ProcessOf(s, p)), id))
  }

  lemma {:induction false} RevokeKeepsRevoked(items: seq<Delegation>, id: string, other: string)
    requires IsRevoked(items, id)
    ensures IsRevoked(Revoked(items, other), id)
  {
    var after := Revoked(items, other);
    forall k | 0 <= k < |after| && after[k].id == id ensures after[k].revoked {
      assert items[k].id == id;
    }
  }

  lemma {:induction false} LoadKeepsRevoked(disk: seq<Delegation>, id: string)
    requires IsRevoked(disk, id)
    ensures IsRevoked(Load(disk), id)
  {
    forall k | 0 <= k < |Load(disk)| && Load(disk)[k].id == id ensures Load(disk)[k].revoked {
      assert disk[k].id == id;
    }
  }

  lemma {:induction false} DiskRevoked(fold: Fold, disk: seq<Delegation>, me: Process, step: Step, id: string)
    requires IsRevoked(disk, id) && IsRevoked(LoadedBy(me), id) && (step.SaveAdded? ==> step.id != id)
    ensures IsRevoked(NextDisk(fold, disk, me, step), id)
  {
    if me.Revoking? { RevokeKeepsRevoked(me.loaded, id, me.id); }
  }

  lemma {:induction false} StepKeepsRevoked(fold: Fold, s: State, step: Step, id: string)
    requires RevokedEverywhere(s, id) && (step.SaveAdded? ==> step.id != id)
    ensures RevokedEverywhere(Next(fold, s, step), id)
  {
    var s' := Next(fold, s, step);
    LoadKeepsRevoked(s.disk, id);
    if !step.Tick? {
      assert IsRevoked(LoadedBy(ProcessOf(s, step.p)), id);
      DiskRevoked(fold, s.disk, ProcessOf(s, step.p), step, id);
    }
    forall p ensures IsRevoked(LoadedBy(ProcessOf(s', p)), id) {
      assert IsRevoked(LoadedBy(ProcessOf(s, p)), id);
      if !step.Tick? { Moves(fold, s, step, p); }
    }
  }

  /** What a process would store if it saved now; None when it would not save. */
  function PendingSave(fold: Fold, me: Process): Option<seq<Delegation>> {
    match me
    case Checking(req, stamp, loaded) => if Decide(fold, loaded, req, stamp, "").Ok? then Some(loaded) else None
    case Revoking(id, loaded) => if IndexOf(loaded, id).Some? then Some(Revoked(loaded, id)) else None
    case _ => None
  }

  /** No item with this id is active. */
  predicate NoneActive(items: seq<Delegation>, id: string, t: int) {
    forall k :: 0 <= k < |items| && items[k].id == id ==> !Active(items[k], t)
  }

  predicate PendingInactive(fold: Fold, me: Process, id: string, t: int) {
    var pending := PendingSave(fold, me);
    pending.Some? ==> NoneActive(pending.value, id, t)
  }

  /** The id is not given to a new delegation. */
  predicate NeverReissued(steps: seq<Step>, id: string) {
    forall k :: 0 <= k < |steps| && steps[k].SaveAdded? ==> steps[k].id != id
  }

  /** Nothing stored or about to be stored by any process holds an active item with this id. */
  ghost predicate Safe(fold: Fold, s: State, id: string) {
    && NoneActive(s.disk, id, s.clock)
    && (forall p :: PendingInactive(fold, ProcessOf(s, p), id, s.clock))
  }

  /** Whether a request is accepted does not depend on the id it would get. */
  lemma {:induction false} DecideIgnoresId(
    fold: Fold, items: seq<Delegation>, req: Request, stamp: int, id: string, other: string)
    ensures Decide(fold, items, req, stamp, id).Ok? <==> Decide(fold, items, req, stamp, other).Ok?
  {
    if OwnRefusal(fold, req, stamp).None? {
      var one, two := Entry(req, stamp, id), Entry(req, stamp, other);
      NoConflict(fold, items, one, stamp);
      NoConflict(fold, items, two, stamp);
      forall k | 0 <= k < |items|
        ensures Conflict(fold, items[k], one, stamp).None? <==> Conflict(fold, items[k], two, stamp).None? {}
    }
  }

  lemma {:induction false} LoadedInactive(fold: Fold, disk: seq<Delegation>, id: string, own: string, t: int)
    requires NoneActive(disk, id, t)
    ensures NoneActive(Load(disk), id, t) && NoneActive(Revoked(Load(disk), own), id, t)
  {
    var items := Load(disk);
    forall k | 0 <= k < |items| && items[k].id == id ensures !Active(items[k], t) {
      assert disk[k].id == id;
    }
    var after := Revoked(items, own);
    forall k | 0 <= k < |after| && after[k].id == id ensures !Active(after[k], t) {
      assert items[k].id == id;
    }
  }

  lemma {:induction false} DiskSafe(
    fold: Fold, disk: seq<Delegation>, clock: int, me: Process, step: Step, id: string)
    requires NoneActive(disk, id, clock) && PendingInactive(fold, me, id, clock)
    requires step.SaveAdded? ==> step.id != id
    ensures NoneActive(NextDisk(fold, disk, me, step), id, clock)
  {
    if me.Checking? && step.SaveAdded? { DecideIgnoresId(fold, me.loaded, me.req, me.stamp, step.id, ""); }
  }

  lemma {:induction false} CopySafe(
    fold: Fold, disk: seq<Delegation>, clock: int, me: Process, step: Step, id: string)
    requires !step.Tick? && NoneActive(disk, id, clock) && PendingInactive(fold, me, id, clock)
    ensures PendingInactive(fold, NextProcess(disk, clock, me, step), id, clock)
  {
    LoadedInactive(fold, disk, id, if step.LoadToRevoke? then Strip(step.id) else "", clock);
  }

  lemma {:induction false} StepKeepsSafe(fold: Fold, s: State, step: Step, id: string)
    requires Safe(fold, s, id) && (step.SaveAdded? ==> step.id != id)
    ensures Safe(fold, Next(fold, s, step), id)
  {
    var s' := Next(fold, s, step);
    if !step.Tick? {
      assert PendingInactive(fold, ProcessOf(s, step.p), id, s.clock);
      DiskSafe(fold, s.disk, s.clock, ProcessOf(s, step.p), step, id);
    }
    forall p ensures PendingInactive(fold, ProcessOf(s', p), id, s'.clock) {
      assert PendingInactive(fold, ProcessOf(s, p), id, s.clock);
      if !step.Tick? {
        Moves(fold, s, step, p);
        if p == step.p { CopySafe(fold, s.disk, s.clock, ProcessOf(s, p), step, id); }
      }
    }
  }

  lemma {:induction false} RunKeepsSafe(fold: Fold, s: State, steps: seq<Step>, id: string)
    requires Safe(fold, s, id) && NeverReissued(steps, id)
    ensures Safe(fold, Run(fold, s, steps), id)
  {
    if steps != [] {
      RunKeepsSafe(fold, s, steps[..|steps| - 1], id);
      StepKeepsSafe(fold, Run(fold, s, steps[..|steps| - 1]), steps[|steps| - 1], id);
    }
  }

  /** The disk a run leaves behind holds no active item with this id. */
  ghost predicate GoneAfter(fold: Fold, s: State, steps: seq<Step>, id: string) {
    NoneActive(Run(fold, s, steps).disk, id, Run(fold, s, steps).clock)
  }

  /** One save of a process whose pending save holds the item active brings it back. */
  lemma {:induction false} SaveBringsBack(fold: Fold, s: State, id: string, p: ProcessId) returns (steps: seq<Step>)
    requires !PendingInactive(fold, ProcessOf(s, p), id, s.clock)
    ensures NeverReissued(steps, id) && !GoneAfter(fold, s, steps, id)
  {
    var me := ProcessOf(s, p);
    var held := PendingSave(fold, me).value;
    var k :| 0 <= k < |held| && held[k].id == id && Active(held[k], s.clock);
    var step := if me.Checking? then SaveAdded(p, id + "x") else SaveRevoked(p);
    if me.Checking? { DecideIgnoresId(fold, me.loaded, me.req, me.stamp, id + "x", ""); }
    steps := [step];
    assert steps[..0] == [];
    var disk := Next(fold, s, step).disk;
    assert Run(fold, s, steps) == Next(fold, s, step) && disk[k] == held[k];
  }

  /**
   When a revocation lasts. With no active item of this id stored, none is ever stored again in any continuation that
   does not give the id out anew if and only if no process is about to save a copy that holds one. A copy is harmless
   when its save will be refused, or revokes that very item.
   */
  lemma RevocationHoldsIff(fold: Fold, s: State, id: string)
    requires NoneActive(s.disk, id, s.clock)
    ensures (forall steps :: NeverReissued(steps, id) ==> GoneAfter(fold, s, steps, id))
            <==> (forall p :: PendingInactive(fold, ProcessOf(s, p), id, s.clock))
  {
    if forall p :: PendingInactive(fold, ProcessOf(s, p), id, s.clock) {
      forall steps | NeverReissued(steps, id) ensures GoneAfter(fold, s, steps, id) {
        RunKeepsSafe(fold, s, steps, id);
      }
    } else {
      var p :| !PendingInactive(fold, ProcessOf(s, p), id, s.clock);
      var steps := SaveBringsBack(fold, s, id, p);
    }
  }

  lemma {:induction false} RevokedIsSafe(fold: Fold, s: State, id: string)
    requires RevokedEverywhere(s, id)
    ensures Safe(fold, s, id)
  {
    forall p ensures PendingInactive(fold, ProcessOf(s, p), id, s.clock) {
      var me := ProcessOf(s, p);
      assert IsRevoked(LoadedBy(me), id);
      if me.Revoking? { RevokeKeepsRevoked(me.loaded, id, me.id); }
    }
  }

  /** Once no copy holds it unrevoked at all, a revoked delegation is never active again at any time. */
  lemma {:induction false} RevocationSticks(fold: Fold, s: State, steps: seq<Step>, id: string, t: int)
    requires RevokedEverywhere(s, id) && NeverReissued(steps, id)
    ensures GoneAfter(fold, s, steps, id) && RevokedEverywhere(Run(fold, s, steps), id)
    ensures NoneActive(Run(fold, s, steps).disk, id, t)
  {
    if steps == [] {
      RevokedIsSafe(fold, s, id);
    } else {
      RevocationSticks(fold, s, steps[..|steps| - 1], id, t);
      StepKeepsRevoked(fold, Run(fold, s, steps[..|steps| - 1]), steps[|steps| - 1], id);
      RevokedIsSafe(fold, Run(fold, s, steps), id);
    }
  }

  const GRANT := Delegation("1", "a", "b", Some(SECOND), None, false, 0)
  const RIVAL := Request("c", "e", Some(SECOND), None)

  lemma {:induction false} RivalIsAccepted(fold: Fold)
    requires fold("a") != fold("c") && fold("b") != fold("c") && fold("c") != fold("e")
    ensures Decide(fold, [GRANT], RIVAL, 0, "2").Ok? && Load([GRANT]) == [GRANT] && Strip("1") == "1"
  {
    StripTrims("1");
    StripTrims("a");
    StripTrims("b");
    StripTrims("c");
    StripTrims("e");
    assert [GRANT][1..] == [];
    NoConflict(fold, [GRANT], Entry(RIVAL, 0, "2"), 0);
  }

  /** Process 2 revokes the grant while process 1 holds a copy. */
  lemma RevokedMeanwhile(fold: Fold, s: State)
    requires s.disk == [GRANT] && Load([GRANT]) == [GRANT] && Strip("1") == "1"
    requires ProcessOf(s, 1).Checking? && ProcessOf(s, 2).Resting?
    ensures var revoked := Next(fold, Next(fold, s, LoadToRevoke(2, "1")), SaveRevoked(2));
            && revoked.disk == [GRANT.(revoked := true)] && ProcessOf(revoked, 1) == ProcessOf(s, 1)
            && revoked.clock == s.clock
  {
    var reading := Next(fold, s, LoadToRevoke(2, "1"));
    assert ProcessOf(reading, 2) == Revoking("1", [GRANT]) && ProcessOf(reading, 1) == ProcessOf(s, 1);
  }

  /**
   A copy loaded before the revocation undoes it when it is saved: process 1 loads to add its own grant, process 2
   revokes grant "1", and saving process 1's copy makes grant "1" active again.
   */
  lemma RevocationCanBeLost(fold: Fold)
    requires fold("a") != fold("c") && fold("b") != fold("c") && fold("c") != fold("e")
    ensures var s := State([GRANT], 0, map[]);
            var loaded := Next(fold, Next(fold, s, Ask(1, RIVAL)), LoadToAdd(1));
            var revoked := Next(fold, Next(fold, loaded, LoadToRevoke(2, "1")), SaveRevoked(2));
            var saved := Next(fold, revoked, SaveAdded(1, "2"));
            && revoked.disk == [GRANT.(revoked := true)]
            && |saved.disk| == 2 && saved.disk[0] == GRANT && Active(GRANT, saved.clock)
  {
    RivalIsAccepted(fold);
    var s := State([GRANT], 0, map[]);
    var loaded := Next(fold, Next(fold, s, Ask(1, RIVAL)), LoadToAdd(1));
    assert ProcessOf(loaded, 1) == Checking(RIVAL, 0, [GRANT]) && loaded.disk == [GRANT];
    RevokedMeanwhile(fold, loaded);
  }

  // ---------------------------------------------------------------- grants that stay

  /** The same grant, revoked or not, before or after a load. */
  predicate SameGrant(a: Delegation, b: Delegation) {
    Reload(a).(revoked := false) == Reload(b).(revoked := false)
  }

  predicate Stored(items: seq<Delegation>, d: Delegation) {
    exists k :: 0 <= k < |items| && SameGrant(items[k], d)
  }

  /** What the process is about to save, if it will save, has the grant. */
  predicate PendingStored(fold: Fold, me: Process, d: Delegation) {
    var pending := PendingSave(fold, me);
    pending.Some? ==> Stored(pending.value, d)
  }

  lemma {:induction false} LoadedStored(disk: seq<Delegation>, d: Delegation)
    requires Stored(disk, d)
    ensures Stored(Load(disk), d)
  {
    var k :| 0 <= k < |disk| && SameGrant(disk[k], d);
    assert SameGrant(Load(disk)[k], d);
  }

  lemma {:induction false} RevokedStored(items: seq<Delegation>, id: string, d: Delegation)
    requires Stored(items, d)
    ensures Stored(Revoked(items, id), d)
  {
    var k :| 0 <= k < |items| && SameGrant(items[k], d);
    assert SameGrant(Revoked(items, id)[k], d);
  }

  lemma {:induction false} LongerStored(items: seq<Delegation>, more: Delegation, d: Delegation)
    requires Stored(items, d)
    ensures Stored(items + [more], d)
  {
    var k :| 0 <= k < |items| && SameGrant(items[k], d);
    assert SameGrant((items + [more])[k], d);
  }

  /** The grant is stored, and nothing about to be saved lacks it. */
  ghost predicate Lasting(fold: Fold, s: State, d: Delegation) {
    && Stored(s.disk, d)
    && (forall p :: PendingStored(fold, ProcessOf(s, p), d))
  }

  lemma {:induction false} DiskStored(fold: Fold, disk: seq<Delegation>, me: Process, step: Step, d: Delegation)
    requires Stored(disk, d) && PendingStored(fold, me, d)
    ensures Stored(NextDisk(fold, disk, me, step), d)
  {
    if step.SaveAdded? && me.Checking? {
      DecideIgnoresId(fold, me.loaded, me.req, me.stamp, step.id, "");
      var r := Decide(fold, me.loaded, me.req, me.stamp, step.id);
      if r.Ok? { LongerStored(me.loaded, r.value, d); }
    }
  }

  lemma {:induction false} CopyStored(
    fold: Fold, disk: seq<Delegation>, clock: int, me: Process, step: Step, d: Delegation)
    requires !step.Tick? && Stored(disk, d) && PendingStored(fold, me, d)
    ensures PendingStored(fold, NextProcess(disk, clock, me, step), d)
  {
    LoadedStored(disk, d);
    if step.LoadToRevoke? { RevokedStored(Load(disk), Strip(step.id), d); }
  }

  lemma {:induction false} StepKeepsLasting(fold: Fold, s: State, step: Step, d: Delegation)
    requires Lasting(fold, s, d)
    ensures Lasting(fold, Next(fold, s, step), d)
  {
    var s' := Next(fold, s, step);
    if !step.Tick? {
      assert PendingStored(fold, ProcessOf(s, step.p), d);
      DiskStored(fold, s.disk, ProcessOf(s, step.p), step, d);
    }
    forall p ensures PendingStored(fold, ProcessOf(s', p), d) {
      assert PendingStored(fold, ProcessOf(s, p), d);
      if !step.Tick? {
        Moves(fold, s, step, p);
        if p == step.p { CopyStored(fold, s.disk, s.clock, ProcessOf(s, p), step, d); }
      }
    }
  }

  lemma {:induction false} RunKeepsLasting(fold: Fold, s: State, steps: seq<Step>, d: Delegation)
    requires Lasting(fold, s, d)
    ensures Lasting(fold, Run(fold, s, steps), d)
  {
    if steps != [] {
      RunKeepsLasting(fold, s, steps[..|steps| - 1], d);
      StepKeepsLasting(fold, Run(fold, s, steps[..|steps| - 1]), steps[|steps| - 1], d);
    }
  }

  /** One save of a process whose pending save lacks the grant loses it. */
  lemma {:induction false} SaveLoses(fold: Fold, s: State, d: Delegation, p: ProcessId) returns (step: Step)
    requires !PendingStored(fold, ProcessOf(s, p), d)
    ensures !Stored(Next(fold, s, step).disk, d)
  {
    var me := ProcessOf(s, p);
    var held := PendingSave(fold, me).value;
    step := if me.Checking? then SaveAdded(p, d.id + "x") else SaveRevoked(p);
    if me.Checking? { DecideIgnoresId(fold, me.loaded, me.req, me.stamp, d.id + "x", ""); }
    var disk := Next(fold, s, step).disk;
    assert forall k :: 0 <= k < |held| ==> disk[k] == held[k];
    assert |disk| > |held| ==> disk[|held|].id == d.id + "x" != d.id;
  }

  lemma OneSaveLoses(fold: Fold, s: State, d: Delegation, p: ProcessId) returns (steps: seq<Step>)
    requires !PendingStored(fold, ProcessOf(s, p), d)
    ensures !Stored(Run(fold, s, steps).disk, d)
  {
    var step := SaveLoses(fold, s, d, p);
    steps := [step];
    assert steps[..0] == [];
    assert Run(fold, s, []) == s && Run(fold, s, steps) == Next(fold, s, step);
  }

  /**
   When an accepted grant stays. A stored grant is still stored after every continuation if and only if no process is
   about to save a copy that lacks it.
   */
  lemma GrantStaysIff(fold: Fold, s: State, d: Delegation)
    requires Stored(s.disk, d)
    ensures (forall steps :: Stored(Run(fold, s, steps).disk, d))
            <==> (forall p :: PendingStored(fold, ProcessOf(s, p), d))
  {
    if forall p :: PendingStored(fold, ProcessOf(s, p), d) {
      forall steps ensures Stored(Run(fold, s, steps).disk, d) {
        RunKeepsLasting(fold, s, steps, d);
      }
    } else {
      var p :| !PendingStored(fold, ProcessOf(s, p), d);
      var steps := OneSaveLoses(fold, s, d, p);
    }
  }

  /**
   Two processes load the empty store to add a grant each, and both save: both requests were accepted, and the first
   grant is gone.
   */
  lemma GrantCanBeLost(fold: Fold, one: Request, two: Request)
    requires Decide(fold, [], one, 0, "1").Ok? && Decide(fold, [], two, 0, "2").Ok?
    ensures var s1 := Next(fold, Next(fold, Empty(0), Ask(1, one)), LoadToAdd(1));
            var s2 := Next(fold, Next(fold, s1, Ask(2, two)), LoadToAdd(2));
            var first := Next(fold, s2, SaveAdded(1, "1"));
            var second := Next(fold, first, SaveAdded(2, "2"));
            && first.disk == [Decide(fold, [], one, 0, "1").value]
            && second.disk == [Decide(fold, [], two, 0, "2").value]
  {
    var s1 := Next(fold, Next(fold, Empty(0), Ask(1, one)), LoadToAdd(1));
    assert ProcessOf(s1, 1) == Checking(one, 0, []) && s1.disk == [];
    var s2 := Next(fold, Next(fold, s1, Ask(2, two)), LoadToAdd(2));
    assert ProcessOf(s2, 2) == Checking(two, 0, []) && ProcessOf(s2, 1) == Checking(one, 0, []) && s2.disk == [];
  }
}
