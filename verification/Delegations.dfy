/**
 Time-bounded, revocable delegation of approvals: granting, revoking, and finding the grant that lets an actor
 stand in for another. Times are microseconds.
 */
module Delegations {
  import opened Basics
  import opened Texts

  const SECOND := 1_000_000

  /** `until` is the time its stored text reads back as, None when the text is not a timestamp. */
  datatype Delegation = Delegation(
    id: string, fromActor: string, toActor: string, until: Option<int>, scope: Option<string>, revoked: bool,
    createdAt: int)

  datatype Request = Request(fromActor: string, toActor: string, until: Option<int>, scope: Option<string>)

  datatype Refusal =
    | MissingActor
    | SelfDelegation
    | NotATimestamp
    | NotInTheFuture
    | ChainRefused
    | Overlapping
    | WidensScope

  /** A time as it is written out and read back: whole seconds. */
  function FormatClock(t: int): int {
    t / SECOND * SECOND
  }

  /** An empty scope is read back as no scope. */
  function Reload(d: Delegation): Delegation {
    if d.scope == Some("") then d.(scope := None) else d
  }

  function Load(disk: seq<Delegation>): (items: seq<Delegation>)
    ensures |items| == |disk| && forall k :: 0 <= k < |disk| ==> items[k] == Reload(disk[k])
  {
    if disk == [] then [] else [Reload(disk[0])] + Load(disk[1..])
  }

  predicate Active(d: Delegation, t: int) {
    !d.revoked && d.until.Some? && d.until.value > t
  }

  predicate SameScope(fold: Fold, a: Option<string>, b: Option<string>) {
    if !Present(a) && !Present(b) then true
    else if !Present(a) || !Present(b) then false
    else Norm(fold, a.value) == Norm(fold, b.value)
  }

  predicate SamePair(fold: Fold, a: Delegation, b: Delegation) {
    Norm(fold, a.fromActor) == Norm(fold, b.fromActor) && Norm(fold, a.toActor) == Norm(fold, b.toActor)
  }

  /** The entry a request would add. */
  function Entry(req: Request, stamp: int, id: string): Delegation
    requires req.until.Some?
  {
    Delegation(id, Strip(req.fromActor), Strip(req.toActor), Some(FormatClock(req.until.value)),
               if Present(req.scope) then Some(Strip(req.scope.value)) else None, false, FormatClock(stamp))
  }

  /** Why a request is refused whatever is stored. */
  function OwnRefusal(fold: Fold, req: Request, stamp: int): Option<Refusal> {
    var source, dest := Strip(req.fromActor), Strip(req.toActor);
    if source == "" || dest == "" then Some(MissingActor)
    else if Norm(fold, source) == Norm(fold, dest) then Some(SelfDelegation)
    else if req.until.None? then Some(NotATimestamp)
    else if req.until.value <= stamp then Some(NotInTheFuture)
    else None
  }

  /** Why one stored item stands in the way of an entry. */
  function Conflict(fold: Fold, item: Delegation, entry: Delegation, stamp: int): Option<Refusal> {
    if !Active(item, stamp) then None
    else if Norm(fold, item.toActor) == Norm(fold, entry.fromActor) then Some(ChainRefused)
    else if !SamePair(fold, item, entry) then None
    else if SameScope(fold, item.scope, entry.scope) || item.scope.None? then Some(Overlapping)
    else if entry.scope.None? then Some(WidensScope)
    else None
  }

  function FirstConflict(fold: Fold, items: seq<Delegation>, entry: Delegation, stamp: int): Option<Refusal> {
    if items == [] then None else
    var c := Conflict(fold, items[0], entry, stamp);
    if c.Some? then c else FirstConflict(fold, items[1..], entry, stamp)
  }

  /** The outcome of a request against what was loaded. */
  function Decide(fold: Fold, items: seq<Delegation>, req: Request, stamp: int, id: string)
    : Result<Delegation, Refusal>
  {
    var own := OwnRefusal(fold, req, stamp);
    if own.Some? then Err(own.value) else
    var c := FirstConflict(fold, items, Entry(req, stamp, id), stamp);
    if c.Some? then Err(c.value) else Ok(Entry(req, stamp, id))
  }

  lemma {:induction false} NoConflict(fold: Fold, items: seq<Delegation>, entry: Delegation, stamp: int)
    ensures FirstConflict(fold, items, entry, stamp).None? <==>
            forall k :: 0 <= k < |items| ==> Conflict(fold, items[k], entry, stamp).None?
  {
    if items != [] {
      NoConflict(fold, items[1..], entry, stamp);
      if forall k :: 0 <= k < |items| ==> Conflict(fold, items[k], entry, stamp).None? {
        forall k | 0 <= k < |items| - 1 ensures Conflict(fold, items[1..][k], entry, stamp).None? {
          assert items[1..][k] == items[k + 1];
        }
      }
    }
  }

  /** Where the first item with this id is, None when there is none. */
  function IndexOf(items: seq<Delegation>, id: string): Option<nat> {
    if items == [] then None
    else if items[0].id == id then Some(0)
    else match IndexOf(items[1..], id) case None => None case Some(k) => Some(k + 1)
  }

  lemma {:induction false} IndexOfFirst(items: seq<Delegation>, id: string)
    ensures match IndexOf(items, id)
            case None => forall k :: 0 <= k < |items| ==> items[k].id != id
            case Some(k) => k < |items| && items[k].id == id && forall j :: 0 <= j < k ==> items[j].id != id
  {
    if items != [] && items[0].id != id {
      IndexOfFirst(items[1..], id);
      forall j | 1 <= j < |items| ensures items[j] == items[1..][j - 1] {}
    }
  }

  /** What revoking leaves stored. */
  function Revoked(items: seq<Delegation>, id: string): seq<Delegation> {
    match IndexOf(items, id)
    case None => items
    case Some(k) => if k < |items| then items[k := items[k].(revoked := true)] else items
  }

  /** A delegation that counts for an actor wanting one of some roles. */
  predicate Serves(fold: Fold, d: Delegation, actor: string, wanted: set<string>, t: int) {
    && Active(d, t)
    && Norm(fold, d.toActor) == actor
    && (Present(d.scope) && wanted != {} ==> Norm(fold, d.scope.value) in wanted)
  }

  /** Item `k` serves the actor and no item before it does. */
  ghost predicate ServesFirst(fold: Fold, items: seq<Delegation>, k: nat, actor: string, wanted: set<string>, t: int) {
    && k < |items| && Serves(fold, items[k], actor, wanted, t)
    && forall j :: 0 <= j < k ==> !Serves(fold, items[j], actor, wanted, t)
  }

  ghost predicate IsFirstServing(
    fold: Fold, items: seq<Delegation>, d: Delegation, actor: string, wanted: set<string>, t: int)
  {
    exists k: nat :: ServesFirst(fold, items, k, actor, wanted, t) && items[k] == d
  }

  function Wanted(fold: Fold, roles: seq<string>): set<string> {
    set r | r in roles && r != "" :: Norm(fold, r)
  }

  /** The delegations file of one home directory. */
  class Store {
    const fold: Fold
    var disk: seq<Delegation>

    constructor (fold: Fold)
      ensures this.fold == fold && disk == []
    {
      this.fold, disk := fold, [];
    }

    method AddDelegation(req: Request, stamp: int, id: string) returns (r: Result<Delegation, Refusal>)
      modifies this`disk
      ensures r == Decide(fold, Load(old(disk)), req, stamp, id)
      ensures disk == if r.Ok? then Load(old(disk)) + [r.value] else old(disk)
    {
      var source, dest := Strip(req.fromActor), Strip(req.toActor);
      if source == "" || dest == "" { return Err(MissingActor); }
      if Norm(fold, source) == Norm(fold, dest) { return Err(SelfDelegation); }
      if req.until.None? { return Err(NotATimestamp); }
      if req.until.value <= stamp { return Err(NotInTheFuture); }
      var items := Load(disk);
      var scope := if Present(req.scope) then Some(Strip(req.scope.value)) else None;
      var added := Delegation(id, source, dest, Some(FormatClock(req.until.value)), scope, false, FormatClock(stamp));
      var refusal := Scan(items, source, dest, scope, stamp, added);
      if refusal.Some? { return Err(refusal.value); }
      disk := items + [added];
      r := Ok(added);
    }

    /** The first reason found among the stored items to refuse a grant. */
    method Scan(
      items: seq<Delegation>, source: string, dest: string, scope: Option<string>, stamp: int, ghost entry: Delegation)
      returns (refusal: Option<Refusal>)
      requires entry.fromActor == source && entry.toActor == dest && entry.scope == scope
      ensures refusal == FirstConflict(fold, items, entry, stamp)
    {
      var sourceNorm, destNorm := Norm(fold, source), Norm(fold, dest);
      for k := 0 to |items|
        invariant FirstConflict(fold, items, entry, stamp) == FirstConflict(fold, items[k..], entry, stamp)
      {
        var item := items[k];
        assert items[k..][1..] == items[k + 1..];
        if item.revoked || item.until.None? || item.until.value <= stamp { continue; }
        if Norm(fold, item.toActor) == sourceNorm { return Some(ChainRefused); }
        if Norm(fold, item.fromActor) == sourceNorm && Norm(fold, item.toActor) == destNorm {
          if SameScope(fold, item.scope, scope) || item.scope.None? { return Some(Overlapping); }
          if scope.None? { return Some(WidensScope); }
        }
      }
      return None;
    }

    method RevokeDelegation(id: string) returns (found: Option<Delegation>)
      modifies this`disk
      ensures var items := Load(old(disk));
              var at := IndexOf(items, Strip(id));
              && (found.None? <==> at.None?)
              && disk == (if at.Some? then Revoked(items, Strip(id)) else old(disk))
              && (at.Some? && at.value < |items| ==> found == Some(items[at.value].(revoked := true)))
    {
      var token := Strip(id);
      var items := Load(disk);
      var at := Locate(items, token);
      IndexOfFirst(items, token);
      if at.None? { return None; }
      items := items[at.value := items[at.value].(revoked := true)];
      found := Some(items[at.value]);
      disk := items;
    }

    /** Where the first item with this id is. */
    method Locate(items: seq<Delegation>, id: string) returns (at: Option<nat>)
      ensures at == IndexOf(items, id)
    {
      IndexOfFirst(items, id);
      for k := 0 to |items|
        invariant forall j :: 0 <= j < k ==> items[j].id != id
      {
        if items[k].id == id { return Some(k); }
      }
      return None;
    }

    /** The first stored delegation that serves the actor now, None exactly when there is none. */
    method FindDelegation(actor: string, roles: seq<string>, t: int) returns (found: Option<Delegation>)
      ensures var items, dest, wanted := Load(disk), Norm(fold, actor), Wanted(fold, roles);
              && (dest == "" ==> found.None?)
              && (dest != "" && found.None? ==>
                    forall k :: 0 <= k < |items| ==> !Serves(fold, items[k], dest, wanted, t))
              && (found.Some? ==> IsFirstServing(fold, items, found.value, dest, wanted, t))
    {
      var dest := Norm(fold, actor);
      if dest == "" { return None; }
      var wanted := Wanted(fold, roles);
      var items := Load(disk);
      var k := 0;
      while k < |items|
        invariant 0 <= k <= |items|
        invariant forall j :: 0 <= j < k ==> !Serves(fold, items[j], dest, wanted, t)
      {
        if Serves(fold, items[k], dest, wanted, t) {
          assert ServesFirst(fold, items, k, dest, wanted, t);
          return Some(items[k]);
        }
        k := k + 1;
      }
      return None;
    }
  }
}
