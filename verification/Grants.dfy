/** Granting, revoking and finding, told from the stored items and the request field by field. */
module Grants {
  import opened Basics
  import opened Texts
  import opened Delegations

  // ---------------------------------------------------------------- granting

  /** The item is in force: not revoked, and its end is a time after the stamp. */
  predicate InForce(d: Delegation, stamp: int) {
    !d.revoked && d.until.Some? && stamp < d.until.value
  }

  /** Somebody delegates to the one who asks to delegate. */
  predicate EndsAtDelegator(fold: Fold, d: Delegation, req: Request, stamp: int) {
    InForce(d, stamp) && fold(Strip(d.toActor)) == fold(Strip(req.fromActor))
  }

  predicate GivesSamePair(fold: Fold, d: Delegation, req: Request, stamp: int) {
    && InForce(d, stamp)
    && fold(Strip(d.fromActor)) == fold(Strip(req.fromActor)) && fold(Strip(d.toActor)) == fold(Strip(req.toActor))
  }

  /** No scope is stored, or wanted. */
  predicate Unscoped(scope: Option<string>) {
    scope == None || scope == Some("")
  }

  /** The wanted scope is a name, and the stored one is the same name. */
  predicate SameName(fold: Fold, stored: Option<string>, wanted: Option<string>) {
    && stored.Some? && wanted.Some? && Strip(wanted.value) != ""
    && fold(Strip(stored.value)) == fold(Strip(wanted.value))
  }

  /** The item already gives the pair what is wanted: everything, or that very scope. */
  predicate GivesAlready(fold: Fold, d: Delegation, req: Request, stamp: int) {
    GivesSamePair(fold, d, req, stamp) && (Unscoped(d.scope) || SameName(fold, d.scope, req.scope))
  }

  /** The item gives the pair a scope, and the request wants everything. */
  predicate WouldWiden(fold: Fold, d: Delegation, req: Request, stamp: int) {
    GivesSamePair(fold, d, req, stamp) && !Unscoped(d.scope) && Unscoped(req.scope)
  }

  predicate InTheWay(fold: Fold, d: Delegation, req: Request, stamp: int) {
    || EndsAtDelegator(fold, d, req, stamp) || GivesAlready(fold, d, req, stamp) || WouldWiden(fold, d, req, stamp)
  }

  /** Both names are there and differ, and the end is a time still to come. */
  predicate ProperRequest(fold: Fold, req: Request, stamp: int) {
    && Strip(req.fromActor) != "" && Strip(req.toActor) != ""
    && fold(Strip(req.fromActor)) != fold(Strip(req.toActor))
    && req.until.Some? && stamp < req.until.value
  }

  /** Item `k` is the first in the way. */
  ghost predicate FirstInTheWay(fold: Fold, disk: seq<Delegation>, req: Request, stamp: int, k: nat) {
    && k < |disk| && InTheWay(fold, disk[k], req, stamp)
    && forall j :: 0 <= j < k ==> !InTheWay(fold, disk[j], req, stamp)
  }

  /** Why one stored item, as it is loaded, stands in the way. */
  lemma ConflictMeans(fold: Fold, d: Delegation, req: Request, stamp: int, id: string)
    requires req.until.Some?
    ensures var c := Conflict(fold, Reload(d), Entry(req, stamp, id), stamp);
            && (c.Some? <==> InTheWay(fold, d, req, stamp))
            && (c == Some(ChainRefused) <==> EndsAtDelegator(fold, d, req, stamp))
            && (c == Some(Overlapping) <==>
                  !EndsAtDelegator(fold, d, req, stamp) && GivesAlready(fold, d, req, stamp))
            && (c == Some(WidensScope) <==>
                  !EndsAtDelegator(fold, d, req, stamp) && WouldWiden(fold, d, req, stamp))
  {
    StripTrims(req.fromActor);
    StripTrims(req.toActor);
    if req.scope.Some? { StripTrims(req.scope.value); }
  }

  /** Item `k` is the first that conflicts, for this reason. */
  ghost predicate ConflictsFirst(
    fold: Fold, items: seq<Delegation>, entry: Delegation, stamp: int, k: nat, c: Option<Refusal>)
  {
    && k < |items| && Conflict(fold, items[k], entry, stamp) == c
    && forall j :: 0 <= j < k ==> Conflict(fold, items[j], entry, stamp).None?
  }

  lemma ConflictsLater(fold: Fold, items: seq<Delegation>, entry: Delegation, stamp: int, k: nat, c: Option<Refusal>)
    requires items != [] && Conflict(fold, items[0], entry, stamp).None?
    requires ConflictsFirst(fold, items[1..], entry, stamp, k, c)
    ensures ConflictsFirst(fold, items, entry, stamp, k + 1, c)
  {
    forall j | 0 <= j < k + 1 ensures Conflict(fold, items[j], entry, stamp).None? {
      if j > 0 { assert items[1..][j - 1] == items[j]; }
    }
  }

  lemma {:induction false} FirstConflictIsFirst(fold: Fold, items: seq<Delegation>, entry: Delegation, stamp: int)
    returns (k: nat)
    requires FirstConflict(fold, items, entry, stamp).Some?
    ensures ConflictsFirst(fold, items, entry, stamp, k, FirstConflict(fold, items, entry, stamp))
  {
    if Conflict(fold, items[0], entry, stamp).Some? {
      k := 0;
    } else {
      var n := FirstConflictIsFirst(fold, items[1..], entry, stamp);
      ConflictsLater(fold, items, entry, stamp, n, FirstConflict(fold, items, entry, stamp));
      k := n + 1;
    }
  }

  lemma OwnRefusalMeans(fold: Fold, req: Request, stamp: int)
    ensures OwnRefusal(fold, req, stamp).None? <==> ProperRequest(fold, req, stamp)
  {
    StripTrims(req.fromActor);
    StripTrims(req.toActor);
  }

  /**
   A request is accepted if and only if it is proper and no stored item in force ends at the delegator, gives the same
   pair everything or the very scope wanted, or any scope when everything is wanted. Every field of the stored entry is
   then told by the request; times are stored in whole seconds.
   */
  lemma GrantedIff(fold: Fold, disk: seq<Delegation>, req: Request, stamp: int, id: string)
    ensures var r := Decide(fold, Load(disk), req, stamp, id);
            && (r.Ok? <==>
                  ProperRequest(fold, req, stamp) && forall d :: d in disk ==> !InTheWay(fold, d, req, stamp))
            && (r.Ok? ==>
                  r.value == Delegation(
                    id, Strip(req.fromActor), Strip(req.toActor), Some(req.until.value / 1_000_000 * 1_000_000),
                    if Unscoped(req.scope) then None else Some(Strip(req.scope.value)), false,
                    stamp / 1_000_000 * 1_000_000))
  {
    OwnRefusalMeans(fold, req, stamp);
    if ProperRequest(fold, req, stamp) {
      var entry := Entry(req, stamp, id);
      NoConflict(fold, Load(disk), entry, stamp);
      forall k | 0 <= k < |disk|
        ensures Conflict(fold, Load(disk)[k], entry, stamp).None? <==> !InTheWay(fold, disk[k], req, stamp)
      {
        ConflictMeans(fold, disk[k], req, stamp, id);
      }
    }
  }

  /** Which refusal each failing check gives: those of the request first, then that of the first item in the way. */
  lemma RefusalMeans(fold: Fold, disk: seq<Delegation>, req: Request, stamp: int, id: string)
    requires Decide(fold, Load(disk), req, stamp, id).Err?
    ensures var e := Decide(fold, Load(disk), req, stamp, id).error;
            var nameless := Strip(req.fromActor) == "" || Strip(req.toActor) == "";
            var self := fold(Strip(req.fromActor)) == fold(Strip(req.toActor));
            && (e == MissingActor <==> nameless)
            && (e == SelfDelegation <==> !nameless && self)
            && (e == NotATimestamp <==> !nameless && !self && req.until.None?)
            && (e == NotInTheFuture <==> !nameless && !self && req.until.Some? && req.until.value <= stamp)
            && (ProperRequest(fold, req, stamp) ==>
                  exists k: nat :: FirstInTheWay(fold, disk, req, stamp, k) && Blames(fold, disk[k], req, stamp, e))
  {
    OwnRefusalMeans(fold, req, stamp);
    StripTrims(req.fromActor);
    StripTrims(req.toActor);
    if ProperRequest(fold, req, stamp) {
      FirstBlamed(fold, disk, req, stamp, id);
    } else {
      OnlyOwn(fold, Load(disk), req, stamp, id);
    }
  }

  lemma OnlyOwn(fold: Fold, items: seq<Delegation>, req: Request, stamp: int, id: string)
    requires OwnRefusal(fold, req, stamp).Some?
    ensures Decide(fold, items, req, stamp, id) == Err(OwnRefusal(fold, req, stamp).value)
  {}

  /** A chain is blamed before an overlap or a widening. */
  predicate Blames(fold: Fold, d: Delegation, req: Request, stamp: int, e: Refusal) {
    if EndsAtDelegator(fold, d, req, stamp) then e == ChainRefused
    else if GivesAlready(fold, d, req, stamp) then e == Overlapping
    else e == WidensScope
  }

  lemma FirstBlamed(fold: Fold, disk: seq<Delegation>, req: Request, stamp: int, id: string)
    requires ProperRequest(fold, req, stamp) && Decide(fold, Load(disk), req, stamp, id).Err?
    ensures var e := Decide(fold, Load(disk), req, stamp, id).error;
            && e in {ChainRefused, Overlapping, WidensScope}
            && exists k: nat :: FirstInTheWay(fold, disk, req, stamp, k) && Blames(fold, disk[k], req, stamp, e)
  {
    OwnRefusalMeans(fold, req, stamp);
    var items, entry := Load(disk), Entry(req, stamp, id);
    var c := FirstConflict(fold, items, entry, stamp);
    var k := FirstConflictIsFirst(fold, items, entry, stamp);
    forall j | 0 <= j <= k
      ensures Conflict(fold, items[j], entry, stamp).Some? <==> InTheWay(fold, disk[j], req, stamp)
    {
      ConflictMeans(fold, disk[j], req, stamp, id);
    }
    ConflictMeans(fold, disk[k], req, stamp, id);
    assert FirstInTheWay(fold, disk, req, stamp, k) && Blames(fold, disk[k], req, stamp, c.value);
  }

  // ---------------------------------------------------------------- revoking and finding

  /** Only the mark differs, and only that of the first item with the id. */
  lemma RevokedMeans(disk: seq<Delegation>, id: string)
    ensures var after := Revoked(Load(disk), id);
            && |after| == |disk|
            && forall k :: 0 <= k < |disk| ==>
                 var d, first := disk[k], disk[k].id == id && forall j :: 0 <= j < k ==> disk[j].id != id;
                 after[k] == Delegation(d.id, d.fromActor, d.toActor, d.until,
                                        if d.scope == Some("") then None else d.scope, first || d.revoked, d.createdAt)
  {
    var items := Load(disk);
    IndexOfFirst(items, id);
    forall k | 0 <= k < |disk| ensures items[k].id == disk[k].id {}
  }

  /** The item lets the actor stand in: in force, given to that actor, and not limited to a role nobody asked for. */
  predicate StandsIn(fold: Fold, d: Delegation, actor: string, roles: seq<string>, t: int) {
    && InForce(d, t) && fold(Strip(d.toActor)) == fold(Strip(actor))
    && (Unscoped(d.scope) || (forall r :: r in roles ==> r == "")
        || exists r :: r in roles && r != "" && fold(Strip(r)) == fold(Strip(d.scope.value)))
  }

  lemma ServesMeans(fold: Fold, d: Delegation, actor: string, roles: seq<string>, t: int)
    ensures Serves(fold, Reload(d), Norm(fold, actor), Wanted(fold, roles), t) <==> StandsIn(fold, d, actor, roles, t)
  {
    var wanted := Wanted(fold, roles);
    if r :| r in roles && r != "" { assert Norm(fold, r) in wanted; }
    if wanted != {} {
      var w :| w in wanted;
    }
  }
}
