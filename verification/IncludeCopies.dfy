/**
 Copying an example with everything it includes. The include relation is data: what each file's document
 includes, and what each include path resolves to below the directory of the file that names it.
 */
module IncludeCopies {
  import opened Basics

  /** A resolved path, one component per element. */
  type Path = seq<string>
  type Content = string

  /** What one include path resolves to. */
  datatype Target = To(child: Path) | Escaping | Missing

  /** What a file says: not a workflow document, or its untemplated includes in document order. */
  datatype Document = Unreadable | Including(targets: seq<Target>)

  /** The shipped files. */
  datatype Source = Source(doc: Path -> Document, bytes: Path -> Content)

  datatype Failure =
    | Cycle(at: Path)
    | TooDeep(at: Path)
    | NotADocument(at: Path)
    | Escapes(at: Path)
    | NotFound(at: Path)
    | WouldOverwrite(at: Path)

  const MAX_DEPTH: nat := 8

  predicate Includes(src: Source, a: Path, b: Path) {
    src.doc(a).Including? && To(b) in src.doc(a).targets
  }

  /** Each file of the walk includes the next. */
  ghost predicate Walk(src: Source, w: seq<Path>) {
    forall k, l :: 0 <= k && l == k + 1 && l < |w| ==> Includes(src, w[k], w[l])
  }

  /** The last file of the walk is reached from the first by one include or more. */
  ghost predicate WalkFromTo(src: Source, w: seq<Path>, a: Path, b: Path) {
    |w| >= 2 && w[0] == a && w[|w| - 1] == b && Walk(src, w)
  }

  ghost predicate Reaches(src: Source, a: Path, b: Path) {
    exists w: seq<Path> :: WalkFromTo(src, w, a, b)
  }

  ghost predicate ReachesOrIs(src: Source, a: Path, b: Path) {
    a == b || Reaches(src, a, b)
  }

  /** A usable document, all of whose includes are in `s`. */
  predicate Finished(src: Source, s: set<Path>, a: Path) {
    src.doc(a).Including? && forall t :: t in src.doc(a).targets ==> t.To? && t.child in s
  }

  /** Every file of `s` that is not in `open` is finished. */
  ghost predicate ClosedBut(src: Source, s: set<Path>, open: seq<Path>) {
    forall a :: a in s && a !in open ==> Finished(src, s, a)
  }

  lemma ReachesStep(src: Source, a: Path, b: Path, c: Path)
    requires ReachesOrIs(src, a, b) && Includes(src, b, c)
    ensures Reaches(src, a, c)
  {
    if Reaches(src, a, b) {
      var w: seq<Path> :| WalkFromTo(src, w, a, b);
      assert WalkFromTo(src, w + [c], a, c);
    } else {
      assert WalkFromTo(src, [a, c], a, c);
    }
  }

  lemma {:induction false} WalkStaysInside(src: Source, s: set<Path>, w: seq<Path>, n: nat)
    requires ClosedBut(src, s, []) && Walk(src, w)
    requires 1 <= n < |w| && Finished(src, s, w[0])
    ensures w[n] in s
  {
    if n > 1 { WalkStaysInside(src, s, w, n - 1); }
    assert Includes(src, w[n - 1], w[n]);
  }

  /** A closed set that has the root's includes has everything the root reaches. */
  lemma ClosedHasReachable(src: Source, s: set<Path>, root: Path, b: Path)
    requires ClosedBut(src, s, []) && Finished(src, s, root) && Reaches(src, root, b)
    ensures b in s
  {
    var w: seq<Path> :| WalkFromTo(src, w, root, b);
    WalkStaysInside(src, s, w, |w| - 1);
  }

  /** Where a file below the top directory goes. */
  function DestOf(top: Path, dest: Path, child: Path): Path
    requires top <= child
  {
    dest + child[|top|..]
  }

  /** A file keeps its place relative to the top directory. */
  lemma DestMeans(top: Path, dest: Path, rel: Path)
    ensures DestOf(top, dest, top + rel) == dest + rel
  {
    assert (top + rel)[|top|..] == rel;
  }

  lemma DestInjective(top: Path, dest: Path, a: Path, b: Path)
    requires top <= a && top <= b && DestOf(top, dest, a) == DestOf(top, dest, b)
    ensures a == b
  {
    assert a == top + DestOf(top, dest, a)[|dest|..];
    assert b == top + DestOf(top, dest, b)[|dest|..];
  }

  /** Everything a failure claims. */
  ghost predicate Justified(src: Source, top: Path, dest: Path, root: Path, before: set<Path>, f: Failure) {
    match f
    case Cycle(at) => at == root && Reaches(src, root, root)
    case TooDeep(at) => exists w: seq<Path> :: DeepWalk(src, w, root, at)
    case NotADocument(at) => ReachesOrIs(src, root, at) && src.doc(at).Unreadable?
    case Escapes(at) => ReachesOrIs(src, root, at) && src.doc(at).Including? && EscapesFrom(src, top, at)
    case NotFound(at) => ReachesOrIs(src, root, at) && src.doc(at).Including? && Target.Missing in src.doc(at).targets
    case WouldOverwrite(at) => Reaches(src, root, at) && top <= at && DestOf(top, dest, at) in before
  }

  predicate EscapesFrom(src: Source, top: Path, at: Path)
    requires src.doc(at).Including?
  {
    exists t :: t in src.doc(at).targets && (t.Escaping? || (t.To? && !(top <= t.child)))
  }

  /** Eight includes in a row, no file twice. */
  ghost predicate DeepWalk(src: Source, w: seq<Path>, root: Path, at: Path) {
    && |w| == 9 && w[0] == root && w[8] == at && Walk(src, w)
    && forall i, j :: 0 <= i < j < |w| ==> w[i] != w[j]
  }

  /** The fixed part of a copy: where from, where to, and what the destination held before. */
  datatype Plan = Plan(src: Source, top: Path, dest: Path, root: Path, before: map<Path, Content>)

  /** The copies made so far are those of the files met, in order, each once, next to what was there before. */
  ghost predicate Booked(plan: Plan, seen: set<Path>, written: seq<Path>, disk: map<Path, Content>, order: seq<Path>) {
    && (forall x :: x in seen <==> x in order)
    && MetProperly(plan, order)
    && CopiesOf(plan, written, disk, order)
    && Kept(plan, disk)
    && (forall p :: p in disk && p !in plan.before ==> p in written)
  }

  /** Each file met once, below the top directory, reached from the root, and not in the way of what was there. */
  ghost predicate MetProperly(plan: Plan, order: seq<Path>) {
    && (forall i, j :: 0 <= i < j < |order| ==> order[i] != order[j])
    && (forall x :: x in order ==>
          plan.top <= x && Reaches(plan.src, plan.root, x) && DestOf(plan.top, plan.dest, x) !in plan.before)
  }

  /** Copy by copy, where it went and what it holds. */
  ghost predicate CopiesOf(plan: Plan, written: seq<Path>, disk: map<Path, Content>, order: seq<Path>) {
    && |written| == |order|
    && (forall k :: 0 <= k < |order| ==> plan.top <= order[k] && written[k] == DestOf(plan.top, plan.dest, order[k]))
    && (forall k :: 0 <= k < |order| ==> written[k] in disk && disk[written[k]] == plan.src.bytes(order[k]))
  }

  /** What was at the destination before is still there, unchanged. */
  ghost predicate Kept(plan: Plan, disk: map<Path, Content>) {
    forall p :: p in plan.before ==> p in disk && disk[p] == plan.before[p]
  }

  /** The stack leads from the root to `source`, no file twice, and only the root may be missing from the files met. */
  ghost predicate OnTrack(plan: Plan, seen: set<Path>, source: Path, stack: seq<Path>) {
    && Walk(plan.src, stack + [source]) && (stack + [source])[0] == plan.root
    && |stack| <= MAX_DEPTH
    && (forall i, j :: 0 <= i < j < |stack| ==> stack[i] != stack[j])
    && (forall i :: 0 < i < |stack| ==> stack[i] in seen && stack[i] != source)
    && (stack != [] ==> source in seen)
    && (plan.root in seen ==> stack != [] && source == plan.root)
    && ReachesOrIs(plan.src, plan.root, source)
    && ClosedBut(plan.src, seen, stack + [source])
  }

  /** A file not met before goes where no earlier copy went. */
  lemma FreshDestination(
    plan: Plan, seen: set<Path>, written: seq<Path>, disk: map<Path, Content>, order: seq<Path>, child: Path)
    requires Booked(plan, seen, written, disk, order) && child !in seen && plan.top <= child
    ensures DestOf(plan.top, plan.dest, child) !in written
  {
    forall k | 0 <= k < |written| ensures written[k] != DestOf(plan.top, plan.dest, child) {
      assert order[k] in order;
      if written[k] == DestOf(plan.top, plan.dest, child) { DestInjective(plan.top, plan.dest, order[k], child); }
    }
  }

  lemma {:induction false} BookOne(
    plan: Plan, seen: set<Path>, written: seq<Path>, disk: map<Path, Content>, order: seq<Path>, child: Path)
    requires Booked(plan, seen, written, disk, order) && child !in seen && plan.top <= child
    requires Reaches(plan.src, plan.root, child) && DestOf(plan.top, plan.dest, child) !in disk
    ensures var d := DestOf(plan.top, plan.dest, child);
            Booked(plan, seen + {child}, written + [d], disk[d := plan.src.bytes(child)], order + [child])
  {
    var d := DestOf(plan.top, plan.dest, child);
    FreshDestination(plan, seen, written, disk, order, child);
    MeetProperly(plan, order, child);
    CopyOne(plan, written, disk, order, child);
    assert forall x :: x in order + [child] <==> x in order || x == child;
    assert forall p :: p in written ==> p in written + [d];
    assert d in written + [d] by { assert (written + [d])[|written|] == d; }
  }

  lemma MeetProperly(plan: Plan, order: seq<Path>, child: Path)
    requires MetProperly(plan, order) && child !in order && plan.top <= child
    requires Reaches(plan.src, plan.root, child) && DestOf(plan.top, plan.dest, child) !in plan.before
    ensures MetProperly(plan, order + [child])
  {}

  lemma CopyOne(plan: Plan, written: seq<Path>, disk: map<Path, Content>, order: seq<Path>, child: Path)
    requires CopiesOf(plan, written, disk, order) && plan.top <= child
    requires DestOf(plan.top, plan.dest, child) !in written
    ensures var d := DestOf(plan.top, plan.dest, child);
            CopiesOf(plan, written + [d], disk[d := plan.src.bytes(child)], order + [child])
  {
    var d := DestOf(plan.top, plan.dest, child);
    forall k | 0 <= k < |order| ensures written[k] != d {}
  }

  lemma {:induction false} Descend(plan: Plan, seen: set<Path>, source: Path, stack: seq<Path>, child: Path)
    requires OnTrack(plan, seen, source, stack) && source !in stack && |stack| < MAX_DEPTH
    requires Includes(plan.src, source, child) && child !in seen && plan.root !in seen
    ensures OnTrack(plan, seen + {child}, child, stack + [source]) && Reaches(plan.src, plan.root, child)
  {
    ReachesStep(plan.src, plan.root, source, child);
    var w := stack + [source] + [child];
    forall k, l | 0 <= k && l == k + 1 && l < |w| ensures Includes(plan.src, w[k], w[l]) {
      if l < |w| - 1 { assert Includes(plan.src, (stack + [source])[k], (stack + [source])[l]); }
    }
  }

  lemma {:induction false} Ascend(plan: Plan, seen: set<Path>, later: set<Path>, source: Path, stack: seq<Path>)
    requires OnTrack(plan, seen, source, stack) && seen <= later && plan.root !in later
    requires ClosedBut(plan.src, later, stack + [source])
    ensures OnTrack(plan, later, source, stack)
  {}

  /** The first `k` targets are files met already. */
  predicate AllMet(targets: seq<Target>, k: nat, seen: set<Path>)
    requires k <= |targets|
  {
    forall j :: 0 <= j < k ==> targets[j].To? && targets[j].child in seen
  }

  lemma MeetOne(targets: seq<Target>, k: nat, seen: set<Path>, later: set<Path>)
    requires k < |targets| && AllMet(targets, k, seen) && seen <= later && targets[k].To? && targets[k].child in later
    ensures AllMet(targets, k + 1, later)
  {}

  /** Once all of its includes are met, a file is finished and leaves the open ones. */
  lemma {:induction false} Finish(plan: Plan, seen: set<Path>, source: Path, stack: seq<Path>)
    requires OnTrack(plan, seen, source, stack) && plan.src.doc(source).Including?
    requires AllMet(plan.src.doc(source).targets, |plan.src.doc(source).targets|, seen)
    ensures Finished(plan.src, seen, source) && ClosedBut(plan.src, seen, stack)
  {
    forall a | a in seen && a !in stack ensures Finished(plan.src, seen, a) {
      if a != source { assert a !in stack + [source]; }
    }
  }

  /** The stack check can only fire for the root. */
  lemma CycleIsTrue(plan: Plan, seen: set<Path>, source: Path, stack: seq<Path>)
    requires OnTrack(plan, seen, source, stack) && source in stack
    ensures source == plan.root && Reaches(plan.src, plan.root, plan.root)
  {
    assert stack[0] == (stack + [source])[0];
    assert WalkFromTo(plan.src, stack + [source], plan.root, plan.root);
  }

  lemma TooDeepIsTrue(plan: Plan, seen: set<Path>, source: Path, stack: seq<Path>)
    requires OnTrack(plan, seen, source, stack) && source !in stack && |stack| >= MAX_DEPTH
    ensures exists w: seq<Path> :: DeepWalk(plan.src, w, plan.root, source)
  {
    assert DeepWalk(plan.src, stack + [source], plan.root, source);
  }

  /** One copy run: the files met, the copies made, and the destination directory. */
  class Copier {
    const plan: Plan
    var seen: set<Path>
    var written: seq<Path>
    var disk: map<Path, Content>
    ghost var order: seq<Path>

    constructor (plan: Plan)
      ensures this.plan == plan && disk == plan.before && seen == {} && written == [] && order == []
    {
      this.plan, disk, seen, written, order := plan, plan.before, {}, [], [];
    }

    /** Copy what `source` includes, and what that includes in turn. */
    method CopyIncludesFrom(source: Path, stack: seq<Path>) returns (failure: Option<Failure>)
      requires Booked(plan, seen, written, disk, order) && OnTrack(plan, seen, source, stack)
      modifies this`seen, this`written, this`disk, this`order
      ensures Kept(plan, disk)
      ensures failure.Some? ==> Justified(plan.src, plan.top, plan.dest, plan.root, plan.before.Keys, failure.value)
      ensures failure.None? ==>
                && Booked(plan, seen, written, disk, order)
                && old(seen) <= seen && plan.root !in seen && source !in stack
                && ClosedBut(plan.src, seen, stack) && Finished(plan.src, seen, source)
      decreases MAX_DEPTH - |stack|, 2
    {
      if source in stack {
        CycleIsTrue(plan, seen, source, stack);
        return Some(Cycle(source));
      }
      if |stack| >= MAX_DEPTH {
        TooDeepIsTrue(plan, seen, source, stack);
        return Some(TooDeep(source));
      }
      if plan.src.doc(source).Unreadable? { return Some(NotADocument(source)); }
      failure := CopyTargets(source, stack);
      if failure.None? { Finish(plan, seen, source, stack); }
    }

    /** Copy the includes of `source` in document order, up to the first failure. */
    method CopyTargets(source: Path, stack: seq<Path>) returns (failure: Option<Failure>)
      requires Booked(plan, seen, written, disk, order) && OnTrack(plan, seen, source, stack)
      requires source !in stack && |stack| < MAX_DEPTH && plan.root !in seen && plan.src.doc(source).Including?
      modifies this`seen, this`written, this`disk, this`order
      ensures Kept(plan, disk)
      ensures failure.Some? ==> Justified(plan.src, plan.top, plan.dest, plan.root, plan.before.Keys, failure.value)
      ensures failure.None? ==>
                && Booked(plan, seen, written, disk, order) && OnTrack(plan, seen, source, stack)
                && old(seen) <= seen && plan.root !in seen
                && AllMet(plan.src.doc(source).targets, |plan.src.doc(source).targets|, seen)
      decreases MAX_DEPTH - |stack|, 1
    {
      var targets := plan.src.doc(source).targets;
      for k := 0 to |targets|
        invariant Booked(plan, seen, written, disk, order) && OnTrack(plan, seen, source, stack)
        invariant old(seen) <= seen && plan.root !in seen
        invariant AllMet(targets, k, seen)
      {
        ghost var met := seen;
        failure := CopyInclude(source, stack, targets[k]);
        if failure.Some? { return; }
        MeetOne(targets, k, met, seen);
      }
      failure := None;
    }

    /** Copy one of the includes of `source`, unless it was met before. */
    method CopyInclude(source: Path, stack: seq<Path>, target: Target) returns (failure: Option<Failure>)
      requires Booked(plan, seen, written, disk, order) && OnTrack(plan, seen, source, stack)
      requires source !in stack && |stack| < MAX_DEPTH && plan.root !in seen
      requires plan.src.doc(source).Including? && target in plan.src.doc(source).targets
      modifies this`seen, this`written, this`disk, this`order
      ensures Kept(plan, disk)
      ensures failure.Some? ==> Justified(plan.src, plan.top, plan.dest, plan.root, plan.before.Keys, failure.value)
      ensures failure.None? ==>
                && Booked(plan, seen, written, disk, order) && OnTrack(plan, seen, source, stack)
                && old(seen) <= seen && plan.root !in seen && target.To? && target.child in seen
      decreases MAX_DEPTH - |stack|, 0
    {
      if target.Escaping? { return Some(Escapes(source)); }
      if target.Missing? { return Some(NotFound(source)); }
      var child := target.child;
      if !(plan.top <= child) { return Some(Escapes(source)); }
      if child in seen { return None; }
      var destChild := DestOf(plan.top, plan.dest, child);
      Descend(plan, seen, source, stack, child);
      FreshDestination(plan, seen, written, disk, order, child);
      if destChild in disk {
        seen := seen + {child};
        return Some(WouldOverwrite(child));
      }
      BookOne(plan, seen, written, disk, order, child);
      ghost var met := seen;
      seen := seen + {child};
      disk := disk[destChild := plan.src.bytes(child)];
      written := written + [destChild];
      order := order + [child];
      failure := CopyIncludesFrom(child, stack + [source]);
      if failure.None? { Ascend(plan, met, seen, source, stack); }
    }
  }

  /** Every file the root includes, directly or not, is a document with usable includes. */
  ghost predicate AllUsable(src: Source, top: Path, root: Path) {
    forall a :: ReachesOrIs(src, root, a) ==>
      src.doc(a).Including? && forall t :: t in src.doc(a).targets ==> t.To? && top <= t.child
  }

  /** Nothing stands where a copy has to go. */
  ghost predicate RoomForAll(src: Source, top: Path, dest: Path, root: Path, before: set<Path>) {
    forall a :: Reaches(src, root, a) && top <= a ==> DestOf(top, dest, a) !in before
  }

  ghost predicate NoDeepWalk(src: Source, root: Path) {
    forall w: seq<Path>, at :: !DeepWalk(src, w, root, at)
  }

  /** What a completed copy leaves behind: `order` lists the files copied, `written` where they went. */
  ghost predicate Complete(plan: Plan, order: seq<Path>, written: seq<Path>, disk: map<Path, Content>) {
    && (forall x :: x in order <==> Reaches(plan.src, plan.root, x))
    && (forall i, j :: 0 <= i < j < |order| ==> order[i] != order[j])
    && |written| == |order|
    && (forall k :: 0 <= k < |order| ==> plan.top <= order[k] && written[k] == DestOf(plan.top, plan.dest, order[k]))
    && (forall k :: 0 <= k < |order| ==> written[k] in disk && disk[written[k]] == plan.src.bytes(order[k]))
    && (forall i, j :: 0 <= i < j < |written| ==> written[i] != written[j])
    && (forall p :: p in disk <==> p in plan.before || p in written)
  }

  /** A root that the copy cannot fail on. */
  ghost predicate Copyable(plan: Plan) {
    && !Reaches(plan.src, plan.root, plan.root)
    && AllUsable(plan.src, plan.top, plan.root)
    && RoomForAll(plan.src, plan.top, plan.dest, plan.root, plan.before.Keys)
  }

  /**
   Copy the include tree of a root. On success the copies are exactly the files reachable from the root, each once to
   a place of its own, and the root is on no include cycle. A failure names a true cause, so a root that is on no
   cycle, whose reachable files are usable, have room, and are nowhere eight includes deep, is copied.
   */
  method CopyIncludeTree(plan: Plan)
    returns (failure: Option<Failure>, written: seq<Path>, disk: map<Path, Content>, ghost order: seq<Path>)
    ensures Kept(plan, disk)
    ensures failure.None? ==> Complete(plan, order, written, disk) && Copyable(plan)
    ensures failure.Some? ==> Justified(plan.src, plan.top, plan.dest, plan.root, plan.before.Keys, failure.value)
    ensures Copyable(plan) && NoDeepWalk(plan.src, plan.root) ==> failure.None?
  {
    var c := new Copier(plan);
    failure := c.CopyIncludesFrom(plan.root, []);
    written, disk, order := c.written, c.disk, c.order;
    if failure.None? {
      CopyIsComplete(plan, c.seen, written, disk, order);
    } else {
      NoCauseNoFailure(plan, failure.value);
    }
  }

  lemma {:induction false} CopyIsComplete(
    plan: Plan, seen: set<Path>, written: seq<Path>, disk: map<Path, Content>, order: seq<Path>)
    requires Booked(plan, seen, written, disk, order) && plan.root !in seen
    requires ClosedBut(plan.src, seen, []) && Finished(plan.src, seen, plan.root)
    ensures Complete(plan, order, written, disk) && Copyable(plan)
  {
    forall x | Reaches(plan.src, plan.root, x) ensures x in seen && Finished(plan.src, seen, x) {
      ClosedHasReachable(plan.src, seen, plan.root, x);
    }
    forall i, j | 0 <= i < j < |written| ensures written[i] != written[j] {
      if written[i] == written[j] { DestInjective(plan.top, plan.dest, order[i], order[j]); }
    }
  }

  lemma NoCauseNoFailure(plan: Plan, f: Failure)
    requires Justified(plan.src, plan.top, plan.dest, plan.root, plan.before.Keys, f)
    ensures !(Copyable(plan) && NoDeepWalk(plan.src, plan.root))
  {
    if f.TooDeep? {
      var w: seq<Path> :| DeepWalk(plan.src, w, plan.root, f.at);
    }
  }
}
