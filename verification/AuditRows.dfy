/**
 The rows of one audit file, the hash chain over them, and the two loops that walk it:
 the verifier and the search for the head of the chain.
 */
module AuditRows {
  import opened Basics

  /** The `prev_hash` of the first row of a run's first file. */
  const GENESIS: string := "0000000000000000000000000000000000000000000000000000000000000000"

  /** A value stored under one key of a row; `FileRef(n)` is the name of the n-th rotated file. */
  datatype Field = Text(s: string) | Number(n: int) | FileRef(index: nat)

  type Payload = map<string, Field>

  /** One JSON object: the three chain keys, each possibly absent, and every other key. */
  datatype Row = Row(data: Payload, seqNo: Option<int>, prevHash: Option<string>, entryHash: Option<string>)

  /** One physical line of a file. */
  datatype Line = Blank | Invalid | NonObject | Object(row: Row)

  type File = seq<Line>

  /** The digest of the canonical JSON of a row. Nothing is known about it unless a lemma says so. */
  type Hash = Row -> string

  predicate IsChained(r: Row) {
    r.seqNo.Some? && r.prevHash.Some? && r.entryHash.Some?
  }

  predicate IsAnchorEvent(e: Payload) {
    "event" in e && e["event"] == Text(ANCHOR)
  }

  predicate IsAnchor(r: Row) {
    IsAnchorEvent(r.data)
  }

  type Chained = r: Row | IsChained(r)
    witness Row(map[], Some(0), Some(""), Some(""))

  /** The row as it is hashed: everything but `entry_hash`. */
  function Body(r: Row): Row {
    r.(entryHash := None)
  }

  function EntryHash(h: Hash, r: Row): string {
    h(Body(r))
  }

  /** A row with its own digest filled in. */
  function Seal(h: Hash, r: Row): Row {
    r.(entryHash := Some(EntryHash(h, r)))
  }

  // ---------------------------------------------------------------- what a sound chain is

  predicate IsUnchainedLine(l: Line) {
    l.Object? && !IsChained(l.row)
  }

  predicate Legible(l: Line) {
    l.Blank? || l.Object?
  }

  /** The chained rows of a file, oldest first. */
  function ChainedRows(f: File): seq<Chained> {
    if f == [] then [] else
    var rest := ChainedRows(f[..|f| - 1]);
    var l := f[|f| - 1];
    if l.Object? && IsChained(l.row) then rest + [l.row] else rest
  }

  /** The lines that count as entries: every line that is not blank. */
  function Entries(f: File): seq<Line> {
    if f == [] then [] else
    var rest := Entries(f[..|f| - 1]);
    var l := f[|f| - 1];
    if l.Blank? then rest else rest + [l]
  }

  predicate Follows(a: Chained, b: Chained) {
    && b.prevHash == a.entryHash
    && (a.seqNo.value == 0 || b.seqNo.value == a.seqNo.value + 1)
  }

  predicate Sealed(h: Hash, r: Chained) {
    r.entryHash.value == EntryHash(h, r)
  }

  predicate Opens(r: Chained) {
    IsAnchor(r) || r.prevHash.value == GENESIS
  }

  predicate LinkAt(cs: seq<Chained>, k: nat)
    requires k < |cs|
  {
    if k == 0 then Opens(cs[0]) else Follows(cs[k - 1], cs[k])
  }

  /** Every row carries its own digest, the first one opens a chain, each later one extends its predecessor. */
  ghost predicate Linked(h: Hash, cs: seq<Chained>) {
    && (forall k :: 0 <= k < |cs| ==> Sealed(h, cs[k]))
    && (forall k :: 0 <= k < |cs| ==> LinkAt(cs, k))
  }

  predicate AllLegible(f: File) {
    forall k :: 0 <= k < |f| ==> Legible(f[k])
  }

  /** What a file must satisfy to be reported as intact. */
  ghost predicate ChainHolds(h: Hash, f: File) {
    AllLegible(f) && Linked(h, ChainedRows(f))
  }

  lemma {:induction false} LinkedPrefix(h: Hash, cs: seq<Chained>, n: nat)
    requires n <= |cs| && Linked(h, cs)
    ensures Linked(h, cs[..n])
  {
    forall k | 0 <= k < n ensures LinkAt(cs[..n], k) {
      assert LinkAt(cs, k);
    }
  }

  /** One more row keeps a chain sound exactly when it is sealed and attaches to the head. */
  lemma {:induction false} LinkedSnoc(h: Hash, cs: seq<Chained>, r: Chained)
    ensures Linked(h, cs + [r]) <==>
            Linked(h, cs) && Sealed(h, r) && (if cs == [] then Opens(r) else Follows(cs[|cs| - 1], r))
  {
    var ds := cs + [r];
    if Linked(h, ds) {
      LinkedPrefix(h, ds, |cs|);
      assert ds[..|cs|] == cs;
      assert Sealed(h, ds[|cs|]) && LinkAt(ds, |cs|);
    }
    if Linked(h, cs) && Sealed(h, r) && (if cs == [] then Opens(r) else Follows(cs[|cs| - 1], r)) {
      forall k | 0 <= k < |ds| ensures LinkAt(ds, k) {
        if k < |cs| { assert LinkAt(cs, k); }
      }
    }
  }

  /** Cutting a file short never breaks it: a sound file has only sound prefixes. */
  lemma {:induction false} ChainHoldsPrefix(h: Hash, f: File, n: nat)
    requires n <= |f| && ChainHolds(h, f)
    ensures ChainHolds(h, f[..n])
    decreases |f|
  {
    if n < |f| {
      var g := f[..|f| - 1];
      LinkedPrefix(h, ChainedRows(f), |ChainedRows(g)|);
      assert ChainedRows(f)[..|ChainedRows(g)|] == ChainedRows(g);
      ChainHoldsPrefix(h, g, n);
      assert g[..n] == f[..n];
    } else {
      assert f[..n] == f;
    }
  }

  // ---------------------------------------------------------------- the verifier

  /** Why a file is not intact. */
  datatype Reason =
    | FileNotFound
    | BadJson(line: nat)
    | NonObjectEntry(line: nat)
    | HashMismatch(at: int)
    | PrevMismatch(at: int)
    | SequenceGap(at: int, prev: int)

  datatype Report = Report(
    total: nat, chained: nat, unchained: nat, ranges: seq<(nat, nat)>,
    firstBreak: Option<int>, reason: Option<Reason>, ok: bool)

  /** What is wrong with line `k` of a file whose first `k` lines are intact, and where it is reported. */
  function BreakAt(h: Hash, f: File, k: nat): (Reason, int)
    requires k < |f| && !f[k].Blank?
  {
    match f[k]
    case Invalid => (BadJson(k + 1), k + 1)
    case NonObject => (NonObjectEntry(k + 1), k + 1)
    case Object(r) =>
      var s := r.seqNo;
      var at := if s.Some? then s.value else 0;
      var before := ChainedRows(f[..k]);
      if !IsChained(r) || !Sealed(h, r) then (HashMismatch(at), at)
      else if before == [] || r.prevHash != before[|before| - 1].entryHash then (PrevMismatch(at), at)
      else (SequenceGap(at, before[|before| - 1].seqNo.value), at)
  }

  predicate InRange(r: (nat, nat), p: nat) {
    r.0 <= p <= r.1
  }

  predicate Apart(a: (nat, nat), b: (nat, nat)) {
    a.1 + 1 < b.0
  }

  ghost predicate Covered(ranges: seq<(nat, nat)>, p: nat) {
    exists i :: 0 <= i < |ranges| && InRange(ranges[i], p)
  }

  /** Entry number `p`, counted from 1, is unchained. */
  predicate UnchainedAt(es: seq<Line>, p: nat) {
    1 <= p <= |es| && IsUnchainedLine(es[p - 1])
  }

  /**
   `ranges` are exactly the maximal runs of unchained entries, counted from 1: in order, never touching,
   inside the file, and covering an entry if and only if it is unchained.
   */
  ghost predicate ExactRanges(ranges: seq<(nat, nat)>, es: seq<Line>) {
    && (forall i :: 0 <= i < |ranges| ==> 1 <= ranges[i].0 <= ranges[i].1 <= |es|)
    && (forall i, j :: 0 <= i < j < |ranges| ==> Apart(ranges[i], ranges[j]))
    && (forall p: nat :: Covered(ranges, p) <==> UnchainedAt(es, p))
  }

  /** `ranges` with the open run, if there is one, closed at `end`. A `start` of 0 means that no run is open. */
  function CloseUnchained(ranges: seq<(nat, nat)>, start: nat, end: nat): seq<(nat, nat)> {
    if start == 0 || end < start then ranges else ranges + [(start, end)]
  }

  /** The ranges of the entries walked so far, the last run still open from `start` on. */
  ghost predicate RangesSoFar(ranges: seq<(nat, nat)>, es: seq<Line>, start: nat) {
    && (if start == 0 then !UnchainedAt(es, |es|)
        else start <= |es| && !UnchainedAt(es, start - 1) && forall p: nat :: start <= p <= |es| ==> UnchainedAt(es, p))
    && ExactRanges(CloseUnchained(ranges, start, |es|), es)
  }

  lemma {:induction false} CoveredSnoc(ranges: seq<(nat, nat)>, r: (nat, nat), p: nat)
    ensures Covered(ranges + [r], p) <==> Covered(ranges, p) || InRange(r, p)
  {
    var longer := ranges + [r];
    if i :| 0 <= i < |ranges| && InRange(ranges[i], p) { assert InRange(longer[i], p); }
    if InRange(r, p) { assert InRange(longer[|ranges|], p); }
  }

  /** An unchained entry opens a run, or makes the open one longer. */
  lemma {:induction false} LongerCovers(ranges: seq<(nat, nat)>, es: seq<Line>, l: Line, start: nat, p: nat)
    requires RangesSoFar(ranges, es, start) && IsUnchainedLine(l)
    ensures var s := if start == 0 then |es| + 1 else start;
            Covered(ranges + [(s, |es| + 1)], p) <==> UnchainedAt(es + [l], p)
  {
    var s := if start == 0 then |es| + 1 else start;
    CoveredSnoc(ranges, (s, |es| + 1), p);
    assert Covered(CloseUnchained(ranges, start, |es|), p) <==> UnchainedAt(es, p);
    if start != 0 { CoveredSnoc(ranges, (start, |es|), p); }
  }

  lemma {:induction false} LongerApart(ranges: seq<(nat, nat)>, es: seq<Line>, start: nat, i: nat)
    requires RangesSoFar(ranges, es, start) && i < |ranges|
    ensures Apart(ranges[i], (if start == 0 then |es| + 1 else start, |es| + 1))
  {
    var earlier := CloseUnchained(ranges, start, |es|);
    assert earlier[i] == ranges[i];
    if start == 0 {
      assert !Covered(earlier, |es|);
      assert !InRange(earlier[i], |es|);
    } else {
      assert Apart(earlier[i], earlier[|ranges|]);
    }
  }

  lemma {:induction false} LongerInside(ranges: seq<(nat, nat)>, es: seq<Line>, start: nat, i: nat)
    requires RangesSoFar(ranges, es, start) && i < |ranges|
    ensures 1 <= ranges[i].0 <= ranges[i].1 <= |es|
  {
    var earlier := CloseUnchained(ranges, start, |es|);
    assert earlier[i] == ranges[i];
  }

  lemma {:induction false} LongerOrdered(ranges: seq<(nat, nat)>, es: seq<Line>, start: nat, i: nat, j: nat)
    requires RangesSoFar(ranges, es, start) && i < j < |ranges|
    ensures Apart(ranges[i], ranges[j])
  {
    var earlier := CloseUnchained(ranges, start, |es|);
    assert earlier[i] == ranges[i] && earlier[j] == ranges[j] && Apart(earlier[i], earlier[j]);
  }

  /** The run open at the last entry is closed there: the ranges are exact. */
  lemma {:induction false} LongerIsExact(ranges: seq<(nat, nat)>, es: seq<Line>, l: Line, start: nat)
    requires RangesSoFar(ranges, es, start) && IsUnchainedLine(l)
    ensures ExactRanges(ranges + [(if start == 0 then |es| + 1 else start, |es| + 1)], es + [l])
  {
    var s := if start == 0 then |es| + 1 else start;
    var rs := ranges + [(s, |es| + 1)];
    forall i | 0 <= i < |rs| ensures 1 <= rs[i].0 <= rs[i].1 <= |es| + 1 {
      if i < |ranges| { LongerInside(ranges, es, start, i); }
    }
    forall i, j | 0 <= i < j < |rs| ensures Apart(rs[i], rs[j]) {
      if j < |ranges| { LongerOrdered(ranges, es, start, i, j); } else { LongerApart(ranges, es, start, i); }
    }
    forall p: nat ensures Covered(rs, p) <==> UnchainedAt(es + [l], p) {
      LongerCovers(ranges, es, l, start, p);
    }
  }

  lemma {:induction false} NextUnchained(ranges: seq<(nat, nat)>, es: seq<Line>, l: Line, start: nat)
    requires RangesSoFar(ranges, es, start) && IsUnchainedLine(l)
    ensures RangesSoFar(ranges, es + [l], if start == 0 then |es| + 1 else start)
  {
    var fs := es + [l];
    LongerIsExact(ranges, es, l, start);
    forall p: nat | p <= |es| ensures UnchainedAt(fs, p) == UnchainedAt(es, p) {}
  }

  lemma {:induction false} NextChained(ranges: seq<(nat, nat)>, es: seq<Line>, l: Line, start: nat)
    requires RangesSoFar(ranges, es, start) && !IsUnchainedLine(l)
    ensures RangesSoFar(CloseUnchained(ranges, start, |es|), es + [l], 0)
  {
    var fs := es + [l];
    var rs := CloseUnchained(ranges, start, |es|);
    forall p: nat ensures UnchainedAt(fs, p) == UnchainedAt(es, p) {}
  }

  lemma {:induction false} StepBack(f: File, k: nat)
    requires k < |f|
    ensures ChainedRows(f[..k + 1]) ==
            if f[k].Object? && IsChained(f[k].row) then ChainedRows(f[..k]) + [f[k].row] else ChainedRows(f[..k])
    ensures Entries(f[..k + 1]) == if f[k].Blank? then Entries(f[..k]) else Entries(f[..k]) + [f[k]]
  {
    assert f[..k + 1][..k] == f[..k];
  }

  /** The first broken line: the file is intact up to it, and the line itself breaks the chain. */
  ghost predicate BreaksFirstAt(h: Hash, f: File, k: nat, reason: Reason, at: int) {
    && k < |f| && !f[k].Blank?
    && ChainHolds(h, f[..k])
    && !ChainHolds(h, f[..k + 1])
    && (reason, at) == BreakAt(h, f, k)
  }

  /** The report covers the lines before `k`, and counts line `k` as an entry of neither kind. */
  ghost predicate TalliedTo(f: File, k: nat, r: Report)
    requires k < |f|
  {
    && r.total == |Entries(f[..k])| + 1
    && r.chained == |ChainedRows(f[..k])|
    && r.total == r.chained + r.unchained + 1
    && ExactRanges(r.ranges, Entries(f[..k]))
  }

  /** The report stops at line `k`, the first one that breaks the chain. */
  ghost predicate StoppedAt(h: Hash, f: File, k: nat, r: Report) {
    && r.reason.Some? && r.firstBreak.Some?
    && BreaksFirstAt(h, f, k, r.reason.value, r.firstBreak.value)
    && TalliedTo(f, k, r)
  }

  /** A report is right about a file. */
  ghost predicate Truthful(h: Hash, f: File, r: Report) {
    && (r.ok <==> ChainHolds(h, f))
    && (r.ok ==>
          && r.total == |Entries(f)|
          && r.chained == |ChainedRows(f)|
          && r.total == r.chained + r.unchained
          && ExactRanges(r.ranges, Entries(f))
          && r.firstBreak == None && r.reason == None)
    && (!r.ok ==> exists k :: StoppedAt(h, f, k, r))
  }

  /** What a report that stops says: which line, by its number or the row's own, and what is wrong with it. */
  lemma StopSays(h: Hash, f: File, k: nat, r: Report)
    requires StoppedAt(h, f, k, r)
    ensures f[k].Invalid? ==> r.reason == Some(BadJson(k + 1)) && r.firstBreak == Some(k + 1)
    ensures f[k].NonObject? ==> r.reason == Some(NonObjectEntry(k + 1)) && r.firstBreak == Some(k + 1)
    ensures f[k].Object? && IsChained(f[k].row) ==>
              var row, before := f[k].row, ChainedRows(f[..k]);
              var at, intact := row.seqNo.value, row.entryHash == Some(h(row.(entryHash := None)));
              && r.firstBreak == Some(at)
              && (r.reason == Some(HashMismatch(at)) <==> !intact)
              && (r.reason == Some(PrevMismatch(at)) <==>
                    intact && (before == [] || row.prevHash != before[|before| - 1].entryHash))
              && (intact && before != [] && row.prevHash == before[|before| - 1].entryHash ==>
                    r.reason == Some(SequenceGap(at, before[|before| - 1].seqNo.value)))
  {}

  lemma {:induction false} BreakIsFinal(h: Hash, f: File, k: nat, r: Report)
    requires !r.ok && StoppedAt(h, f, k, r)
    ensures Truthful(h, f, r)
  {
    if ChainHolds(h, f) { ChainHoldsPrefix(h, f, k + 1); }
  }

  lemma {:induction false} LegibleNext(f: File, k: nat)
    requires k < |f| && AllLegible(f[..k])
    ensures AllLegible(f[..k + 1]) <==> Legible(f[k])
  {
    var g := f[..k + 1];
    assert g[k] == f[k];
    forall i | 0 <= i < k ensures Legible(g[i]) { assert g[i] == f[..k][i]; }
  }

  lemma {:induction false} HoldsNext(h: Hash, f: File, k: nat)
    requires k < |f| && ChainHolds(h, f[..k])
    ensures ChainHolds(h, f[..k + 1]) <==> Legible(f[k]) && Linked(h, ChainedRows(f[..k + 1]))
  {
    LegibleNext(f, k);
  }

  lemma {:induction false} BrokenNext(h: Hash, f: File, k: nat)
    requires k < |f| && ChainHolds(h, f[..k])
    ensures f[k].Invalid? || f[k].NonObject? ==> !ChainHolds(h, f[..k + 1])
    ensures IsUnchainedLine(f[k]) || f[k].Blank? ==> ChainHolds(h, f[..k + 1])
    ensures f[k].Object? && IsChained(f[k].row) ==>
              var before := ChainedRows(f[..k]);
              && (ChainHolds(h, f[..k + 1]) <==> Linked(h, before + [f[k].row]))
              && (ChainHolds(h, f[..k + 1]) <==>
                    Sealed(h, f[k].row)
                    && (if before == [] then Opens(f[k].row) else Follows(before[|before| - 1], f[k].row)))
  {
    StepBack(f, k);
    HoldsNext(h, f, k);
    if f[k].Object? && IsChained(f[k].row) {
      LinkedSnoc(h, ChainedRows(f[..k]), f[k].row);
    }
  }

  /** `prevHash` and `prevSeq` are those of the last chained row, or the start values when there is none. */
  predicate HeadIs(cs: seq<Chained>, prevHash: string, prevSeq: int) {
    if cs == [] then prevHash == GENESIS && prevSeq == 0
    else prevHash == cs[|cs| - 1].entryHash.value && prevSeq == cs[|cs| - 1].seqNo.value
  }

  /** What the walk knows of the chain after `k` lines that were all intact. */
  ghost predicate ChainWalked(h: Hash, f: File, k: nat, r: Report, prevHash: string, prevSeq: int)
    requires k <= |f|
  {
    && ChainHolds(h, f[..k])
    && r.ok && r.firstBreak == None && r.reason == None
    && r.total == |Entries(f[..k])| && r.chained == |ChainedRows(f[..k])|
    && r.total == r.chained + r.unchained
    && HeadIs(ChainedRows(f[..k]), prevHash, prevSeq)
  }

  /** What the walk knows after `k` lines that were all intact. */
  ghost predicate Walked(h: Hash, f: File, k: nat, r: Report, prevHash: string, prevSeq: int, start: nat)
    requires k <= |f|
  {
    ChainWalked(h, f, k, r, prevHash, prevSeq) && RangesSoFar(r.ranges, Entries(f[..k]), start)
  }

  lemma WalkStarts(h: Hash, f: File)
    ensures Walked(h, f, 0, Report(0, 0, 0, [], None, None, true), GENESIS, 0, 0)
  {
    assert f[..0] == [];
  }

  lemma {:induction false} WalkEnds(h: Hash, f: File, r: Report, prevHash: string, prevSeq: int, start: nat)
    requires Walked(h, f, |f|, r, prevHash, prevSeq, start)
    ensures Truthful(h, f, r.(ranges := CloseUnchained(r.ranges, start, r.total)))
  {
    assert f[..|f|] == f;
  }

  lemma {:induction false} ChainOverUnchained(h: Hash, f: File, k: nat, r: Report, prevHash: string, prevSeq: int)
    requires k < |f| && IsUnchainedLine(f[k]) && ChainWalked(h, f, k, r, prevHash, prevSeq)
    ensures ChainWalked(h, f, k + 1, r.(total := r.total + 1, unchained := r.unchained + 1), prevHash, prevSeq)
  {
    StepBack(f, k);
    BrokenNext(h, f, k);
  }

  lemma {:induction false} WalkOverUnchained(
    h: Hash, f: File, k: nat, r: Report, prevHash: string, prevSeq: int, start: nat)
    requires k < |f| && IsUnchainedLine(f[k]) && Walked(h, f, k, r, prevHash, prevSeq, start)
    ensures Walked(h, f, k + 1, r.(total := r.total + 1, unchained := r.unchained + 1), prevHash, prevSeq,
                   if start == 0 then r.total + 1 else start)
  {
    ChainOverUnchained(h, f, k, r, prevHash, prevSeq);
    NextUnchained(r.ranges, Entries(f[..k]), f[k], start);
    assert Entries(f[..k + 1]) == Entries(f[..k]) + [f[k]] by { StepBack(f, k); }
  }

  lemma {:induction false} WalkOverChained(
    h: Hash, f: File, k: nat, r: Report, prevHash: string, prevSeq: int, start: nat)
    requires k < |f| && f[k].Object? && IsChained(f[k].row) && Walked(h, f, k, r, prevHash, prevSeq, start)
    requires ChainHolds(h, f[..k + 1])
    ensures Walked(h, f, k + 1,
                   r.(total := r.total + 1, chained := r.chained + 1,
                      ranges := CloseUnchained(r.ranges, start, r.total)),
                   f[k].row.entryHash.value, f[k].row.seqNo.value, 0)
  {
    StepBack(f, k);
    NextChained(r.ranges, Entries(f[..k]), f[k], start);
  }

  lemma {:induction false} WalkOverBlank(
    h: Hash, f: File, k: nat, r: Report, prevHash: string, prevSeq: int, start: nat)
    requires k < |f| && f[k].Blank? && Walked(h, f, k, r, prevHash, prevSeq, start)
    ensures Walked(h, f, k + 1, r, prevHash, prevSeq, start)
  {
    StepBack(f, k);
    BrokenNext(h, f, k);
  }

  lemma {:induction false} StopsAtIllegible(
    h: Hash, f: File, k: nat, r: Report, prevHash: string, prevSeq: int, start: nat)
    requires k < |f| && (f[k].Invalid? || f[k].NonObject?) && Walked(h, f, k, r, prevHash, prevSeq, start)
    ensures Truthful(h, f, r.(total := r.total + 1, ok := false, firstBreak := Some(k + 1),
                              reason := Some(if f[k].Invalid? then BadJson(k + 1) else NonObjectEntry(k + 1)),
                              ranges := CloseUnchained(r.ranges, start, r.total)))
  {
    BrokenNext(h, f, k);
    BreakIsFinal(h, f, k, r.(total := r.total + 1, ok := false, firstBreak := Some(k + 1),
                             reason := Some(if f[k].Invalid? then BadJson(k + 1) else NonObjectEntry(k + 1)),
                             ranges := CloseUnchained(r.ranges, start, r.total)));
  }

  lemma {:induction false} StopsAtFault(
    h: Hash, f: File, k: nat, r: Report, prevHash: string, prevSeq: int, start: nat, fault: Reason)
    requires k < |f| && f[k].Object? && IsChained(f[k].row) && Walked(h, f, k, r, prevHash, prevSeq, start)
    requires !ChainHolds(h, f[..k + 1]) && fault == BreakAt(h, f, k).0
    ensures Truthful(h, f, r.(total := r.total + 1, ok := false, firstBreak := Some(f[k].row.seqNo.value),
                              reason := Some(fault), ranges := CloseUnchained(r.ranges, start, r.total)))
  {
    BreakIsFinal(h, f, k, r.(total := r.total + 1, ok := false, firstBreak := Some(f[k].row.seqNo.value),
                             reason := Some(fault), ranges := CloseUnchained(r.ranges, start, r.total)));
  }

  /** The row does not attach to the chain before it, whatever its number. */
  predicate Detached(before: seq<Chained>, row: Chained) {
    if before == [] then !Opens(row) else row.prevHash != before[|before| - 1].entryHash
  }

  /** What is found in a row behind a sound chain: the digest is blamed before the link, the link before the number. */
  ghost predicate IsFault(h: Hash, before: seq<Chained>, row: Chained, fault: Option<Reason>) {
    && (fault.None? <==> Linked(h, before + [row]))
    && (fault == Some(HashMismatch(row.seqNo.value)) <==> !Sealed(h, row))
    && (fault == Some(PrevMismatch(row.seqNo.value)) <==> Sealed(h, row) && Detached(before, row))
    && (fault.Some? && Sealed(h, row) && !Detached(before, row) ==>
          before != [] && fault == Some(SequenceGap(row.seqNo.value, before[|before| - 1].seqNo.value)))
  }

  /** A chained row is found faulty exactly when the chain with it is not sound. */
  method CheckRow(
    h: Hash, row: Chained, first: bool, prevHash: string, prevSeq: int, ghost before: seq<Chained>)
    returns (fault: Option<Reason>)
    requires Linked(h, before) && HeadIs(before, prevHash, prevSeq) && (first <==> before == [])
    ensures IsFault(h, before, row, fault)
  {
    LinkedSnoc(h, before, row);
    var at := row.seqNo.value;
    if row.entryHash.value != EntryHash(h, row) { return Some(HashMismatch(at)); }
    if first {
      if !IsAnchor(row) && row.prevHash.value != prevHash { return Some(PrevMismatch(at)); }
    } else if row.prevHash.value != prevHash {
      return Some(PrevMismatch(at));
    }
    if prevSeq != 0 && at != prevSeq + 1 { return Some(SequenceGap(at, prevSeq)); }
    return None;
  }

  lemma {:induction false} FaultMeans(h: Hash, f: File, k: nat, fault: Option<Reason>)
    requires k < |f| && f[k].Object? && IsChained(f[k].row) && ChainHolds(h, f[..k])
    requires IsFault(h, ChainedRows(f[..k]), f[k].row, fault)
    ensures fault.None? <==> ChainHolds(h, f[..k + 1])
    ensures fault.Some? ==> fault.value == BreakAt(h, f, k).0
  {
    BrokenNext(h, f, k);
  }

  /** The report after a chained row: final when the row is faulty, else one row further. */
  method TakeChained(
    h: Hash, ghost f: File, ghost k: nat, r: Report, row: Chained, prevHash: string, prevSeq: int, start: nat)
    returns (next: Report)
    requires k < |f| && f[k] == Object(row) && Walked(h, f, k, r, prevHash, prevSeq, start)
    ensures if next.ok then Walked(h, f, k + 1, next, row.entryHash.value, row.seqNo.value, 0) else Truthful(h, f, next)
  {
    next := r.(total := r.total + 1, ranges := CloseUnchained(r.ranges, start, r.total));
    var fault := CheckRow(h, row, r.chained == 0, prevHash, prevSeq, ChainedRows(f[..k]));
    FaultMeans(h, f, k, fault);
    if fault.Some? {
      next := next.(ok := false, firstBreak := Some(row.seqNo.value), reason := fault);
      StopsAtFault(h, f, k, r, prevHash, prevSeq, start, fault.value);
    } else {
      next := next.(chained := r.chained + 1);
      WalkOverChained(h, f, k, r, prevHash, prevSeq, start);
    }
  }

  /** The final report at a line that is no entry. */
  method StopIllegible(
    h: Hash, f: File, k: nat, r: Report, ghost prevHash: string, ghost prevSeq: int, start: nat)
    returns (last: Report)
    requires k < |f| && (f[k].Invalid? || f[k].NonObject?) && Walked(h, f, k, r, prevHash, prevSeq, start)
    ensures Truthful(h, f, last)
  {
    StopsAtIllegible(h, f, k, r, prevHash, prevSeq, start);
    last := r.(total := r.total + 1, ok := false, firstBreak := Some(k + 1),
               reason := Some(if f[k].Invalid? then BadJson(k + 1) else NonObjectEntry(k + 1)),
               ranges := CloseUnchained(r.ranges, start, r.total));
  }

  /** The report one unchained row further, and where the open run of such rows began. */
  method TakeUnchained(
    h: Hash, ghost f: File, ghost k: nat, r: Report, ghost prevHash: string, ghost prevSeq: int, start: nat)
    returns (next: Report, began: nat)
    requires k < |f| && IsUnchainedLine(f[k]) && Walked(h, f, k, r, prevHash, prevSeq, start)
    ensures Walked(h, f, k + 1, next, prevHash, prevSeq, began)
  {
    WalkOverUnchained(h, f, k, r, prevHash, prevSeq, start);
    next := r.(total := r.total + 1, unchained := r.unchained + 1);
    began := if start == 0 then next.total else start;
  }

  /** One walk over the file. A file that does not exist is not intact. */
  method VerifyAuditFile(h: Hash, file: Option<File>) returns (r: Report)
    ensures file.None? ==> !r.ok && r.reason == Some(FileNotFound)
    ensures file.Some? ==> Truthful(h, file.value, r)
  {
    r := Report(0, 0, 0, [], None, None, true);
    if file.None? {
      r := r.(ok := false, reason := Some(FileNotFound));
      return;
    }
    var f := file.value;
    var prevHash, prevSeq := GENESIS, 0;
    var start: nat := 0;
    var k := 0;
    WalkStarts(h, f);
    while k < |f|
      invariant 0 <= k <= |f| && Walked(h, f, k, r, prevHash, prevSeq, start)
    {
      if f[k].Blank? {
        WalkOverBlank(h, f, k, r, prevHash, prevSeq, start);
        k := k + 1;
        continue;
      }
      if f[k].Invalid? || f[k].NonObject? {
        r := StopIllegible(h, f, k, r, prevHash, prevSeq, start);
        return;
      }
      var row := f[k].row;
      if !IsChained(row) {
        r, start := TakeUnchained(h, f, k, r, prevHash, prevSeq, start);
        k := k + 1;
        continue;
      }
      r := TakeChained(h, f, k, r, row, prevHash, prevSeq, start);
      if !r.ok { return; }
      start := 0;
      prevHash, prevSeq := row.entryHash.value, row.seqNo.value;
      k := k + 1;
    }
    WalkEnds(h, f, r, prevHash, prevSeq, start);
    r := r.(ranges := CloseUnchained(r.ranges, start, r.total));
  }
}
