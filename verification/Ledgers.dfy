/**
 Aggregating the spend ledger: the last entry of every run, grouped into buckets, and the per-member and per-role
 figures of a team run.
 */
module Ledgers {
  import opened Basics
  import opened Texts
  import opened Dictionaries

  /** The figures summed by the ledger. */
  datatype Counter =
    | Runs
    | PromptTokens
    | CompletionTokens
    | TotalTokens
    | CostMicros
    | CacheHits
    | CacheMisses
    | CacheSavings

  datatype Figures = Figures(
    runs: int, promptTokens: int, completionTokens: int, totalTokens: int, costMicros: int,
    cacheHits: int, cacheMisses: int, cacheSavings: int)
  {
    function Plus(b: Figures): Figures {
      Figures(runs + b.runs, promptTokens + b.promptTokens, completionTokens + b.completionTokens,
              totalTokens + b.totalTokens, costMicros + b.costMicros,
              cacheHits + b.cacheHits, cacheMisses + b.cacheMisses, cacheSavings + b.cacheSavings)
    }

    function Of(c: Counter): int {
      match c
      case Runs => runs
      case PromptTokens => promptTokens
      case CompletionTokens => completionTokens
      case TotalTokens => totalTokens
      case CostMicros => costMicros
      case CacheHits => cacheHits
      case CacheMisses => cacheMisses
      case CacheSavings => cacheSavings
    }
  }

  const ZERO := Figures(0, 0, 0, 0, 0, 0, 0, 0)

  /** One ledger entry. A text that is missing is empty; `stamp` is None when the time is missing or unreadable. */
  datatype Entry = Entry(
    event: string, runId: string, ts: string, stamp: Option<int>, workflow: string, actor: string,
    models: seq<string>, labels: seq<string>, figures: Figures, unpriced: bool)

  datatype Line = Blank | Corrupt | Row(entry: Entry)

  datatype Dimension = Day | Workflow | Actor | Model | Label

  // ---------------------------------------------------------------- the last entry of every run

  type Latest = Dict<Entry>

  function AnonymousKey(n: nat): string {
    "anon-" + Decimal(n)
  }

  function KeyFor(d: Latest, e: Entry): string {
    if e.runId != "" then e.runId else AnonymousKey(|d|)
  }

  /** The entries that count: readable rows that are not rotation anchors. */
  function Counting(lines: seq<Line>): seq<Entry> {
    if lines == [] then [] else
    var rest, l := Counting(lines[..|lines| - 1]), lines[|lines| - 1];
    if l.Row? && l.entry.event != ANCHOR then rest + [l.entry] else rest
  }

  function LatestOf(es: seq<Entry>): Latest {
    if es == [] then [] else
    var before, e := LatestOf(es[..|es| - 1]), es[|es| - 1];
    Put(before, KeyFor(before, e), e)
  }

  /** Entry `k` is the last of its run; an entry of no run stands for itself. */
  predicate IsLast(es: seq<Entry>, k: nat)
    requires k < |es|
  {
    es[k].runId == "" || forall j :: k < j < |es| ==> es[j].runId != es[k].runId
  }

  /** What an entry contributes to a sum. */
  type Measure = Entry -> int

  /** The measure summed over the last entry of every run, read off the ledger itself. */
  function SumOfLast(es: seq<Entry>, w: Measure): int {
    if es == [] then 0 else (if IsLast(es, 0) then w(es[0]) else 0) + SumOfLast(es[1..], w)
  }

  predicate HasRun(es: seq<Entry>, run: string) {
    exists k :: 0 <= k < |es| && es[k].runId == run
  }

  /** The measure of the last entry of a run, zero when there is none. */
  function OfLast(es: seq<Entry>, run: string, w: Measure): int {
    if es == [] then 0
    else if HasRun(es[1..], run) || es[0].runId != run then OfLast(es[1..], run, w)
    else w(es[0])
  }

  lemma {:induction false} HasRunSplit(es: seq<Entry>, e: Entry, run: string)
    requires es != []
    ensures HasRun(es, run) <==> es[0].runId == run || HasRun(es[1..], run)
    ensures HasRun(es[1..] + [e], run) <==> HasRun(es[1..], run) || e.runId == run
  {
    var rest := es[1..];
    if HasRun(es, run) {
      var k :| 0 <= k < |es| && es[k].runId == run;
      if k > 0 { assert rest[k - 1].runId == run; }
    }
    if HasRun(rest, run) {
      var k :| 0 <= k < |rest| && rest[k].runId == run;
      assert es[k + 1].runId == run && (rest + [e])[k].runId == run;
    }
    if e.runId == run { assert (rest + [e])[|rest|].runId == run; }
    if HasRun(rest + [e], run) {
      var k :| 0 <= k < |rest + [e]| && (rest + [e])[k].runId == run;
      if k < |rest| { assert rest[k].runId == run; }
    }
  }

  lemma {:induction false} NoRunNoLast(es: seq<Entry>, run: string, w: Measure)
    requires !HasRun(es, run)
    ensures OfLast(es, run, w) == 0
  {
    if es != [] {
      HasRunSplit(es, es[0], run);
      NoRunNoLast(es[1..], run, w);
    }
  }

  lemma {:induction false} OfLastSnoc(es: seq<Entry>, e: Entry, run: string, w: Measure)
    ensures OfLast(es + [e], run, w) == if e.runId == run then w(e) else OfLast(es, run, w)
  {
    if es == [] {
      assert ([] + [e])[1..] == [];
    } else {
      assert (es + [e])[1..] == es[1..] + [e];
      HasRunSplit(es, e, run);
      OfLastSnoc(es[1..], e, run, w);
    }
  }

  lemma {:induction false} IsLastMeans(es: seq<Entry>, e: Entry)
    requires es != []
    ensures IsLast(es, 0) <==> es[0].runId == "" || !HasRun(es[1..], es[0].runId)
    ensures IsLast(es + [e], 0) <==> IsLast(es, 0) && (es[0].runId == "" || e.runId != es[0].runId)
  {
    var rest, run := es[1..], es[0].runId;
    forall j | 0 < j < |es| ensures es[j] == rest[j - 1] {}
    if HasRun(rest, run) {
      var k :| 0 <= k < |rest| && rest[k].runId == run;
      assert es[k + 1].runId == run;
    }
    var longer := es + [e];
    assert forall j :: 0 < j < |es| ==> longer[j] == es[j];
    assert longer[|es|] == e;
  }

  /** One more entry counts, and its run's last one so far no longer does. */
  lemma {:induction false} SumOfLastSnoc(es: seq<Entry>, e: Entry, w: Measure)
    ensures SumOfLast(es + [e], w) + (if e.runId == "" then 0 else OfLast(es, e.runId, w)) == SumOfLast(es, w) + w(e)
  {
    if es == [] {
      assert ([] + [e])[1..] == [];
    } else {
      assert (es + [e])[1..] == es[1..] + [e];
      SumOfLastSnoc(es[1..], e, w);
      IsLastMeans(es, e);
      if es[0].runId == e.runId && !HasRun(es[1..], e.runId) { NoRunNoLast(es[1..], e.runId, w); }
    }
  }

  lemma AnonymousKeyInjective(m: nat, n: nat)
    requires AnonymousKey(m) == AnonymousKey(n)
    ensures m == n
  {
    assert Decimal(m) == AnonymousKey(m)[5..] == Decimal(n);
    DecimalInjective(m, n);
  }

  // ---------------------------------------------------------------- keys that clash

  /** How many entries without a run and how many different runs there are. */
  function Number(es: seq<Entry>): nat {
    if es == [] then 0 else
    var before, e := es[..|es| - 1], es[|es| - 1];
    Number(before) + if e.runId == "" || !HasRun(before, e.runId) then 1 else 0
  }

  /** Entry `k` has no run, and its key is made from what came before it: `key`. */
  predicate IsDue(es: seq<Entry>, k: nat, key: string) {
    k < |es| && es[k].runId == "" && key == AnonymousKey(Number(es[..k]))
  }

  /** Entry `k` has no run, and some run is called like the key this entry is due. */
  predicate ClashesAt(es: seq<Entry>, k: nat) {
    k < |es| && es[k].runId == "" && HasRun(es, AnonymousKey(Number(es[..k])))
  }

  ghost predicate NoClash(es: seq<Entry>) {
    forall k: nat :: !ClashesAt(es, k)
  }

  lemma HasRunSnoc(es: seq<Entry>, e: Entry, run: string)
    ensures HasRun(es + [e], run) <==> HasRun(es, run) || e.runId == run
  {
    var longer := es + [e];
    if k :| 0 <= k < |es| && es[k].runId == run { assert longer[k].runId == run; }
    if e.runId == run { assert longer[|es|].runId == run; }
  }

  /** What one more entry must not do to a ledger free of clashes. */
  ghost predicate Fits(es: seq<Entry>, e: Entry) {
    && (e.runId == "" ==> !HasRun(es, AnonymousKey(Number(es))))
    && forall k: nat :: !IsDue(es, k, e.runId)
  }

  lemma {:induction false} ClashesAtSnoc(es: seq<Entry>, e: Entry, k: nat)
    ensures k < |es| ==> (ClashesAt(es + [e], k) <==> ClashesAt(es, k) || IsDue(es, k, e.runId))
    ensures k == |es| ==> (ClashesAt(es + [e], k) <==> e.runId == "" && HasRun(es, AnonymousKey(Number(es))))
  {
    var longer := es + [e];
    if k <= |es| {
      assert longer[..k] == es[..k];
      assert es[..|es|] == es;
      HasRunSnoc(es, e, AnonymousKey(Number(es[..k])));
    }
  }

  lemma {:induction false} NoClashSnoc(es: seq<Entry>, e: Entry)
    ensures NoClash(es + [e]) <==> NoClash(es) && Fits(es, e)
  {
    var longer := es + [e];
    if NoClash(longer) {
      forall k: nat ensures !ClashesAt(es, k) && !IsDue(es, k, e.runId) {
        ClashesAtSnoc(es, e, k);
        assert !ClashesAt(longer, k);
      }
      ClashesAtSnoc(es, e, |es|);
      assert !ClashesAt(longer, |es|);
    }
    if NoClash(es) && Fits(es, e) {
      forall k: nat ensures !ClashesAt(longer, k) {
        ClashesAtSnoc(es, e, k);
        assert !ClashesAt(es, k) && !IsDue(es, k, e.runId);
      }
    }
  }

  lemma IsDueSnoc(es: seq<Entry>, e: Entry, k: nat, key: string)
    ensures IsDue(es + [e], k, key) <==>
            IsDue(es, k, key) || (k == |es| && e.runId == "" && key == AnonymousKey(Number(es)))
  {
    if k <= |es| { assert (es + [e])[..k] == es[..k] && es[..|es|] == es; }
  }

  /** The number given to an entry without a run is smaller than all later ones. */
  lemma {:induction false} NumberGrows(es: seq<Entry>, k: nat)
    requires k < |es| && es[k].runId == ""
    ensures Number(es[..k]) < Number(es)
    decreases |es|
  {
    var before := es[..|es| - 1];
    if k < |before| {
      NumberGrows(before, k);
      assert before[..k] == es[..k];
    } else {
      assert before == es[..k];
    }
  }

  /** Without clashes the keys are the runs seen and the keys that entries without a run were due. */
  lemma {:induction false} LatestKeys(es: seq<Entry>, key: string)
    requires NoClash(es) && key != ""
    ensures HasKey(LatestOf(es), key) <==> HasRun(es, key) || exists k: nat :: IsDue(es, k, key)
    decreases |es|, 1
  {
    if es != [] {
      var before, e := es[..|es| - 1], es[|es| - 1];
      assert es == before + [e];
      NoClashSnoc(before, e);
      LatestKeys(before, key);
      LatestCounts(before);
      PutLooks(LatestOf(before), KeyFor(LatestOf(before), e), e, x => 0, key);
      HasRunSnoc(before, e, key);
      forall k: nat
        ensures IsDue(es, k, key) <==>
                IsDue(before, k, key) || (k == |before| && e.runId == "" && key == AnonymousKey(Number(before)))
      {
        IsDueSnoc(before, e, k, key);
      }
      if e.runId == "" && key == AnonymousKey(Number(before)) { assert IsDue(es, |before|, key); }
      if k: nat :| IsDue(before, k, key) { assert IsDue(es, k, key); }
    }
  }

  /** Without clashes there is one key for every run and every entry without one. */
  lemma {:induction false} LatestCounts(es: seq<Entry>)
    requires NoClash(es)
    ensures |LatestOf(es)| == Number(es)
    decreases |es|, 0
  {
    if es != [] {
      var before, e := es[..|es| - 1], es[|es| - 1];
      assert es == before + [e];
      NoClashSnoc(before, e);
      LatestCounts(before);
      NewKeyIff(before, e);
      PutSums(LatestOf(before), KeyFor(LatestOf(before), e), e, x => 0);
    }
  }

  /** Without clashes the next entry opens a new key unless its run was there before. */
  lemma {:induction false} NewKeyIff(before: seq<Entry>, e: Entry)
    requires NoClash(before + [e]) && |LatestOf(before)| == Number(before)
    ensures HasKey(LatestOf(before), KeyFor(LatestOf(before), e)) <==> e.runId != "" && HasRun(before, e.runId)
    decreases |before|, 2
  {
    NoClashSnoc(before, e);
    LatestKeys(before, KeyFor(LatestOf(before), e));
    if e.runId == "" { DueBefore(before); }
  }

  lemma {:induction false} DueBefore(es: seq<Entry>)
    ensures forall k: nat :: !IsDue(es, k, AnonymousKey(Number(es)))
  {
    forall k: nat ensures !IsDue(es, k, AnonymousKey(Number(es))) {
      if IsDue(es, k, AnonymousKey(Number(es))) {
        AnonymousKeyInjective(Number(es), Number(es[..k]));
        NumberGrows(es, k);
        assert false;
      }
    }
  }

  /** Looking up a run in the dictionary gives its last entry. */
  lemma {:induction false} LatestIsLast(es: seq<Entry>, run: string, w: Measure)
    requires NoClash(es) && run != "" && forall k: nat :: !IsDue(es, k, run)
    ensures At(LatestOf(es), run, w) == OfLast(es, run, w)
  {
    if es != [] {
      var before, e := es[..|es| - 1], es[|es| - 1];
      assert es == before + [e];
      NoClashSnoc(before, e);
      forall k: nat ensures !IsDue(before, k, run) {
        IsDueSnoc(before, e, k, run);
        assert !IsDue(es, k, run);
      }
      IsDueSnoc(before, e, |before|, run);
      assert !IsDue(es, |before|, run);
      LatestIsLast(before, run, w);
      OfLastSnoc(before, e, run, w);
      LatestCounts(before);
      PutLooks(LatestOf(before), KeyFor(LatestOf(before), e), e, w, run);
    }
  }

  /** Without clashes the dictionary holds exactly the last entry of every run and every entry without one. */
  lemma {:induction false} LatestSums(es: seq<Entry>, w: Measure)
    requires NoClash(es)
    ensures SumOver(LatestOf(es), w) == SumOfLast(es, w)
  {
    if es != [] {
      var before, e := es[..|es| - 1], es[|es| - 1];
      assert es == before + [e];
      NoClashSnoc(before, e);
      LatestSums(before, w);
      SumOfLastSnoc(before, e, w);
      PutSums(LatestOf(before), KeyFor(LatestOf(before), e), e, w);
      if e.runId == "" {
        LatestCounts(before);
        NewKeyIff(before, e);
      } else {
        LatestIsLast(before, e.runId, w);
      }
    }
  }

  /** What counts every entry once. */
  function One(): Measure {
    (e: Entry) => 1
  }

  lemma {:induction false} LastsAreCounted(es: seq<Entry>)
    ensures SumOfLast(es, One()) == Number(es)
  {
    if es != [] {
      var before, e := es[..|es| - 1], es[|es| - 1];
      assert es == before + [e];
      LastsAreCounted(before);
      SumOfLastSnoc(before, e, One());
      OneIfThere(before, e.runId);
    }
  }

  lemma {:induction false} OneIfThere(es: seq<Entry>, run: string)
    ensures OfLast(es, run, One()) == if HasRun(es, run) then 1 else 0
  {
    if es != [] {
      OneIfThere(es[1..], run);
      HasRunSplit(es, es[0], run);
    }
  }

  lemma {:induction false} SizeIsSum(d: Latest)
    ensures SumOver(d, One()) == |d|
  {
    if d != [] { SizeIsSum(d[1..]); }
  }

  /** The dictionary never holds more than there is, and a loss is never made up for. */
  lemma {:induction false} ClashLoses(es: seq<Entry>)
    ensures |LatestOf(es)| <= Number(es)
    ensures |LatestOf(es)| == Number(es) ==> NoClash(es)
    ensures forall run :: run != "" && HasRun(es, run) ==> HasKey(LatestOf(es), run)
  {
    if es != [] {
      var before, e := es[..|es| - 1], es[|es| - 1];
      var d := LatestOf(before);
      var own := KeyFor(d, e);
      assert es == before + [e];
      ClashLoses(before);
      PutSums(d, own, e, x => 0);
      forall run | run != "" && HasRun(es, run) ensures HasKey(LatestOf(es), run) {
        HasRunSnoc(before, e, run);
        PutLooks(d, own, e, x => 0, run);
      }
      if |LatestOf(es)| == Number(es) { NothingLost(before, e); }
    }
  }

  /** An entry that loses nothing on top of nothing lost does not clash. */
  lemma {:induction false} NothingLost(before: seq<Entry>, e: Entry)
    requires NoClash(before) && |LatestOf(before)| == Number(before)
    requires forall run :: run != "" && HasRun(before, run) ==> HasKey(LatestOf(before), run)
    requires HasKey(LatestOf(before), KeyFor(LatestOf(before), e)) ==> e.runId != "" && HasRun(before, e.runId)
    ensures NoClash(before + [e])
  {
    NoClashSnoc(before, e);
    if e.runId != "" {
      LatestKeys(before, e.runId);
      forall k: nat ensures !IsDue(before, k, e.runId) {
        assert !ClashesAt(before, k);
      }
    }
  }

  /**
   Exactly when a ledger is summed up without loss: every measure of the dictionary is the measure of the last entry
   of every run and of every entry without one if and only if no run is called like the key an entry without a run is
   due, which is made from the number of such entries and of different runs before it.
   */
  lemma ConservedIff(es: seq<Entry>)
    ensures (forall w: Measure :: SumOver(LatestOf(es), w) == SumOfLast(es, w)) <==> NoClash(es)
  {
    if NoClash(es) {
      forall w: Measure ensures SumOver(LatestOf(es), w) == SumOfLast(es, w) {
        LatestSums(es, w);
      }
    } else {
      ClashLoses(es);
      SizeIsSum(LatestOf(es));
      LastsAreCounted(es);
      assert SumOver(LatestOf(es), One()) != SumOfLast(es, One());
    }
  }

  /** In particular nothing is lost when no run has a name of that kind. */
  lemma PlainNamesNeverClash(es: seq<Entry>)
    requires forall k, n: nat :: 0 <= k < |es| ==> es[k].runId != AnonymousKey(n)
    ensures NoClash(es)
  {}

  /** A run that is called like an anonymous entry pushes that entry out of the sums. */
  lemma NamesCanCollide(anonymous: Entry, named: Entry, w: Measure)
    requires anonymous.runId == "" && named.runId == "anon-0"
    ensures SumOver(LatestOf([anonymous, named]), w) == w(named)
    ensures SumOfLast([anonymous, named], w) == w(anonymous) + w(named)
  {
    var es := [anonymous, named];
    assert es[..1] == [anonymous] && es[..1][..0] == [] && es[1..] == [named] && es[1..][1..] == [];
    assert AnonymousKey(0) == "anon-0";
    assert LatestOf([anonymous]) == [("anon-0", anonymous)];
    assert LatestOf(es) == [("anon-0", named)] by { assert [("anon-0", anonymous)][1..] == []; }
    assert [("anon-0", named)][1..] == [];
    assert IsLast(es, 0) && IsLast([named], 0);
    assert SumOfLast([named], w) == w(named);
  }

  // ---------------------------------------------------------------- grouping

  /** The buckets an entry goes to. Models and labels may name several, or one twice. */
  function GroupKeys(e: Entry, dim: Dimension): (keys: seq<string>)
    ensures keys != [] && (dim.Day? || dim.Workflow? || dim.Actor? ==> |keys| == 1)
  {
    match dim
    case Day => [if |e.ts| >= 10 then e.ts[..10] else "unknown"]
    case Workflow => [OrElse(e.workflow, "unknown")]
    case Actor => [OrElse(e.actor, "(anonymous)")]
    case Model => if e.models != [] then e.models else ["unknown"]
    case Label => if e.labels != [] then e.labels else ["(none)"]
  }

  predicate OnOrAfter(e: Entry, since: Option<int>) {
    since.None? || e.stamp.None? || e.stamp.value >= since.value
  }

  /** What one entry adds to a bucket: itself as one run. */
  function Contribution(e: Entry): Figures {
    e.figures.(runs := 1)
  }

  datatype SpendRow = SpendRow(figures: Figures, unpriced: bool)

  type Buckets = Dict<SpendRow>

  const NEW := SpendRow(ZERO, false)

  function AddRow(row: SpendRow, e: Entry): SpendRow {
    SpendRow(row.figures.Plus(Contribution(e)), row.unpriced || e.unpriced)
  }

  /** Add an entry to the bucket of a key, a new one if need be. */
  function AddTo(b: Buckets, key: string, e: Entry): Buckets {
    Put(b, key, AddRow(Get(b, key, NEW), e))
  }

  function AddToAll(b: Buckets, keys: seq<string>, e: Entry): Buckets {
    if keys == [] then b else AddTo(AddToAll(b, keys[..|keys| - 1], e), keys[|keys| - 1], e)
  }

  function Grouped(d: Latest, dim: Dimension, since: Option<int>): Buckets {
    if d == [] then [] else
    var before, e := Grouped(d[..|d| - 1], dim, since), d[|d| - 1].1;
    if OnOrAfter(e, since) then AddToAll(before, GroupKeys(e, dim), e) else before
  }

  function Count(keys: seq<string>, key: string): nat {
    if keys == [] then 0 else Count(keys[..|keys| - 1], key) + (if keys[|keys| - 1] == key then 1 else 0)
  }

  function FigureOf(c: Counter): SpendRow -> int {
    (row: SpendRow) => row.figures.Of(c)
  }

  /** The figure of the bucket with this key, 0 when there is none. */
  function InBucket(b: Buckets, key: string, c: Counter): int {
    At(b, key, FigureOf(c))
  }

  /** The figure summed over all buckets. */
  function Total(b: Buckets, c: Counter): int {
    SumOver(b, FigureOf(c))
  }

  /** Whether the bucket with this key is marked as holding an unpriced run. */
  predicate Marked(b: Buckets, key: string) {
    Get(b, key, NEW).unpriced
  }

  lemma AddToMeans(b: Buckets, key: string, e: Entry, c: Counter, k: string)
    ensures InBucket(AddTo(b, key, e), k, c) == InBucket(b, k, c) + (if k == key then Contribution(e).Of(c) else 0)
    ensures Total(AddTo(b, key, e), c) == Total(b, c) + Contribution(e).Of(c)
    ensures OneOfEach(b) ==> OneOfEach(AddTo(b, key, e))
    ensures Marked(AddTo(b, key, e), k) <==> Marked(b, k) || (k == key && e.unpriced)
  {
    var row := AddRow(Get(b, key, NEW), e);
    PutSums(b, key, row, FigureOf(c));
    PutLooks(b, key, row, FigureOf(c), k);
    PutGets(b, key, row, k, NEW);
    GetMeasured(b, key, NEW, FigureOf(c));
    if OneOfEach(b) { PutKeepsOne(b, key, row); }
  }

  lemma Successor(n: int, x: int)
    ensures (n + 1) * x == n * x + x
  {}

  lemma {:induction false} AddToAllMeans(b: Buckets, keys: seq<string>, e: Entry, c: Counter, k: string)
    ensures InBucket(AddToAll(b, keys, e), k, c) == InBucket(b, k, c) + Count(keys, k) * Contribution(e).Of(c)
    ensures Total(AddToAll(b, keys, e), c) == Total(b, c) + |keys| * Contribution(e).Of(c)
    ensures OneOfEach(b) ==> OneOfEach(AddToAll(b, keys, e))
    ensures Marked(AddToAll(b, keys, e), k) <==> Marked(b, k) || (Count(keys, k) > 0 && e.unpriced)
  {
    if keys != [] {
      var before, key := keys[..|keys| - 1], keys[|keys| - 1];
      AddToAllMeans(b, before, e, c, k);
      AddToMeans(AddToAll(b, before, e), key, e, c, k);
      Successor(|before|, Contribution(e).Of(c));
      Successor(Count(before, k), Contribution(e).Of(c));
    }
  }

  /** What an entry adds to one bucket, and to all of them together. */
  function ToBucket(dim: Dimension, since: Option<int>, key: string, c: Counter): Measure {
    (e: Entry) => if OnOrAfter(e, since) then Count(GroupKeys(e, dim), key) * Contribution(e).Of(c) else 0
  }

  function ToAll(dim: Dimension, since: Option<int>, c: Counter): Measure {
    (e: Entry) => if OnOrAfter(e, since) then |GroupKeys(e, dim)| * Contribution(e).Of(c) else 0
  }

  /** An entry's own figure, if it is recent enough. */
  function Own(since: Option<int>, c: Counter): Measure {
    (e: Entry) => if OnOrAfter(e, since) then Contribution(e).Of(c) else 0
  }

  lemma SumLast(d: Latest, w: Measure)
    requires d != []
    ensures SumOver(d, w) == SumOver(d[..|d| - 1], w) + w(d[|d| - 1].1)
  {
    assert d == d[..|d| - 1] + [d[|d| - 1]];
    SumSnoc(d[..|d| - 1], d[|d| - 1], w);
  }

  /** Each bucket holds what the dictionary's recent entries add to it. */
  lemma {:induction false} BucketSums(d: Latest, dim: Dimension, since: Option<int>, key: string, c: Counter)
    ensures InBucket(Grouped(d, dim, since), key, c) == SumOver(d, ToBucket(dim, since, key, c))
    ensures OneOfEach(Grouped(d, dim, since))
  {
    if d != [] {
      var before, e := d[..|d| - 1], d[|d| - 1].1;
      BucketSums(before, dim, since, key, c);
      SumLast(d, ToBucket(dim, since, key, c));
      AddToAllMeans(Grouped(before, dim, since), GroupKeys(e, dim), e, c, key);
    }
  }

  /** All buckets together hold what the dictionary's recent entries add to them. */
  lemma {:induction false} TotalSums(d: Latest, dim: Dimension, since: Option<int>, c: Counter)
    ensures Total(Grouped(d, dim, since), c) == SumOver(d, ToAll(dim, since, c))
  {
    if d != [] {
      var before, e := d[..|d| - 1], d[|d| - 1].1;
      TotalSums(before, dim, since, c);
      SumLast(d, ToAll(dim, since, c));
      AddToAllMeans(Grouped(before, dim, since), GroupKeys(e, dim), e, c, "");
    }
  }

  /** How often an unpriced entry goes to a bucket. */
  function UnpricedTo(dim: Dimension, since: Option<int>, key: string): Measure {
    (e: Entry) => if OnOrAfter(e, since) && e.unpriced then Count(GroupKeys(e, dim), key) else 0
  }

  lemma {:induction false} GroupedMarks(d: Latest, dim: Dimension, since: Option<int>, key: string)
    ensures SumOver(d, UnpricedTo(dim, since, key)) >= 0
    ensures Marked(Grouped(d, dim, since), key) <==> SumOver(d, UnpricedTo(dim, since, key)) > 0
  {
    if d != [] {
      var before, p := d[..|d| - 1], d[|d| - 1];
      GroupedMarks(before, dim, since, key);
      AddToAllMeans(Grouped(before, dim, since), GroupKeys(p.1, dim), p.1, Runs, key);
      SumLast(d, UnpricedTo(dim, since, key));
    }
  }

  lemma {:induction false} SumOfLastSame(es: seq<Entry>, v: Measure, w: Measure)
    requires forall e: Entry :: v(e) == w(e)
    ensures SumOfLast(es, v) == SumOfLast(es, w)
  {
    if es != [] { SumOfLastSame(es[1..], v, w); }
  }

  /** What a query finds in a ledger. */
  function Spend(lines: seq<Line>, dim: Dimension, since: Option<int>): Buckets {
    Grouped(LatestOf(Counting(lines)), dim, since)
  }

  /**
   Every bucket of a query holds the figures of the last entry of each run on or after `since`, once for every time
   the entry names the bucket; the total is the sum weighted by how many buckets each entry names.
   */
  lemma SpendIsConserved(lines: seq<Line>, dim: Dimension, since: Option<int>, key: string, c: Counter)
    requires NoClash(Counting(lines))
    ensures InBucket(Spend(lines, dim, since), key, c) == SumOfLast(Counting(lines), ToBucket(dim, since, key, c))
    ensures Total(Spend(lines, dim, since), c) == SumOfLast(Counting(lines), ToAll(dim, since, c))
    ensures OneOfEach(Spend(lines, dim, since))
  {
    BucketSums(LatestOf(Counting(lines)), dim, since, key, c);
    TotalSums(LatestOf(Counting(lines)), dim, since, c);
    LatestSums(Counting(lines), ToBucket(dim, since, key, c));
    LatestSums(Counting(lines), ToAll(dim, since, c));
  }

  /** A bucket is marked exactly when the last entry of some run, recent enough and unpriced, goes to it. */
  lemma MarkedIffUnpriced(lines: seq<Line>, dim: Dimension, since: Option<int>, key: string)
    requires NoClash(Counting(lines))
    ensures Marked(Spend(lines, dim, since), key) <==> SumOfLast(Counting(lines), UnpricedTo(dim, since, key)) > 0
  {
    GroupedMarks(LatestOf(Counting(lines)), dim, since, key);
    LatestSums(Counting(lines), UnpricedTo(dim, since, key));
  }

  /** By day, by workflow and by actor the totals are the same: every run counted once, by its last entry. */
  lemma TotalsAgree(lines: seq<Line>, dim: Dimension, since: Option<int>, c: Counter)
    requires NoClash(Counting(lines)) && (dim.Day? || dim.Workflow? || dim.Actor?)
    ensures Total(Spend(lines, dim, since), c) == SumOfLast(Counting(lines), Own(since, c))
  {
    SpendIsConserved(lines, dim, since, "", c);
    SumOfLastSame(Counting(lines), ToAll(dim, since, c), Own(since, c));
  }

  // ---------------------------------------------------------------- rows in the order of their keys

  /** `a` comes before `b` by code points. */
  predicate Below(a: string, b: string) {
    b != [] && (a == [] || a[0] < b[0] || (a[0] == b[0] && Below(a[1..], b[1..])))
  }

  /** They differ first where `a` has the smaller code point, or `a` ends first. */
  lemma {:induction false} BelowMeans(a: string, b: string)
    ensures Below(a, b) <==>
            exists n :: 0 <= n <= |a| && n < |b| && a[..n] == b[..n] && (n == |a| || (a[n] as int) < b[n] as int)
  {
    if a != [] && b != [] && a[0] == b[0] {
      BelowMeans(a[1..], b[1..]);
      if n :| 0 <= n <= |a| && n < |b| && a[..n] == b[..n] && (n == |a| || (a[n] as int) < b[n] as int) {
        assert n > 0;
        assert a[1..][..n - 1] == a[..n][1..] && b[1..][..n - 1] == b[..n][1..];
      }
      if n :| 0 <= n <= |a[1..]| && n < |b[1..]| && a[1..][..n] == b[1..][..n]
              && (n == |a[1..]| || (a[1..][n] as int) < b[1..][n] as int)
      {
        assert a[..n + 1] == [a[0]] + a[1..][..n] && b[..n + 1] == [b[0]] + b[1..][..n];
      }
    } else if b != [] {
      assert a[..0] == b[..0];
      if n :| 0 <= n <= |a| && n < |b| && a[..n] == b[..n] && (n == |a| || (a[n] as int) < b[n] as int) {
        if n > 0 { assert a[..n][0] == b[..n][0]; }
      }
    }
  }

  lemma {:induction false} BelowIsAnOrder(a: string, b: string, c: string)
    ensures !Below(a, a) && (a != b ==> Below(a, b) || Below(b, a))
    ensures Below(a, b) && Below(b, c) ==> Below(a, c)
  {
    if a != [] && b != [] {
      assert a != b && a[0] == b[0] ==> a[1..] != b[1..] by {
        assert a == [a[0]] + a[1..] && b == [b[0]] + b[1..];
      }
      BelowIsAnOrder(a[1..], b[1..], if c != [] then c[1..] else []);
    } else if a != [] {
      BelowIsAnOrder(a[1..], [], []);
    }
  }

  function InsertRow(b: Buckets, p: (string, SpendRow)): Buckets {
    if b == [] || Below(p.0, b[0].0) then [p] + b else [b[0]] + InsertRow(b[1..], p)
  }

  /** The rows sorted by key. */
  function InKeyOrder(b: Buckets): Buckets {
    if b == [] then [] else InsertRow(InKeyOrder(b[1..]), b[0])
  }

  predicate Ascending(b: Buckets) {
    forall i, j :: 0 <= i < j < |b| ==> Below(b[i].0, b[j].0)
  }

  lemma {:induction false} InsertKeepsRows(b: Buckets, p: (string, SpendRow), c: Counter, key: string)
    requires !HasKey(b, p.0)
    ensures InBucket(InsertRow(b, p), key, c) == if key == p.0 then p.1.figures.Of(c) else InBucket(b, key, c)
    ensures Marked(InsertRow(b, p), key) == if key == p.0 then p.1.unpriced else Marked(b, key)
    ensures Total(InsertRow(b, p), c) == Total(b, c) + p.1.figures.Of(c)
    ensures HasKey(InsertRow(b, p), key) <==> key == p.0 || HasKey(b, key)
  {
    if b != [] && !Below(p.0, b[0].0) {
      InsertKeepsRows(b[1..], p, c, key);
    } else {
      assert ([p] + b)[1..] == b;
    }
  }

  lemma {:induction false} KeyIsThere(b: Buckets, i: nat)
    requires i < |b|
    ensures HasKey(b, b[i].0)
  {
    if i > 0 { KeyIsThere(b[1..], i - 1); }
  }

  lemma {:induction false} InsertAscends(b: Buckets, p: (string, SpendRow))
    requires Ascending(b) && !HasKey(b, p.0)
    ensures Ascending(InsertRow(b, p))
    ensures forall k :: 0 <= k < |InsertRow(b, p)| ==> InsertRow(b, p)[k] == p || InsertRow(b, p)[k] in b
  {
    var r := InsertRow(b, p);
    if b == [] || Below(p.0, b[0].0) {
      forall j | 0 <= j < |b| ensures Below(p.0, b[j].0) {
        if j > 0 { BelowIsAnOrder(p.0, b[0].0, b[j].0); }
      }
    } else {
      var rest := b[1..];
      forall i, j | 0 <= i < j < |rest| ensures Below(rest[i].0, rest[j].0) {
        assert rest[i] == b[i + 1] && rest[j] == b[j + 1];
      }
      InsertAscends(rest, p);
      BelowIsAnOrder(p.0, b[0].0, []);
      forall j | 0 < j < |r| ensures Below(b[0].0, r[j].0) {
        assert r[j] == InsertRow(rest, p)[j - 1];
        if r[j] != p {
          var i :| 0 <= i < |rest| && rest[i] == r[j];
          assert rest[i] == b[i + 1];
        }
      }
    }
  }

  /** Sorting puts the rows in ascending order of their keys and keeps every one of them. */
  lemma {:induction false} InKeyOrderMeans(b: Buckets, c: Counter, key: string)
    requires OneOfEach(b)
    ensures Ascending(InKeyOrder(b))
    ensures InBucket(InKeyOrder(b), key, c) == InBucket(b, key, c) && Total(InKeyOrder(b), c) == Total(b, c)
    ensures Marked(InKeyOrder(b), key) == Marked(b, key) && (HasKey(InKeyOrder(b), key) <==> HasKey(b, key))
  {
    if b != [] {
      InKeyOrderMeans(b[1..], c, b[0].0);
      InKeyOrderMeans(b[1..], c, key);
      InsertAscends(InKeyOrder(b[1..]), b[0]);
      InsertKeepsRows(InKeyOrder(b[1..]), b[0], c, key);
    }
  }

  /** The two hold the same row under this key, and the figure sums up to the same total. */
  predicate AgreeOn(rows: Buckets, b: Buckets, key: string, c: Counter) {
    && InBucket(rows, key, c) == InBucket(b, key, c) && Total(rows, c) == Total(b, c)
    && Marked(rows, key) == Marked(b, key) && (HasKey(rows, key) <==> HasKey(b, key))
  }

  ghost predicate SameRows(rows: Buckets, b: Buckets) {
    forall key, c :: AgreeOn(rows, b, key, c)
  }

  lemma SortedRows(b: Buckets)
    requires OneOfEach(b)
    ensures Ascending(InKeyOrder(b)) && SameRows(InKeyOrder(b), b)
  {
    InKeyOrderMeans(b, Runs, "");
    forall key, c ensures AgreeOn(InKeyOrder(b), b, key, c) {
      InKeyOrderMeans(b, c, key);
    }
  }

  // ---------------------------------------------------------------- the program

  /** The last row of every run, and how many lines could not be read. */
  method ReadLatest(lines: seq<Line>) returns (latest: Latest, skipped: nat)
    ensures latest == LatestOf(Counting(lines))
    ensures skipped == |set k | 0 <= k < |lines| && lines[k].Corrupt?|
  {
    latest, skipped := [], 0;
    ghost var bad: set<int> := {};
    for k := 0 to |lines|
      invariant latest == LatestOf(Counting(lines[..k]))
      invariant bad == (set j | 0 <= j < k && lines[j].Corrupt?) && skipped == |bad|
    {
      assert lines[..k + 1][..k] == lines[..k];
      match lines[k] {
        case Blank =>
        case Corrupt =>
          skipped := skipped + 1;
          bad := bad + {k};
        case Row(e) =>
          if e.event == ANCHOR { continue; }
          ghost var es := Counting(lines[..k]);
          assert (es + [e])[..|es|] == es;
          latest := Put(latest, if e.runId != "" then e.runId else AnonymousKey(|latest|), e);
      }
    }
    assert lines[..|lines|] == lines;
  }

  /** Add an entry to every bucket that it names. */
  method AddToBuckets(before: Buckets, e: Entry, keys: seq<string>) returns (buckets: Buckets)
    ensures buckets == AddToAll(before, keys, e)
  {
    buckets := before;
    for j := 0 to |keys|
      invariant buckets == AddToAll(before, keys[..j], e)
    {
      assert keys[..j + 1][..j] == keys[..j];
      buckets := AddTo(buckets, keys[j], e);
    }
    assert keys[..|keys|] == keys;
  }

  lemma GroupedNext(d: Latest, k: nat, dim: Dimension, since: Option<int>)
    requires k < |d|
    ensures Grouped(d[..k + 1], dim, since) ==
            if OnOrAfter(d[k].1, since) then AddToAll(Grouped(d[..k], dim, since), GroupKeys(d[k].1, dim), d[k].1)
            else Grouped(d[..k], dim, since)
  {
    assert d[..k + 1][..k] == d[..k];
  }

  method FillBuckets(latest: Latest, dim: Dimension, since: Option<int>) returns (buckets: Buckets)
    ensures buckets == Grouped(latest, dim, since)
  {
    buckets := [];
    for k := 0 to |latest|
      invariant buckets == Grouped(latest[..k], dim, since)
    {
      GroupedNext(latest, k, dim, since);
      var e := latest[k].1;
      if OnOrAfter(e, since) {
        buckets := AddToBuckets(buckets, e, GroupKeys(e, dim));
      }
    }
    assert latest[..|latest|] == latest;
  }

  /** The rows of a query in the order of their keys, and how many lines could not be read. */
  method QuerySpend(lines: seq<Line>, dim: Dimension, since: Option<int>) returns (rows: Buckets, skipped: nat)
    ensures Ascending(rows) && SameRows(rows, Spend(lines, dim, since))
    ensures skipped == |set k | 0 <= k < |lines| && lines[k].Corrupt?|
  {
    var latest;
    latest, skipped := ReadLatest(lines);
    var buckets := FillBuckets(latest, dim, since);
    BucketSums(latest, dim, since, "", Runs);
    SortedRows(buckets);
    rows := InKeyOrder(buckets);
  }

  /** The total row of a report. */
  method TotalRow(rows: Buckets) returns (total: SpendRow)
    ensures forall c :: total.figures.Of(c) == Total(rows, c)
    ensures total.unpriced <==> exists k :: 0 <= k < |rows| && rows[k].1.unpriced
  {
    total := SpendRow(ZERO, false);
    for k := 0 to |rows|
      invariant forall c :: total.figures.Of(c) + Total(rows[k..], c) == Total(rows, c)
      invariant total.unpriced <==> exists j :: 0 <= j < k && rows[j].1.unpriced
    {
      assert rows[k..][1..] == rows[k + 1..];
      total := SpendRow(total.figures.Plus(rows[k].1.figures), total.unpriced || rows[k].1.unpriced);
    }
  }
}
