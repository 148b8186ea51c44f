/** What a spend query reports, told from the fields of the ledger's entries. */
module SpendReports {
  import opened Basics
  import opened Dictionaries
  import opened Ledgers

  /** The entry is let through: no `since` was given, its time is missing or unreadable, or not before `since`. */
  predicate LetThrough(e: Entry, since: Option<int>) {
    since == None || e.stamp == None || since.value <= e.stamp.value
  }

  /** What an entry has of a counter: itself as one run, and its own figures. */
  function Has(e: Entry, c: Counter): int {
    match c
    case Runs => 1
    case PromptTokens => e.figures.promptTokens
    case CompletionTokens => e.figures.completionTokens
    case TotalTokens => e.figures.totalTokens
    case CostMicros => e.figures.costMicros
    case CacheHits => e.figures.cacheHits
    case CacheMisses => e.figures.cacheMisses
    case CacheSavings => e.figures.cacheSavings
  }

  /** What a row of the report shows for a counter. */
  function Shows(row: SpendRow, c: Counter): int {
    match c
    case Runs => row.figures.runs
    case PromptTokens => row.figures.promptTokens
    case CompletionTokens => row.figures.completionTokens
    case TotalTokens => row.figures.totalTokens
    case CostMicros => row.figures.costMicros
    case CacheHits => row.figures.cacheHits
    case CacheMisses => row.figures.cacheMisses
    case CacheSavings => row.figures.cacheSavings
  }

  /** How often an entry belongs under a key. */
  function Times(e: Entry, dim: Dimension, key: string): nat {
    match dim
    case Day => if (|e.ts| >= 10 && e.ts[..10] == key) || (|e.ts| < 10 && key == "unknown") then 1 else 0
    case Workflow => if (e.workflow != "" && e.workflow == key) || (e.workflow == "" && key == "unknown") then 1 else 0
    case Actor => if (e.actor != "" && e.actor == key) || (e.actor == "" && key == "(anonymous)") then 1 else 0
    case Model => if e.models != [] then multiset(e.models)[key] else if key == "unknown" then 1 else 0
    case Label => if e.labels != [] then multiset(e.labels)[key] else if key == "(none)" then 1 else 0
  }

  /** What an entry contributes to the row of a key. */
  function Contributes(dim: Dimension, since: Option<int>, key: string, c: Counter): Measure {
    (e: Entry) => if LetThrough(e, since) then Times(e, dim, key) * Has(e, c) else 0
  }

  /** How often an entry that is let through and unpriced belongs under a key. */
  function Unpriced(dim: Dimension, since: Option<int>, key: string): Measure {
    (e: Entry) => if LetThrough(e, since) && e.unpriced then Times(e, dim, key) else 0
  }

  lemma {:induction false} CountIsMultiplicity(keys: seq<string>, key: string)
    ensures Count(keys, key) == multiset(keys)[key]
  {
    if keys != [] {
      CountIsMultiplicity(keys[..|keys| - 1], key);
      assert keys == keys[..|keys| - 1] + [keys[|keys| - 1]];
    }
  }

  lemma TimesAre(e: Entry, dim: Dimension, key: string)
    ensures Count(GroupKeys(e, dim), key) == Times(e, dim, key)
  {
    CountIsMultiplicity(GroupKeys(e, dim), key);
  }

  lemma ContributesSame(dim: Dimension, since: Option<int>, key: string, c: Counter, e: Entry)
    ensures ToBucket(dim, since, key, c)(e) == Contributes(dim, since, key, c)(e)
    ensures UnpricedTo(dim, since, key)(e) == Unpriced(dim, since, key)(e)
  {
    TimesAre(e, dim, key);
  }

  /** The last entry of every run, and every entry of no run, in the order of the ledger. */
  ghost function Lasts(es: seq<Entry>): seq<Entry> {
    if es == [] then [] else
    (if es[0].runId == "" || forall j :: 0 < j < |es| ==> es[j].runId != es[0].runId then [es[0]] else [])
    + Lasts(es[1..])
  }

  function SumAll(es: seq<Entry>, w: Measure): int {
    if es == [] then 0 else w(es[0]) + SumAll(es[1..], w)
  }

  lemma {:induction false} SumOfLastIs(es: seq<Entry>, w: Measure)
    ensures SumOfLast(es, w) == SumAll(Lasts(es), w)
  {
    if es != [] {
      SumOfLastIs(es[1..], w);
      if IsLast(es, 0) {
        assert Lasts(es) == [es[0]] + Lasts(es[1..]);
        assert Lasts(es)[1..] == Lasts(es[1..]);
      } else {
        assert Lasts(es) == Lasts(es[1..]);
      }
    }
  }

  /** The readable entries of the ledger that are no anchors, in order. */
  function Readable(lines: seq<Line>): seq<Entry> {
    if lines == [] then []
    else
      var l := lines[0];
      (if l.Row? && l.entry.event != "chain_anchor" then [l.entry] else []) + Readable(lines[1..])
  }

  lemma {:induction false} ReadableSnoc(lines: seq<Line>, l: Line)
    ensures Readable(lines + [l]) ==
            Readable(lines) + if l.Row? && l.entry.event != "chain_anchor" then [l.entry] else []
  {
    if lines == [] {
      assert ([] + [l])[1..] == [];
    } else {
      assert (lines + [l])[1..] == lines[1..] + [l];
      ReadableSnoc(lines[1..], l);
    }
  }

  lemma {:induction false} CountingIsReadable(lines: seq<Line>)
    ensures Counting(lines) == Readable(lines)
  {
    if lines != [] {
      CountingIsReadable(lines[..|lines| - 1]);
      ReadableSnoc(lines[..|lines| - 1], lines[|lines| - 1]);
      assert lines == lines[..|lines| - 1] + [lines[|lines| - 1]];
    }
  }

  /** What the row of a key shows, 0 when there is no such row. */
  function Shown(rows: Buckets, key: string, c: Counter): int {
    if HasKey(rows, key) then Shows(Get(rows, key, NEW), c) else 0
  }

  lemma {:induction false} ShownIs(rows: Buckets, key: string, c: Counter)
    ensures Shown(rows, key, c) == InBucket(rows, key, c)
  {
    if rows != [] && rows[0].0 != key { ShownIs(rows[1..], key, c); }
  }

  /**
   The report. Under every key a row shows, counter by counter, what the last entry of every run has of it, of those
   entries that are let through, as often as each belongs under the key.
   */
  lemma RowShows(lines: seq<Line>, dim: Dimension, since: Option<int>, rows: Buckets, key: string, c: Counter)
    requires NoClash(Readable(lines)) && SameRows(rows, Spend(lines, dim, since))
    ensures Shown(rows, key, c) == SumAll(Lasts(Readable(lines)), Contributes(dim, since, key, c))
  {
    CountingIsReadable(lines);
    var es := Readable(lines);
    SpendIsConserved(lines, dim, since, key, c);
    assert AgreeOn(rows, Spend(lines, dim, since), key, c);
    forall e: Entry ensures ToBucket(dim, since, key, c)(e) == Contributes(dim, since, key, c)(e) {
      ContributesSame(dim, since, key, c, e);
    }
    SumOfLastSame(es, ToBucket(dim, since, key, c), Contributes(dim, since, key, c));
    SumOfLastIs(es, Contributes(dim, since, key, c));
    ShownIs(rows, key, c);
  }

  /** A row is marked unpriced exactly when one of the entries it is made of is. */
  lemma RowMarked(lines: seq<Line>, dim: Dimension, since: Option<int>, rows: Buckets, key: string)
    requires NoClash(Readable(lines)) && SameRows(rows, Spend(lines, dim, since))
    ensures Get(rows, key, NEW).unpriced <==>
            exists e :: e in Lasts(Readable(lines)) && LetThrough(e, since) && e.unpriced && Times(e, dim, key) > 0
  {
    CountingIsReadable(lines);
    var es := Readable(lines);
    MarkedIffUnpriced(lines, dim, since, key);
    assert AgreeOn(rows, Spend(lines, dim, since), key, Runs);
    forall e: Entry ensures UnpricedTo(dim, since, key)(e) == Unpriced(dim, since, key)(e) {
      ContributesSame(dim, since, key, Runs, e);
    }
    SumOfLastSame(es, UnpricedTo(dim, since, key), Unpriced(dim, since, key));
    SumOfLastIs(es, Unpriced(dim, since, key));
    SumIsPositiveIff(Lasts(es), Unpriced(dim, since, key));
    forall e
      ensures Unpriced(dim, since, key)(e) > 0 <==> LetThrough(e, since) && e.unpriced && Times(e, dim, key) > 0 {}
  }

  lemma {:induction false} SumIsPositiveIff(es: seq<Entry>, w: Measure)
    requires forall e: Entry :: w(e) >= 0
    ensures SumAll(es, w) >= 0 && (SumAll(es, w) > 0 <==> exists e :: e in es && w(e) > 0)
  {
    if es != [] {
      SumIsPositiveIff(es[1..], w);
      assert forall e :: e in es <==> e == es[0] || e in es[1..];
    }
  }

  /** The rows' figures added up. */
  function SumShown(rows: Buckets, c: Counter): int {
    if rows == [] then 0 else Shows(rows[0].1, c) + SumShown(rows[1..], c)
  }

  /** What is called the total of the rows is, counter by counter, their sum. */
  lemma {:induction false} TotalIsSum(rows: Buckets, c: Counter)
    ensures Total(rows, c) == SumShown(rows, c)
  {
    if rows != [] { TotalIsSum(rows[1..], c); }
  }

  // ---------------------------------------------------------------- which rows there are

  /** How often an entry that is let through belongs under a key. */
  function Belongs(dim: Dimension, since: Option<int>, key: string): Measure {
    (e: Entry) => if LetThrough(e, since) then Times(e, dim, key) else 0
  }

  lemma {:induction false} AddToAllKeys(b: Buckets, keys: seq<string>, e: Entry, key: string)
    ensures HasKey(AddToAll(b, keys, e), key) <==> HasKey(b, key) || key in keys
  {
    if keys != [] {
      var before, last := keys[..|keys| - 1], keys[|keys| - 1];
      AddToAllKeys(b, before, e, key);
      var sum := AddToAll(b, before, e);
      PutLooks(sum, last, AddRow(Get(sum, last, NEW), e), _ => 0, key);
      assert keys == before + [last];
    }
  }

  lemma {:induction false} GroupedKeys(d: Latest, dim: Dimension, since: Option<int>, key: string)
    ensures SumOver(d, Belongs(dim, since, key)) >= 0
    ensures HasKey(Grouped(d, dim, since), key) <==> SumOver(d, Belongs(dim, since, key)) > 0
  {
    if d != [] {
      var before, e := d[..|d| - 1], d[|d| - 1].1;
      GroupedKeys(before, dim, since, key);
      AddToAllKeys(Grouped(before, dim, since), GroupKeys(e, dim), e, key);
      TimesAre(e, dim, key);
      CountIsMultiplicity(GroupKeys(e, dim), key);
      SumLast(d, Belongs(dim, since, key));
    }
  }

  /** There is a row for exactly the keys that some last entry, if let through, belongs under. */
  lemma RowIsThere(lines: seq<Line>, dim: Dimension, since: Option<int>, rows: Buckets, key: string)
    requires NoClash(Readable(lines)) && SameRows(rows, Spend(lines, dim, since))
    ensures HasKey(rows, key) <==>
            exists e :: e in Lasts(Readable(lines)) && LetThrough(e, since) && Times(e, dim, key) > 0
  {
    CountingIsReadable(lines);
    var es := Readable(lines);
    assert AgreeOn(rows, Spend(lines, dim, since), key, Runs);
    GroupedKeys(LatestOf(es), dim, since, key);
    LatestSums(es, Belongs(dim, since, key));
    SumOfLastIs(es, Belongs(dim, since, key));
    SumIsPositiveIff(Lasts(es), Belongs(dim, since, key));
    forall e ensures Belongs(dim, since, key)(e) > 0 <==> LetThrough(e, since) && Times(e, dim, key) > 0 {}
  }
}
