/** The deterministic repair that drops trailing commas: one regular-expression substitution, up to eight times. */
module Repairs {
  import opened Basics
  import opened Texts

  const PASSES: nat := 8

  predicate IsCloser(c: char) {
    c == '}' || c == ']'
  }

  /** Optional white space, then a closing bracket: what the pattern wants behind a comma. */
  predicate ClosesNext(s: string) {
    s != [] && (IsCloser(s[0]) || (IsSpace(s[0]) && ClosesNext(s[1..])))
  }

  predicate TrailsAt(s: string, k: nat) {
    k < |s| && s[k] == ',' && ClosesNext(s[k + 1..])
  }

  /** Some comma is followed by optional white space and a closing bracket. */
  ghost predicate HasTrailing(s: string) {
    exists k: nat :: TrailsAt(s, k)
  }

  /** One substitution: every comma that trails now goes. */
  function Pass(s: string): string {
    if s == [] then []
    else if s[0] == ',' && ClosesNext(s[1..]) then Pass(s[1..])
    else [s[0]] + Pass(s[1..])
  }

  function Iterate(s: string, n: nat): string
    decreases n
  {
    if n == 0 then s else Iterate(Pass(s), n - 1)
  }

  // ---------------------------------------------------------------- comma runs

  /** Commas and white space, then a closing bracket. */
  predicate RunCloses(s: string) {
    s != [] && (IsCloser(s[0]) || ((IsSpace(s[0]) || s[0] == ',') && RunCloses(s[1..])))
  }

  /** How many commas stand, with white space, between here and a closing bracket; 0 when anything else comes first. */
  function RunLength(s: string): nat {
    if !RunCloses(s) || IsCloser(s[0]) then 0
    else (if s[0] == ',' then 1 else 0) + RunLength(s[1..])
  }

  /** The longest comma run before a closing bracket anywhere in the text. */
  function LongestRun(s: string): nat {
    if s == [] then 0 else Max(RunLength(s), LongestRun(s[1..]))
  }

  /** The text without any comma that only white space and commas separate from a closing bracket. */
  function WithoutRuns(s: string): string {
    if s == [] then []
    else if s[0] == ',' && RunCloses(s[1..]) then WithoutRuns(s[1..])
    else [s[0]] + WithoutRuns(s[1..])
  }

  function NonCommas(s: string): string {
    if s == [] then [] else (if s[0] == ',' then [] else [s[0]]) + NonCommas(s[1..])
  }

  /** `t` is `s` with some commas left out. */
  predicate DropsOnlyCommas(s: string, t: string) {
    if s == [] then t == []
    else (t != [] && t[0] == s[0] && DropsOnlyCommas(s[1..], t[1..])) || (s[0] == ',' && DropsOnlyCommas(s[1..], t))
  }

  predicate Less(a: nat, b: nat) {
    a == if b == 0 then 0 else b - 1
  }

  lemma {:induction false} ClosesIsEmptyRun(s: string)
    ensures ClosesNext(s) <==> RunCloses(s) && RunLength(s) == 0
  {
    if s != [] && IsSpace(s[0]) { ClosesIsEmptyRun(s[1..]); }
  }

  /** One pass shortens every run by one comma and keeps where it ends. */
  lemma {:induction false} PassShortensHere(s: string)
    ensures RunCloses(Pass(s)) == RunCloses(s) && Less(RunLength(Pass(s)), RunLength(s))
  {
    if s != [] {
      PassShortensHere(s[1..]);
      ClosesIsEmptyRun(s[1..]);
    }
  }

  lemma {:induction false} PassShortens(s: string)
    ensures Less(LongestRun(Pass(s)), LongestRun(s))
  {
    if s != [] {
      PassShortens(s[1..]);
      PassShortensHere(s);
      PassShortensHere(s[1..]);
      ClosesIsEmptyRun(s[1..]);
    }
  }

  lemma HasTrailingCons(s: string)
    requires s != []
    ensures HasTrailing(s) <==> StartsTrailing(s) || HasTrailing(s[1..])
  {
    if k: nat :| TrailsAt(s[1..], k) { assert TrailsAt(s, k + 1); }
    if StartsTrailing(s) { assert TrailsAt(s, 0); }
    if k: nat :| TrailsAt(s, k) {
      if k > 0 { assert TrailsAt(s[1..], k - 1); }
    }
  }

  predicate StartsTrailing(s: string) {
    s != [] && s[0] == ',' && ClosesNext(s[1..])
  }

  lemma LongestRunCons(s: string)
    requires s != []
    ensures LongestRun(s) == 0 <==> !StartsTrailing(s) && LongestRun(s[1..]) == 0
  {
    ClosesIsEmptyRun(s[1..]);
    if s[0] == ',' && RunCloses(s[1..]) && s[1..] != [] { assert LongestRun(s[1..]) >= RunLength(s[1..]); }
  }

  lemma {:induction false} PassNeverGrows(s: string)
    ensures |Pass(s)| <= |s|
  {
    if s != [] { PassNeverGrows(s[1..]); }
  }

  lemma PassCons(s: string)
    requires s != []
    ensures Pass(s) == s <==> !StartsTrailing(s) && Pass(s[1..]) == s[1..]
  {
    PassNeverGrows(s[1..]);
    if !StartsTrailing(s) { assert Pass(s)[1..] == Pass(s[1..]) && s == [s[0]] + s[1..]; }
  }

  lemma {:induction false} PassFixedIff(s: string)
    ensures Pass(s) == s <==> LongestRun(s) == 0
  {
    if s != [] {
      PassFixedIff(s[1..]);
      PassCons(s);
      LongestRunCons(s);
    }
  }

  /** A trailing comma is left exactly when some run is not empty, and a pass changes the text exactly then. */
  lemma {:induction false} TrailingIsARun(s: string)
    ensures HasTrailing(s) <==> LongestRun(s) > 0
    ensures Pass(s) == s <==> LongestRun(s) == 0
  {
    PassFixedIff(s);
    if s == [] {
      assert forall k: nat :: !TrailsAt(s, k);
    } else {
      HasTrailingCons(s);
      LongestRunCons(s);
      TrailingIsARun(s[1..]);
    }
  }

  lemma {:induction false} IterateShortens(s: string, n: nat)
    ensures LongestRun(Iterate(s, n)) == if LongestRun(s) <= n then 0 else LongestRun(s) - n
    decreases n
  {
    if n > 0 {
      PassShortens(s);
      IterateShortens(Pass(s), n - 1);
    }
  }

  lemma {:induction false} IterateFixed(s: string, n: nat)
    requires Pass(s) == s
    ensures Iterate(s, n) == s
  {
    if n > 0 { IterateFixed(s, n - 1); }
  }

  lemma {:induction false} IterateSnoc(s: string, n: nat)
    ensures Iterate(s, n + 1) == Pass(Iterate(s, n))
    decreases n
  {
    if n > 0 { IterateSnoc(Pass(s), n - 1); }
  }

  lemma {:induction false} PassKeepsRest(s: string)
    ensures WithoutRuns(Pass(s)) == WithoutRuns(s) && NonCommas(Pass(s)) == NonCommas(s)
  {
    if s != [] {
      PassKeepsRest(s[1..]);
      PassShortensHere(s[1..]);
      ClosesIsEmptyRun(s[1..]);
    }
  }

  lemma {:induction false} IterateKeepsRest(s: string, n: nat)
    ensures WithoutRuns(Iterate(s, n)) == WithoutRuns(s) && NonCommas(Iterate(s, n)) == NonCommas(s)
    decreases n
  {
    if n > 0 {
      PassKeepsRest(s);
      IterateKeepsRest(Pass(s), n - 1);
    }
  }

  lemma {:induction false} NoRunsNothingToDrop(s: string)
    requires LongestRun(s) == 0
    ensures WithoutRuns(s) == s
  {
    if s != [] { NoRunsNothingToDrop(s[1..]); }
  }

  lemma {:induction false} PassDrops(s: string)
    ensures DropsOnlyCommas(s, Pass(s))
  {
    if s != [] { PassDrops(s[1..]); }
  }

  lemma {:induction false} DropsTransitive(s: string, t: string, u: string)
    requires DropsOnlyCommas(s, t) && DropsOnlyCommas(t, u)
    ensures DropsOnlyCommas(s, u)
    decreases |s|
  {
    if s != [] {
      if t != [] && t[0] == s[0] && DropsOnlyCommas(s[1..], t[1..]) {
        if u != [] && u[0] == t[0] && DropsOnlyCommas(t[1..], u[1..]) {
          DropsTransitive(s[1..], t[1..], u[1..]);
        } else {
          DropsTransitive(s[1..], t[1..], u);
        }
      } else {
        DropsTransitive(s[1..], t, u);
      }
    }
  }

  lemma {:induction false} DropsNothing(s: string)
    ensures DropsOnlyCommas(s, s)
  {
    if s != [] { DropsNothing(s[1..]); }
  }

  lemma {:induction false} IterateDrops(s: string, n: nat)
    ensures DropsOnlyCommas(s, Iterate(s, n))
    decreases n
  {
    if n == 0 {
      DropsNothing(s);
    } else {
      PassDrops(s);
      IterateDrops(Pass(s), n - 1);
      DropsTransitive(s, Pass(s), Iterate(s, n));
    }
  }

  // ---------------------------------------------------------------- the program

  /** Where the white space that starts at `from` ends. */
  method SkipSpace(s: string, from: nat) returns (end: nat)
    requires from <= |s|
    ensures from <= end <= |s| && ClosesNext(s[from..]) == ClosesNext(s[end..])
    ensures forall j :: from <= j < end ==> IsSpace(s[j])
    ensures end < |s| ==> !IsSpace(s[end])
  {
    end := from;
    while end < |s| && IsSpace(s[end])
      invariant from <= end <= |s|
      invariant ClosesNext(s[from..]) == ClosesNext(s[end..])
      invariant forall j :: from <= j < end ==> IsSpace(s[j])
    {
      assert s[end..][1..] == s[end + 1..];
      end := end + 1;
    }
  }

  /** One left-to-right substitution, matching as far as the pattern reaches. */
  method Substitute(s: string) returns (r: string)
    ensures r == Pass(s)
  {
    r := [];
    var k := 0;
    while k < |s|
      invariant 0 <= k <= |s| && r + Pass(s[k..]) == Pass(s)
    {
      assert s[k..][1..] == s[k + 1..];
      var end := k + 1;
      if s[k] == ',' { end := SkipSpace(s, k + 1); }
      if s[k] == ',' && end < |s| && IsCloser(s[end]) {
        MatchedStep(s, k, end);
        assert r + s[k + 1..end + 1] + Pass(s[end + 1..]) == r + (s[k + 1..end + 1] + Pass(s[end + 1..]));
        r := r + s[k + 1..end + 1];
        k := end + 1;
      } else {
        assert r + [s[k]] + Pass(s[k + 1..]) == r + ([s[k]] + Pass(s[k + 1..]));
        r := r + [s[k]];
        k := k + 1;
      }
    }
    assert r + [] == r;
  }

  /** A match drops its comma and copies the white space and the bracket. */
  lemma MatchedStep(s: string, k: nat, end: nat)
    requires k < end < |s| && s[k] == ',' && IsCloser(s[end]) && forall j :: k < j < end ==> IsSpace(s[j])
    requires ClosesNext(s[k + 1..]) == ClosesNext(s[end..])
    ensures Pass(s[k..]) == s[k + 1..end + 1] + Pass(s[end + 1..])
  {
    assert s[k..][1..] == s[k + 1..];
    PassCopies(s[k + 1..], end - k);
    assert s[k + 1..][..end - k] == s[k + 1..end + 1] && s[k + 1..][end - k..] == s[end + 1..];
  }

  /** Only white space stands between here and a closing bracket. */
  lemma {:induction false} ClosesNextMeans(s: string)
    ensures ClosesNext(s) <==>
            exists end ::
              0 <= end < |s| && (s[end] == '}' || s[end] == ']') && forall j :: 0 <= j < end ==> IsSpace(s[j])
  {
    if s != [] && IsSpace(s[0]) {
      ClosesNextMeans(s[1..]);
      if end :| 0 <= end < |s| && (s[end] == '}' || s[end] == ']') && forall j :: 0 <= j < end ==> IsSpace(s[j]) {
        assert end > 0 && s[1..][end - 1] == s[end];
        assert forall j :: 0 <= j < end - 1 ==> s[1..][j] == s[j + 1];
      }
      if ClosesNext(s[1..]) {
        var end :| 0 <= end < |s[1..]| && (s[1..][end] == '}' || s[1..][end] == ']')
                   && forall j :: 0 <= j < end ==> IsSpace(s[1..][j]);
        forall j | 0 <= j < end + 1 ensures IsSpace(s[j]) {
          if j > 0 { assert s[1..][j - 1] == s[j]; }
        }
        assert s[end + 1] == s[1..][end];
      }
    }
  }

  /** What a substitution makes of the character at `k`: nothing of a trailing comma, itself of any other. */
  function Made(s: string, k: nat): string
    requires k < |s|
  {
    if TrailsAt(s, k) then [] else [s[k]]
  }

  /** What a substitution makes of the characters in front of `k`. */
  function Before(s: string, k: nat): string
    requires k <= |s|
  {
    if k == 0 then [] else Before(s, k - 1) + Made(s, k - 1)
  }

  lemma MadeNext(s: string, k: nat)
    requires k < |s|
    ensures Pass(s[k..]) == Made(s, k) + Pass(s[k + 1..])
  {
    assert s[k..][1..] == s[k + 1..];
  }

  /** A substitution goes through the text character by character. */
  lemma {:induction false} PassAt(s: string, k: nat)
    requires k <= |s|
    ensures Pass(s) == Before(s, k) + Pass(s[k..])
  {
    if k == 0 {
      assert s[0..] == s;
    } else {
      PassAt(s, k - 1);
      MadeNext(s, k - 1);
      assert Before(s, k - 1) + (Made(s, k - 1) + Pass(s[k..])) == Before(s, k) + Pass(s[k..]);
    }
  }

  /** The result is what is made of every character in turn. */
  lemma PassIsMade(s: string)
    ensures Pass(s) == Before(s, |s|)
  {
    PassAt(s, |s|);
    assert s[|s|..] == [];
  }

  /** A stretch without commas passes unchanged. */
  lemma {:induction false} PassCopies(s: string, n: nat)
    requires n <= |s| && forall j :: 0 <= j < n ==> s[j] != ','
    ensures Pass(s) == s[..n] + Pass(s[n..])
  {
    if n > 0 {
      PassCopies(s[1..], n - 1);
      assert s[1..][n - 1..] == s[n..] && s[..n] == [s[0]] + s[1..][..n - 1];
    } else {
      assert s[..0] == [] && s[0..] == s;
    }
  }

  method StripTrailingCommas(text: string) returns (r: string)
    ensures r == Iterate(text, PASSES)
  {
    r := text;
    var k := 0;
    while k < PASSES
      invariant 0 <= k <= PASSES && r == Iterate(text, k)
    {
      var next := Substitute(r);
      IterateSnoc(text, k);
      if next == r {
        IterateFixed(r, PASSES - k);
        IterateSplit(text, k, PASSES - k);
        return next;
      }
      r := next;
      k := k + 1;
    }
  }

  lemma {:induction false} IterateSplit(s: string, m: nat, n: nat)
    ensures Iterate(s, m + n) == Iterate(Iterate(s, m), n)
    decreases m
  {
    if m > 0 { IterateSplit(Pass(s), m - 1, n); }
  }

  // ---------------------------------------------------------------- what it achieves

  /** Nothing but commas is deleted, whatever the text. */
  lemma OnlyCommasGo(text: string)
    ensures DropsOnlyCommas(text, Iterate(text, PASSES)) && NonCommas(Iterate(text, PASSES)) == NonCommas(text)
  {
    IterateDrops(text, PASSES);
    IterateKeepsRest(text, PASSES);
  }

  /**
   The result is free of trailing commas exactly when no comma run before a closing bracket has more than eight
   commas; exactly then repairing again changes nothing, and exactly then every such run is gone.
   */
  lemma CleanIffShortRuns(text: string)
    ensures var r := Iterate(text, PASSES);
            && (!HasTrailing(r) <==> LongestRun(text) <= 8)
            && (Iterate(r, PASSES) == r <==> LongestRun(text) <= 8)
            && (r == WithoutRuns(text) <==> LongestRun(text) <= 8)
  {
    var r := Iterate(text, PASSES);
    IterateShortens(text, PASSES);
    IterateShortens(r, PASSES);
    TrailingIsARun(r);
    IterateKeepsRest(text, PASSES);
    if LongestRun(r) == 0 {
      IterateFixed(r, PASSES);
      NoRunsNothingToDrop(r);
    } else {
      WithoutRunsIsClean(text);
    }
  }

  function Commas(n: nat): string {
    if n == 0 then [] else [','] + Commas(n - 1)
  }

  lemma {:induction false} CommasBeforeCloser(n: nat)
    ensures RunCloses(Commas(n) + "]") && RunLength(Commas(n) + "]") == LongestRun(Commas(n) + "]") == n
  {
    var s := Commas(n) + "]";
    if n > 0 {
      assert s[0] == ',' && s[1..] == Commas(n - 1) + "]";
      CommasBeforeCloser(n - 1);
    } else {
      assert s == "]" && s[1..] == [];
    }
  }

  /** Nine commas before a bracket: a trailing comma is left. */
  lemma NineCommasLeaveOne()
    ensures HasTrailing(Iterate(Commas(PASSES + 1) + "]", PASSES))
  {
    CommasBeforeCloser(PASSES + 1);
    CleanIffShortRuns(Commas(PASSES + 1) + "]");
  }

  lemma {:induction false} WithoutRunsIsClean(s: string)
    ensures RunCloses(WithoutRuns(s)) == RunCloses(s)
    ensures RunLength(WithoutRuns(s)) == 0 && LongestRun(WithoutRuns(s)) == 0
  {
    if s != [] { WithoutRunsIsClean(s[1..]); }
  }

  // ---------------------------------------------------------------- string literals

  /** Where a scan of JSON text is: between literals, in one, or behind a backslash in one. */
  datatype Mode = Outside | Inside | Escaped

  function After(m: Mode, c: char): Mode {
    match m
    case Outside => if c == '"' then Inside else Outside
    case Inside => if c == '"' then Outside else if c == '\\' then Escaped else Inside
    case Escaped => Inside
  }

  /** The string literals of a text with their quotes, what stands between them left out. */
  function Literals(s: string, m: Mode): string {
    if s == [] then []
    else (if m == Outside && s[0] != '"' then [] else [s[0]]) + Literals(s[1..], After(m, s[0]))
  }

  /** Inside some literal a comma run stands before a closing bracket. */
  predicate RunInLiteral(s: string, m: Mode) {
    s != [] && ((m != Outside && s[0] == ',' && RunCloses(s[1..])) || RunInLiteral(s[1..], After(m, s[0])))
  }

  /** A text that goes on with white space or a bracket reads the same behind a backslash. */
  lemma PlainStart(s: string)
    requires s != [] && s[0] != '"' && s[0] != '\\'
    ensures Literals(s, Escaped) == Literals(s, Inside)
    ensures RunInLiteral(s, Escaped) == RunInLiteral(s, Inside)
  {}

  lemma {:induction false} PassStart(s: string)
    requires s != [] && s[0] != ','
    ensures Pass(s) != [] && Pass(s)[0] == s[0]
  {}

  /** A comma that goes does not change how what follows it reads. */
  lemma CommaDropped(s: string, m: Mode)
    requires ClosesNext(s)
    ensures Literals(Pass(s), m) == Literals(Pass(s), After(m, ','))
    ensures RunInLiteral(Pass(s), m) == RunInLiteral(Pass(s), After(m, ','))
  {
    PassStart(s);
    if m == Escaped { PlainStart(Pass(s)); }
  }

  /** A run that is not empty ends in a comma that goes. */
  lemma {:induction false} RunIsInLiteral(s: string, m: Mode)
    requires m != Outside && RunCloses(s) && RunLength(s) > 0
    ensures RunInLiteral(s, m)
  {
    if s[0] != ',' { RunIsInLiteral(s[1..], After(m, s[0])); }
  }

  /** One substitution shortens the literals exactly when a run stands in one; it never puts a run into one. */
  lemma {:induction false} PassInLiterals(s: string, m: Mode)
    ensures if RunInLiteral(s, m) then |Literals(Pass(s), m)| < |Literals(s, m)|
            else Literals(Pass(s), m) == Literals(s, m)
    ensures RunInLiteral(Pass(s), m) ==> RunInLiteral(s, m)
  {
    if s != [] {
      var rest, n := s[1..], After(m, s[0]);
      PassInLiterals(rest, n);
      if s[0] == ',' {
        ClosesIsEmptyRun(rest);
        if ClosesNext(rest) {
          CommaDropped(rest, m);
        } else {
          PassShortensHere(rest);
          assert Pass(s)[1..] == Pass(rest);
          if m != Outside && RunCloses(rest) { RunIsInLiteral(rest, n); }
        }
      } else {
        assert Pass(s)[1..] == Pass(rest);
      }
    }
  }

  lemma {:induction false} IterateInLiterals(s: string, n: nat)
    ensures |Literals(Iterate(s, n), Outside)| <= |Literals(s, Outside)|
    ensures RunInLiteral(s, Outside) && n > 0 ==> |Literals(Iterate(s, n), Outside)| < |Literals(s, Outside)|
    ensures !RunInLiteral(s, Outside) ==> Literals(Iterate(s, n), Outside) == Literals(s, Outside)
    decreases n
  {
    if n > 0 {
      PassInLiterals(s, Outside);
      IterateInLiterals(Pass(s), n - 1);
    }
  }

  /** The repair leaves the string literals alone if and only if in none of them a comma run precedes a bracket. */
  lemma LiteralsSurviveIff(text: string)
    ensures Literals(Iterate(text, PASSES), Outside) == Literals(text, Outside) <==> !RunInLiteral(text, Outside)
  {
    IterateInLiterals(text, PASSES);
  }

  lemma PassDropsComma(before: string, after: string)
    requires ',' !in before && ClosesNext(after)
    ensures Pass(before + "," + after) == before + Pass(after)
  {
    var s := before + "," + after;
    PassCopies(s, |before|);
    assert s[..|before|] == before && s[|before|..] == "," + after && ("," + after)[1..] == after;
  }

  lemma NoCommaNoChange(s: string, n: nat)
    requires ',' !in s
    ensures Iterate(s, n) == s
  {
    PassCopies(s, |s|);
    assert s[..|s|] == s && s[|s|..] == [] && s + [] == s;
    IterateFixed(s, n);
  }

  /** A literal that holds a comma and a bracket loses the comma. */
  lemma LiteralCanChange()
    ensures Iterate("{\"a\":\",]\",}", PASSES) == "{\"a\":\"]\"}"
  {
    var before, literal, end := "{\"a\":\"", "]\"", "}";
    var s, t := before + "," + (literal + "," + end), before + (literal + end);
    assert (literal + "," + end)[0] == ']';
    PassDropsComma(before, literal + "," + end);
    PassDropsComma(literal, end);
    assert Pass(end) == end by { assert end[1..] == []; }
    assert Pass(s) == t;
    NoCommaNoChange(t, PASSES - 1);
    assert s == "{\"a\":\",]\",}" && t == "{\"a\":\"]\"}";
  }
}
