/** The string operations the programs lean on: white space, trimming, ASCII lower case, decimal digits. */
module Texts {
  import opened Basics

  /** White space as Python's `str.isspace` and `\s` see it. */
  predicate IsSpace(c: char) {
    var n := c as int;
    || 9 <= n <= 13 || 28 <= n <= 32 || n == 0x85 || n == 0xA0 || n == 0x1680
    || 0x2000 <= n <= 0x200A || n == 0x2028 || n == 0x2029 || n == 0x202F || n == 0x205F || n == 0x3000
  }

  function TrimLeft(s: string): string {
    if s != [] && IsSpace(s[0]) then TrimLeft(s[1..]) else s
  }

  function TrimRight(s: string): string {
    if s != [] && IsSpace(s[|s| - 1]) then TrimRight(s[..|s| - 1]) else s
  }

  function Strip(s: string): string {
    TrimRight(TrimLeft(s))
  }

  /** Neither end is white space. */
  predicate Trimmed(s: string) {
    s == [] || (!IsSpace(s[0]) && !IsSpace(s[|s| - 1]))
  }

  lemma {:induction false} TrimLeftEnds(s: string)
    ensures TrimLeft(s) == [] || !IsSpace(TrimLeft(s)[0])
  {
    if s != [] && IsSpace(s[0]) { TrimLeftEnds(s[1..]); }
  }

  lemma {:induction false} TrimRightEnds(s: string)
    ensures TrimRight(s) == [] || !IsSpace(TrimRight(s)[|TrimRight(s)| - 1])
    ensures TrimRight(s) != [] ==> s != [] && TrimRight(s)[0] == s[0]
  {
    if s != [] && IsSpace(s[|s| - 1]) { TrimRightEnds(s[..|s| - 1]); }
  }

  /** Trimming trims, and does nothing to what is already trimmed. */
  lemma StripTrims(s: string)
    ensures Trimmed(Strip(s)) && Strip(Strip(s)) == Strip(s)
    ensures Trimmed(s) ==> Strip(s) == s
  {
    TrimLeftEnds(s);
    TrimRightEnds(TrimLeft(s));
  }

  predicate AllSpace(s: string) {
    forall k :: 0 <= k < |s| ==> IsSpace(s[k])
  }

  lemma {:induction false} TrimLeftDrops(s: string) returns (n: nat)
    ensures n <= |s| && TrimLeft(s) == s[n..] && AllSpace(s[..n])
  {
    if s != [] && IsSpace(s[0]) {
      var m := TrimLeftDrops(s[1..]);
      n := m + 1;
      assert s[n..] == s[1..][m..];
      forall k | 0 < k < n ensures IsSpace(s[..n][k]) { assert s[1..][..m][k - 1] == s[k]; }
    } else {
      n := 0;
    }
  }

  lemma {:induction false} TrimRightDrops(s: string) returns (n: nat)
    ensures n <= |s| && TrimRight(s) == s[..n] && AllSpace(s[n..])
  {
    if s != [] && IsSpace(s[|s| - 1]) {
      n := TrimRightDrops(s[..|s| - 1]);
      assert s[..n] == s[..|s| - 1][..n];
      forall k | 0 <= k < |s| - n ensures IsSpace(s[n..][k]) {
        if n + k < |s| - 1 { assert s[..|s| - 1][n..][k] == s[n + k]; }
      }
    } else {
      n := |s|;
    }
  }

  /** Trimming drops white space at the two ends and nothing else. */
  lemma StripDrops(s: string) returns (front: nat, end: nat)
    ensures front <= end <= |s| && Strip(s) == s[front..end] && AllSpace(s[..front]) && AllSpace(s[end..])
  {
    front := TrimLeftDrops(s);
    var n := TrimRightDrops(TrimLeft(s));
    end := front + n;
    assert s[front..][..n] == s[front..end] && s[front..][n..] == s[end..];
  }

  function LowerChar(c: char): char {
    if 'A' <= c <= 'Z' then (c as int + 32) as char else c
  }

  function Lower(s: string): (r: string)
    ensures |r| == |s|
  {
    if s == [] then [] else [LowerChar(s[0])] + Lower(s[1..])
  }

  predicate IsLower(s: string) {
    forall k :: 0 <= k < |s| ==> !('A' <= s[k] <= 'Z')
  }

  lemma {:induction false} LowerAt(s: string, k: nat)
    requires k < |s|
    ensures Lower(s)[k] == LowerChar(s[k])
  {
    if k > 0 { LowerAt(s[1..], k - 1); }
  }

  lemma LowerCharMeans(c: char)
    ensures !('A' <= LowerChar(c) <= 'Z') && (!('A' <= c <= 'Z') ==> LowerChar(c) == c)
    ensures IsSpace(LowerChar(c)) <==> IsSpace(c)
  {}

  lemma LowerIsLower(s: string)
    ensures IsLower(Lower(s))
  {
    forall k | 0 <= k < |s| ensures !('A' <= Lower(s)[k] <= 'Z') {
      LowerAt(s, k);
      LowerCharMeans(s[k]);
    }
  }

  lemma {:induction false} LowerKeeps(s: string)
    requires IsLower(s)
    ensures Lower(s) == s
  {
    if s != [] {
      LowerCharMeans(s[0]);
      forall k | 0 <= k < |s| - 1 ensures s[1..][k] == s[k + 1] {}
      LowerKeeps(s[1..]);
      assert s == [s[0]] + s[1..];
    }
  }

  lemma LowerKeepsTrim(s: string)
    requires Trimmed(s)
    ensures Trimmed(Lower(s))
  {
    if s != [] {
      LowerAt(s, 0);
      LowerAt(s, |s| - 1);
      LowerCharMeans(s[0]);
      LowerCharMeans(s[|s| - 1]);
    }
  }

  lemma LowerMeans(s: string)
    ensures IsLower(Lower(s)) && (IsLower(s) ==> Lower(s) == s) && (Trimmed(s) ==> Trimmed(Lower(s)))
  {
    LowerIsLower(s);
    if IsLower(s) { LowerKeeps(s); }
    if Trimmed(s) { LowerKeepsTrim(s); }
  }

  /** A text, or another in place of the empty one. */
  function OrElse(s: string, other: string): string {
    if s == "" then other else s
  }

  /** An optional text that is there and not empty. */
  predicate Present(s: Option<string>) {
    s.Some? && s.value != ""
  }

  /** Case folding; nothing is known about it. */
  type Fold = string -> string

  /** An actor's name, trimmed and case-folded. */
  function Norm(fold: Fold, actor: string): string {
    fold(Strip(actor))
  }

  /** The decimal digits of a number. */
  function Decimal(n: nat): (r: string)
    ensures r != []
  {
    var d := [(n % 10 + '0' as int) as char];
    if n < 10 then d else Decimal(n / 10) + d
  }

  lemma {:induction false} DecimalInjective(m: nat, n: nat)
    requires Decimal(m) == Decimal(n)
    ensures m == n
  {
    var s := Decimal(m);
    assert s[|s| - 1] as int - '0' as int == m % 10 == n % 10;
    if m >= 10 && n >= 10 {
      assert s[..|s| - 1] == Decimal(m / 10) == Decimal(n / 10);
      DecimalInjective(m / 10, n / 10);
    }
  }
}
