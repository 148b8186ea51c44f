/**
 What an intact chain says about a file whose rows may have been edited: with an injective digest, the head fixes
 every row.
 */
module TamperEvidence {
  import opened Basics
  import opened AuditRows
  import opened AuditLog

  /** Different rows have different digests. */
  ghost predicate Injective(h: Hash) {
    forall a, b {:trigger h(a), h(b)} :: h(a) == h(b) ==> a == b
  }

  /** No row has the digest that marks the start of a chain. */
  ghost predicate NeverGenesis(h: Hash) {
    forall a {:trigger h(a)} :: h(a) != GENESIS
  }

  /** The newest digest of a chain; that of a chain not yet begun is the start marker. */
  function HeadHash(cs: seq<Chained>): string {
    if cs == [] then GENESIS else cs[|cs| - 1].entryHash.value
  }

  // ---------------------------------------------------------------- one file

  /** Equal digests of two sealed rows: the rows are the same. */
  lemma {:induction false} SealedRowsAgree(h: Hash, a: Chained, b: Chained)
    requires Injective(h) && Sealed(h, a) && Sealed(h, b) && a.entryHash == b.entryHash
    ensures a == b
  {
    assert h(Body(a)) == h(Body(b));
    assert a == Body(a).(entryHash := a.entryHash) && b == Body(b).(entryHash := b.entryHash);
  }

  /**
   Going backwards from the head: two intact chains with the same last digest agree row by row as far back as
   both reach.
   */
  lemma {:induction false} SameHeadSameTail(h: Hash, a: seq<Chained>, b: seq<Chained>, n: nat)
    requires Injective(h) && Linked(h, a) && Linked(h, b)
    requires 1 <= n <= |a| && n <= |b|
    requires HeadHash(a) == HeadHash(b)
    ensures a[|a| - n..] == b[|b| - n..]
  {
    if n == 1 {
      SealedRowsAgree(h, a[|a| - 1], b[|b| - 1]);
    } else {
      SameHeadSameTail(h, a, b, n - 1);
      var i, j := |a| - n, |b| - n;
      assert a[i + 1..][0] == b[j + 1..][0];
      assert LinkAt(a, i + 1) && LinkAt(b, j + 1);
      SealedRowsAgree(h, a[i], b[j]);
      assert a[i..] == [a[i]] + a[i + 1..] && b[j..] == [b[j]] + b[j + 1..];
    }
  }

  /**
   Two files that both verify, with as many chained rows and the same final digest, hold identical chained rows:
   an edit, a swap or a substitution either fails verification or changes the head.
   */
  lemma TamperingShows(h: Hash, f: File, g: File)
    requires Injective(h) && ChainHolds(h, f) && ChainHolds(h, g)
    requires |ChainedRows(f)| == |ChainedRows(g)|
    requires HeadHash(ChainedRows(f)) == HeadHash(ChainedRows(g))
    ensures ChainedRows(f) == ChainedRows(g)
  {
    var a, b := ChainedRows(f), ChainedRows(g);
    if a != [] {
      SameHeadSameTail(h, a, b, |a|);
      assert a[0..] == a && b[0..] == b;
    }
  }

  /** Only the first row of a chain may be an anchor. */
  predicate AnchorOnlyFirst(cs: seq<Chained>) {
    forall k :: 0 < k < |cs| ==> !IsAnchor(cs[k])
  }

  lemma {:induction false} LaterRowNeverOpens(h: Hash, cs: seq<Chained>, k: nat)
    requires NeverGenesis(h) && Linked(h, cs) && AnchorOnlyFirst(cs) && 0 < k < |cs|
    ensures !Opens(cs[k])
  {
    assert LinkAt(cs, k) && Sealed(h, cs[k - 1]);
    assert h(Body(cs[k - 1])) != GENESIS;
  }

  lemma {:induction false} HeadOfBegunChain(h: Hash, cs: seq<Chained>)
    requires NeverGenesis(h) && Linked(h, cs) && cs != []
    ensures HeadHash(cs) != GENESIS
  {
    assert Sealed(h, cs[|cs| - 1]) && h(Body(cs[|cs| - 1])) != GENESIS;
  }

  lemma {:induction false} ShorterChainIsWhole(h: Hash, a: seq<Chained>, b: seq<Chained>)
    requires Injective(h) && NeverGenesis(h) && Linked(h, a) && Linked(h, b) && AnchorOnlyFirst(b)
    requires |a| <= |b| && HeadHash(a) == HeadHash(b)
    ensures a == b
  {
    if a == [] {
      if b != [] { HeadOfBegunChain(h, b); }
    } else {
      SameHeadSameTail(h, a, b, |a|);
      var j := |b| - |a|;
      assert a[0..] == a;
      if j > 0 {
        assert a[0] == b[j..][0] == b[j];
        assert LinkAt(a, 0);
        LaterRowNeverOpens(h, b, j);
      }
    }
  }

  /**
   The final digest alone is enough, also against cutting rows off the front, when no row hashes to the start
   marker and anchors appear only where a rotation puts them.
   */
  lemma HeadFixesFile(h: Hash, f: File, g: File)
    requires Injective(h) && NeverGenesis(h) && ChainHolds(h, f) && ChainHolds(h, g)
    requires AnchorOnlyFirst(ChainedRows(f)) && AnchorOnlyFirst(ChainedRows(g))
    requires HeadHash(ChainedRows(f)) == HeadHash(ChainedRows(g))
    ensures ChainedRows(f) == ChainedRows(g)
  {
    var a, b := ChainedRows(f), ChainedRows(g);
    if |a| <= |b| { ShorterChainIsWhole(h, a, b); } else { ShorterChainIsWhole(h, b, a); }
  }

  // ---------------------------------------------------------------- a log of several files

  /** Every file passes verification, which looks at one file at a time. */
  ghost predicate EachVerifies(h: Hash, files: seq<File>) {
    forall k :: 0 <= k < |files| ==> ChainHolds(h, files[k])
  }

  /** Anchors only where rotations put them: none, or exactly the first chained row of an anchored file. */
  predicate Shaped(cs: seq<Chained>, anchored: bool) {
    && AnchorOnlyFirst(cs)
    && if anchored then cs != [] && IsAnchor(cs[0]) else cs == [] || !IsAnchor(cs[0])
  }

  ghost predicate AllShaped(files: seq<File>) {
    forall k :: 0 <= k < |files| ==> Shaped(ChainedRows(files[k]), k > 0)
  }

  /** `after` begins where `before` ended, as a rotation leaves it. */
  predicate Carries(before: File, after: File) {
    var a, b := ChainedRows(before), ChainedRows(after);
    b != [] && b[0].prevHash.value == HeadHash(a)
  }

  /** Every file but the first carries the newest digest of the file before it. Verification does not look at this. */
  ghost predicate AllCarry(files: seq<File>) {
    forall k, l :: 0 <= k && l == k + 1 && l < |files| ==> Carries(files[k], files[l])
  }

  /** Intact files of which the first starts a chain and each later one opens with an anchor carrying the one before. */
  ghost predicate ChainedLog(h: Hash, files: seq<File>) {
    EachVerifies(h, files) && AllShaped(files) && AllCarry(files)
  }

  ghost predicate SameRows(fs: seq<File>, gs: seq<File>) {
    |fs| == |gs| && forall k :: 0 <= k < |fs| ==> ChainedRows(fs[k]) == ChainedRows(gs[k])
  }

  function Newest(files: seq<File>): string
    requires files != []
  {
    HeadHash(ChainedRows(files[|files| - 1]))
  }

  lemma {:induction false} LogPrefix(h: Hash, fs: seq<File>, n: nat)
    requires ChainedLog(h, fs) && n <= |fs|
    ensures ChainedLog(h, fs[..n])
  {
    forall k | 0 <= k < n ensures ChainHolds(h, fs[..n][k]) && Shaped(ChainedRows(fs[..n][k]), k > 0) {
      assert fs[..n][k] == fs[k];
    }
  }

  /** Across rotations the newest digest of a chained log fixes the number of files and every chained row in each. */
  lemma {:induction false} HeadFixesLog(h: Hash, fs: seq<File>, gs: seq<File>)
    requires Injective(h) && NeverGenesis(h) && ChainedLog(h, fs) && ChainedLog(h, gs)
    requires fs != [] && gs != [] && Newest(fs) == Newest(gs)
    ensures SameRows(fs, gs)
    decreases |fs|
  {
    var m, n := |fs| - 1, |gs| - 1;
    HeadFixesFile(h, fs[m], gs[n]);
    assert m > 0 <==> n > 0;
    if m > 0 {
      assert Carries(fs[m - 1], fs[m]) && Carries(gs[n - 1], gs[n]);
      LogPrefix(h, fs, m);
      LogPrefix(h, gs, n);
      HeadFixesLog(h, fs[..m], gs[..n]);
      forall k | 0 <= k < |fs| ensures ChainedRows(fs[k]) == ChainedRows(gs[k]) {
        if k < m { assert ChainedRows(fs[..m][k]) == ChainedRows(gs[..n][k]); }
      }
    }
  }

  lemma {:induction false} SameRowsSameLinks(fs: seq<File>, gs: seq<File>)
    requires SameRows(fs, gs) && AllShaped(fs) && AllCarry(fs)
    ensures AllShaped(gs) && AllCarry(gs)
  {
    forall k, l | 0 <= k && l == k + 1 && l < |gs| ensures Carries(gs[k], gs[l]) {
      assert Carries(fs[k], fs[l]);
      assert ChainedRows(fs[k]) == ChainedRows(gs[k]) && ChainedRows(fs[l]) == ChainedRows(gs[l]);
    }
  }

  /**
   A log whose files each verify and that ends in the newest digest of a chained log has the same chained rows in the
   same files if and only if its anchors are where rotations put them and each carries the head of the file before.
   */
  lemma HeadFixesLogIff(h: Hash, fs: seq<File>, gs: seq<File>)
    requires Injective(h) && NeverGenesis(h) && ChainedLog(h, fs) && EachVerifies(h, gs)
    requires fs != [] && gs != [] && Newest(fs) == Newest(gs)
    ensures SameRows(fs, gs) <==> AllShaped(gs) && AllCarry(gs)
  {
    if AllShaped(gs) && AllCarry(gs) { HeadFixesLog(h, fs, gs); }
    if SameRows(fs, gs) { SameRowsSameLinks(fs, gs); }
  }

  lemma {:induction false} OneRowFile(h: Hash, event: Payload)
    ensures ChainedRows(Appended(h, [], event)) == [NewRow(h, event, FRESH)] && ChainHolds(h, Appended(h, [], event))
  {
    LegacyIsGood(h, []);
    AppendKeepsGood(h, [], event);
  }

  lemma {:induction false} BegunFile(h: Hash, run: string, full: File, ts: string)
    ensures var b := Begun(h, run, 1, full, ts);
            && ChainedRows(b) == [AnchorRow(h, run, 1, HeadOf(full), ts)]
            && ChainHolds(h, b) && Shaped(ChainedRows(b), true)
  {
    var b := Begun(h, run, 1, full, ts);
    AnchorFileIsGood(h, run, 1, HeadOf(full), ts);
    assert b[..0] == [];
  }

  /** A file and the one a rotation begins behind another file: each verifies, and each has its shape. */
  lemma {:induction false} TwoFilesVerify(h: Hash, first: Payload, second: File)
    requires !IsAnchorEvent(first) && ChainHolds(h, second) && Shaped(ChainedRows(second), true)
    ensures var files := [Appended(h, [], first), second];
            EachVerifies(h, files) && AllShaped(files) && Newest(files) == HeadHash(ChainedRows(second))
  {
    OneRowFile(h, first);
    var files := [Appended(h, [], first), second];
    forall k | 0 <= k < |files| ensures ChainHolds(h, files[k]) && Shaped(ChainedRows(files[k]), k > 0) {}
  }

  lemma {:induction false} TwoFilesCarry(h: Hash, run: string, first: Payload, ts: string)
    ensures var a := Appended(h, [], first); AllCarry([a, Begun(h, run, 1, a, ts)])
  {
    var a := Appended(h, [], first);
    var files := [a, Begun(h, run, 1, a, ts)];
    BegunFile(h, run, a, ts);
    HeadMeans(a);
    forall k, l | 0 <= k && l == k + 1 && l < |files| ensures Carries(files[k], files[l]) {}
  }

  lemma {:induction false} DifferentRows(h: Hash, was: Payload, now: Payload, second: File)
    requires was != now
    ensures !SameRows([Appended(h, [], was), second], [Appended(h, [], now), second])
  {
    OneRowFile(h, was);
    OneRowFile(h, now);
    var fs, gs := [Appended(h, [], was), second], [Appended(h, [], now), second];
    assert ChainedRows(fs[0])[0].data == was && ChainedRows(gs[0])[0].data == now;
  }

  /**
   Verifying file by file is not enough: behind a rotation the older file can be replaced by another one. Both logs
   end in the same digest, every file of both verifies and is shaped as a rotation leaves it, and the rows differ.
   */
  lemma OlderFileCanBeReplaced(h: Hash, run: string, was: Payload, now: Payload, ts: string)
    requires was != now && !IsAnchorEvent(was) && !IsAnchorEvent(now)
    ensures var a, a' := Appended(h, [], was), Appended(h, [], now);
            var b := Begun(h, run, 1, a, ts);
            && ChainedLog(h, [a, b])
            && EachVerifies(h, [a', b]) && AllShaped([a', b]) && Newest([a', b]) == Newest([a, b])
            && !SameRows([a, b], [a', b])
  {
    var b := Begun(h, run, 1, Appended(h, [], was), ts);
    BegunFile(h, run, Appended(h, [], was), ts);
    TwoFilesVerify(h, was, b);
    TwoFilesCarry(h, run, was, ts);
    TwoFilesVerify(h, now, b);
    DifferentRows(h, was, now, b);
  }

  /** What a rotation leaves behind: the new file carries the head of the old one. */
  lemma AnchorCarriesHead(h: Hash, run: string, n: nat, before: File, after: File)
    requires Good(h, before) && Continues(h, run, n, before, after)
    ensures Carries(before, after)
    ensures IsAnchor(ChainedRows(after)[0])
    ensures ChainedRows(before) != [] ==>
              && "prev_seq" in ChainedRows(after)[0].data
              && ChainedRows(after)[0].data["prev_seq"]
                 == Number(ChainedRows(before)[|ChainedRows(before)| - 1].seqNo.value)
  {
    HeadMeans(before);
    FirstRowFirst(after);
  }

  lemma {:induction false} FirstRowFirst(f: File)
    requires |f| > 0 && f[0].Object? && IsChained(f[0].row)
    ensures ChainedRows(f) != [] && ChainedRows(f)[0] == f[0].row
  {
    if |f| == 1 {
      assert f[..0] == [];
    } else {
      assert f[..|f| - 1][0] == f[0];
      FirstRowFirst(f[..|f| - 1]);
    }
  }
}
