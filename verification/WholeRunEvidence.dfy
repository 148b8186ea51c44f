/** Every log the append protocol can produce is one whose newest digest vouches for all of its files. */
module WholeRunEvidence {
  import opened Basics
  import opened AuditRows
  import opened AuditLog
  import opened AuditProtocol
  import opened TamperEvidence

  ghost predicate FilesShaped(f: Files) {
    && (forall n :: n in f.rotated ==> Shaped(ChainedRows(f.rotated[n]), n > 1))
    && (f.current.Some? ==> Shaped(ChainedRows(f.current.value), |f.rotated| > 0))
  }

  lemma {:induction false} RowShape(h: Hash, f: File, event: Payload, anchored: bool)
    requires Good(h, f) && !IsAnchorEvent(event) && Shaped(ChainedRows(f), anchored)
    ensures Shaped(ChainedRows(Appended(h, f, event)), anchored)
  {
    AppendKeepsGood(h, f, event);
  }

  lemma {:induction false} AnchorShape(h: Hash, run: string, n: nat, head: Head, ts: string)
    ensures Shaped(ChainedRows([Object(AnchorRow(h, run, n, head, ts))]), true)
  {
    FirstRowFirst([Object(AnchorRow(h, run, n, head, ts))]);
    AnchorFileIsGood(h, run, n, head, ts);
  }

  lemma {:induction false} RenameShape(env: Env, files: Files, me: Thread, step: Step)
    requires FilesShaped(files) && Numbered(files.rotated) && FileFacts(files, me.at)
    requires step.Rename? && me.at.Measured?
    ensures FilesShaped(NextFile(env, files, me, step).0)
  {
    assert me.at.n !in files.rotated;
  }

  lemma {:induction false} OpenNextShape(env: Env, files: Files, me: Thread, step: Step)
    requires FilesShaped(files) && FileFacts(files, me.at) && step.OpenNext? && me.at.Renamed?
    ensures FilesShaped(NextFile(env, files, me, step).0)
  {
    AnchorShape(env.h, env.run, me.at.n, me.at.head, step.ts);
    var anchor := Object(AnchorRow(env.h, env.run, me.at.n, me.at.head, step.ts));
    assert files.Newest() + [anchor] == [anchor];
  }

  lemma {:induction false} WriteShape(env: Env, legacy: File, files: Files, me: Thread, step: Step)
    requires FilesShaped(files) && FilesSound(env, legacy, files, false) && FileFacts(files, me.at)
    requires files.cuts == {} && step.Write? && me.at.Sealing? && !IsAnchorEvent(me.event)
    ensures FilesShaped(NextFile(env, files, me, step).0)
  {
    LegacyIsGood(env.h, []);
    WriteMeans(env, files, me, step);
    RowShape(env.h, files.Newest(), me.event, |files.rotated| > 0);
  }

  lemma {:induction false} ShapeStep(env: Env, legacy: File, s: State, step: Step)
    requires Inv(env, legacy, s) && OneProcessInside(env, s) && PlainEvents(s)
    requires FilesShaped(s.files) && s.files.cuts == {}
    ensures FilesShaped(Next(env, s, step).files)
  {
    var me := ThreadOf(s, step.t);
    assert FileFacts(s.files, StageOf(s, step.t)) && !IsAnchorEvent(me.event);
    OwnStep(env, s, step);
    if step.Rename? && me.at.Measured? {
      RenameShape(env, s.files, me, step);
    } else if step.OpenNext? && me.at.Renamed? {
      OpenNextShape(env, s.files, me, step);
    } else if step.Write? && me.at.Sealing? {
      forall t | StageOf(s, t).Renamed? ensures t == step.t {
        OneInside(env, s, t, step.t);
      }
      assert !BetweenFiles(s);
      WriteShape(env, legacy, s.files, me, step);
    } else if !TouchesFiles(step) {
      QuietFrame(env, s, step);
    }
  }

  lemma {:induction false} CutsGrow(env: Env, files: Files, me: Thread, step: Step)
    requires !Registers(step)
    ensures files.cuts <= NextFile(env, files, me, step).0.cuts
  {}

  lemma CutsStay(env: Env, s: State, step: Step)
    ensures s.files.cuts <= Next(env, s, step).files.cuts
  {
    OwnStep(env, s, step);
    if !Registers(step) { CutsGrow(env, s.files, ThreadOf(s, step.t), step); }
  }

  lemma {:induction false} RunShape(env: Env, legacy: File, steps: seq<Step>)
    requires Legacy(legacy) && Exclusive(env, legacy, steps) && NoAnchorCalls(steps)
    ensures var f := Run(env, Start(legacy), steps).files; f.cuts == {} ==> FilesShaped(f)
  {
    if steps == [] {
      LegacyHasNoChain(legacy);
    } else {
      var before := steps[..|steps| - 1];
      var s, step := Run(env, Start(legacy), before), steps[|steps| - 1];
      ExclusiveBefore(env, legacy, steps);
      RunShape(env, legacy, before);
      RunKeepsInv(env, legacy, before);
      RunKeepsCuts(env, legacy, before);
      CutsStay(env, s, step);
      if s.files.cuts == {} { ShapeStep(env, legacy, s, step); }
    }
  }

  /** The log of a run in which no rotation was cut short and none is going on. */
  lemma {:induction false} RunsLeaveChainedLogs(env: Env, legacy: File, steps: seq<Step>)
    requires Legacy(legacy) && Exclusive(env, legacy, steps) && NoAnchorCalls(steps)
    requires var f := Run(env, Start(legacy), steps).files; f.cuts == {} && f.current.Some?
    ensures var f := Run(env, Start(legacy), steps).files; ChainedLog(env.h, LogFiles(f.rotated, f.current))
  {
    var f := Run(env, Start(legacy), steps).files;
    RunShape(env, legacy, steps);
    RunKeepsInv(env, legacy, steps);
    FilesAreChained(env.h, env.run, f.rotated, f.current.value);
  }

  /** File `n` of a log, counted from 1, the current one last. */
  function FileNumber(rotated: map<nat, File>, current: File, n: nat): File {
    if n in rotated then rotated[n] else current
  }

  lemma {:induction false} NextFileCarries(h: Hash, run: string, rotated: map<nat, File>, current: File, n: nat)
    requires Numbered(rotated) && Anchored(h, run, rotated, Some(current), {}) && n in rotated
    requires Good(h, rotated[n])
    ensures Carries(rotated[n], FileNumber(rotated, current, n + 1))
  {
    assert JoinedAt(h, run, rotated, n);
    if n + 1 !in rotated { assert n == |rotated|; }
    AnchorCarriesHead(h, run, n, rotated[n], FileNumber(rotated, current, n + 1));
  }

  lemma {:induction false} FilesAreChained(h: Hash, run: string, rotated: map<nat, File>, current: File)
    requires Numbered(rotated) && Anchored(h, run, rotated, Some(current), {})
    requires forall n :: n in rotated ==> Good(h, rotated[n]) && Shaped(ChainedRows(rotated[n]), n > 1)
    requires Good(h, current) && Shaped(ChainedRows(current), |rotated| > 0)
    ensures ChainedLog(h, LogFiles(rotated, Some(current)))
  {
    var files := LogFiles(rotated, Some(current));
    FilesByNumber(rotated, current);
    forall k | 0 <= k < |files| ensures ChainHolds(h, files[k]) && Shaped(ChainedRows(files[k]), k > 0) {
      FileIsGood(h, rotated, current, k + 1);
    }
    assert EachVerifies(h, files) && AllShaped(files);
    forall k, l | 0 <= k && l == k + 1 && l < |files| ensures Carries(files[k], files[l]) {
      FileIsGood(h, rotated, current, l);
      NextFileCarries(h, run, rotated, current, l);
    }
    assert AllCarry(files);
  }

  lemma {:induction false} FileIsGood(h: Hash, rotated: map<nat, File>, current: File, n: nat)
    requires Numbered(rotated) && 1 <= n <= |rotated| + 1
    requires forall n :: n in rotated ==> Good(h, rotated[n]) && Shaped(ChainedRows(rotated[n]), n > 1)
    requires Good(h, current) && Shaped(ChainedRows(current), |rotated| > 0)
    ensures var f := FileNumber(rotated, current, n); Good(h, f) && Shaped(ChainedRows(f), n > 1)
  {}

  lemma {:induction false} FilesByNumber(rotated: map<nat, File>, current: File)
    requires Numbered(rotated)
    ensures var files := LogFiles(rotated, Some(current));
            |files| == |rotated| + 1 && forall k :: 0 <= k < |files| ==> files[k] == FileNumber(rotated, current, k + 1)
  {
    FilesAt(rotated, |rotated|);
  }

  lemma {:induction false} FilesAt(rotated: map<nat, File>, k: nat)
    requires Numbered(rotated) && k <= |rotated|
    ensures |RotatedFiles(rotated, k)| == k
    ensures forall i :: 0 <= i < k ==> RotatedFiles(rotated, k)[i] == rotated[i + 1]
  {
    if k > 0 { FilesAt(rotated, k - 1); }
  }

  /**
   Take any log produced by any interleaving, and any other log whose files each verify and that ends in the same
   newest digest. The other log has the same files with the same chained rows if and only if its anchors are where
   rotations put them and each carries the head of the file before it.
   */
  lemma HeadVouchesForRun(env: Env, legacy: File, steps: seq<Step>, other: seq<File>)
    requires Injective(env.h) && NeverGenesis(env.h)
    requires Legacy(legacy) && Exclusive(env, legacy, steps) && NoAnchorCalls(steps)
    requires var f := Run(env, Start(legacy), steps).files; f.cuts == {} && f.current.Some?
    requires other != [] && EachVerifies(env.h, other)
    requires Newest(other) == HeadOf(Run(env, Start(legacy), steps).files.current.value).hash
    ensures var f := Run(env, Start(legacy), steps).files;
            SameRows(LogFiles(f.rotated, f.current), other) <==> AllShaped(other) && AllCarry(other)
  {
    var f := Run(env, Start(legacy), steps).files;
    RunsLeaveChainedLogs(env, legacy, steps);
    var files := LogFiles(f.rotated, f.current);
    HeadMeans(f.current.value);
    assert files[|files| - 1] == f.current.value;
    HeadFixesLogIff(env.h, files, other);
  }
}
