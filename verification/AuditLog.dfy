/**
 Appending to the log of one run: finding the head of the chain, writing the next row, rotating a
 full file, listing and reading the files back.
 */
module AuditLog {
  import opened Basics
  import opened AuditRows

  // ---------------------------------------------------------------- the head of a chain

  /** The head found by walking a file: last sequence number, last digest, entries counted. */
  datatype Head = Head(seqNo: int, hash: string, count: nat)

  const FRESH := Head(0, GENESIS, 0)

  function Advance(t: Head, l: Line): Head {
    match l
    case Blank => t
    case Invalid => t.(count := t.count + 1)
    case NonObject => t.(count := t.count + 1)
    case Object(r) =>
      if IsChained(r) then Head(r.seqNo.value, r.entryHash.value, t.count + 1)
      else Head(Max(t.seqNo, t.count + 1), t.hash, t.count + 1)
  }

  function HeadOf(f: File): Head {
    if f == [] then FRESH else Advance(HeadOf(f[..|f| - 1]), f[|f| - 1])
  }

  method TailChain(file: Option<File>) returns (seqNo: int, hash: string)
    ensures file.None? ==> seqNo == 0 && hash == GENESIS
    ensures file.Some? ==> seqNo == HeadOf(file.value).seqNo && hash == HeadOf(file.value).hash
  {
    seqNo, hash := 0, GENESIS;
    if file.None? { return; }
    var f, count, k := file.value, 0, 0;
    while k < |f|
      invariant 0 <= k <= |f|
      invariant HeadOf(f[..k]) == Head(seqNo, hash, count)
    {
      assert f[..k + 1][..k] == f[..k];
      match f[k] {
        case Blank =>
        case Invalid => count := count + 1;
        case NonObject => count := count + 1;
        case Object(row) =>
          count := count + 1;
          if IsChained(row) {
            seqNo, hash := row.seqNo.value, row.entryHash.value;
          } else {
            seqNo := Max(seqNo, count);
          }
      }
      k := k + 1;
    }
    assert f[..k] == f;
  }

  /** The number of the last unchained entry that comes after a chained one, 0 when there is none. */
  function LateUnchained(f: File): nat {
    if f == [] || ChainedRows(f) == [] then 0 else
    var rest, l := f[..|f| - 1], f[|f| - 1];
    if l.Object? && IsChained(l.row) then 0
    else if l.Object? then |Entries(f)|
    else LateUnchained(rest)
  }

  /**
   The digest found is that of the last chained row; the number found may be pushed up by unchained rows behind it.
   */
  lemma {:induction false} HeadMeans(f: File)
    ensures HeadOf(f).count == |Entries(f)| && LateUnchained(f) <= |Entries(f)|
    ensures var cs := ChainedRows(f);
            && (cs == [] ==> HeadOf(f).hash == GENESIS && HeadOf(f).seqNo >= 0)
            && (cs != [] ==>
                  var last, late := cs[|cs| - 1], LateUnchained(f);
                  && HeadOf(f).hash == last.entryHash.value
                  && HeadOf(f).seqNo == if late == 0 then last.seqNo.value else Max(last.seqNo.value, late))
  {
    if f != [] {
      HeadMeans(f[..|f| - 1]);
    }
  }

  // ---------------------------------------------------------------- one appended row

  /** The row written for an event: the event with its chain keys, whatever the event itself put there. */
  function NewRow(h: Hash, event: Payload, head: Head): Row {
    Seal(h, Row(event, Some(head.seqNo + 1), Some(head.hash), None))
  }

  function Appended(h: Hash, f: File, event: Payload): File {
    f + [Object(NewRow(h, event, HeadOf(f)))]
  }

  /** A row made for this head attaches to these chained rows. */
  predicate Attaches(cs: seq<Chained>, event: Payload, head: Head) {
    if cs == [] then IsAnchorEvent(event) || head.hash == GENESIS
    else
      var last := cs[|cs| - 1];
      head.hash == last.entryHash.value && (last.seqNo.value == 0 || head.seqNo == last.seqNo.value)
  }

  /** Writing a row made for some head keeps an intact file intact exactly when the row attaches. */
  lemma {:induction false} WriteKeepsChainIff(h: Hash, f: File, event: Payload, head: Head)
    requires ChainHolds(h, f)
    ensures ChainHolds(h, f + [Object(NewRow(h, event, head))]) <==> Attaches(ChainedRows(f), event, head)
  {
    var g := f + [Object(NewRow(h, event, head))];
    assert g[..|f|] == f && g[..|f| + 1] == g;
    BrokenNext(h, g, |f|);
  }

  /**
   Appending keeps an intact file intact exactly when the head number is the last chained number, that is,
   when there is no chained row yet, or the last one is numbered 0, or no unchained row behind it has an
   entry number above it.
   */
  lemma {:induction false} AppendKeepsChainIff(h: Hash, f: File, event: Payload)
    requires ChainHolds(h, f)
    ensures var cs := ChainedRows(f);
            ChainHolds(h, Appended(h, f, event)) <==>
            cs == [] || cs[|cs| - 1].seqNo.value == 0 || LateUnchained(f) <= Max(0, cs[|cs| - 1].seqNo.value)
  {
    HeadMeans(f);
    WriteKeepsChainIff(h, f, event, HeadOf(f));
  }

  /** The file the append protocol itself produces: unchained rows, if any, come before all chained ones. */
  ghost predicate Good(h: Hash, f: File) {
    ChainHolds(h, f) && LateUnchained(f) == 0
  }

  lemma {:induction false} AppendKeepsGood(h: Hash, f: File, event: Payload)
    requires Good(h, f)
    ensures Good(h, Appended(h, f, event))
    ensures ChainedRows(Appended(h, f, event)) == ChainedRows(f) + [NewRow(h, event, HeadOf(f))]
  {
    AppendKeepsChainIff(h, f, event);
    assert Appended(h, f, event)[..|f|] == f;
  }

  /** A file of unchained and blank lines only, as it was before rows were chained. */
  predicate Legacy(f: File) {
    forall k :: 0 <= k < |f| ==> f[k].Blank? || IsUnchainedLine(f[k])
  }

  lemma {:induction false} LegacyHasNoChain(f: File)
    requires Legacy(f)
    ensures ChainedRows(f) == []
  {
    if f != [] { LegacyHasNoChain(f[..|f| - 1]); }
  }

  lemma {:induction false} LegacyIsGood(h: Hash, f: File)
    requires Legacy(f)
    ensures Good(h, f)
  {
    LegacyHasNoChain(f);
  }

  /** An unchained row behind a chained one: the file is intact, and one append breaks it. */
  lemma {:induction false} AppendCanBreakChain(h: Hash, event: Payload)
    ensures exists f: File :: ChainHolds(h, f) && !ChainHolds(h, Appended(h, f, event))
  {
    var first := NewRow(h, event, FRESH);
    var plain := Row(event, None, None, None);
    var f := [Object(first), Object(plain)];
    assert f[..1] == [Object(first)] && f[..1][..0] == [];
    assert ChainedRows(f[..1]) == [first];
    assert ChainedRows(f) == [first];
    assert Entries(f[..1]) == [Object(first)];
    assert LateUnchained(f) == 2;
    assert ChainHolds(h, f);
    AppendKeepsChainIff(h, f, event);
  }

  // ---------------------------------------------------------------- reading events back

  /** What callers handed in: the objects of a file in order, without their chain keys. */
  function EventsOf(f: File): seq<Payload> {
    if f == [] then [] else
    var rest, l := EventsOf(f[..|f| - 1]), f[|f| - 1];
    if l.Object? then rest + [l.row.data] else rest
  }

  /** The events that are not rotation anchors, in order. */
  function OwnEvents(es: seq<Payload>): seq<Payload> {
    if es == [] then [] else
    var rest, e := OwnEvents(es[..|es| - 1]), es[|es| - 1];
    if IsAnchorEvent(e) then rest else rest + [e]
  }

  lemma {:induction false} OwnEventsConcat(a: seq<Payload>, b: seq<Payload>)
    ensures OwnEvents(a + b) == OwnEvents(a) + OwnEvents(b)
  {
    if b == [] {
      assert a + b == a;
    } else {
      assert (a + b)[..|a + b| - 1] == a + b[..|b| - 1];
      OwnEventsConcat(a, b[..|b| - 1]);
    }
  }

  // ---------------------------------------------------------------- files of one run

  /** The anchor that opens the file after `n`, whose chain ended at `head`. */
  function AnchorRow(h: Hash, run: string, n: nat, head: Head, ts: string): Row {
    Seal(h, Row(map["event" := Text(ANCHOR), "run_id" := Text(run), "prev_file" := FileRef(n),
                    "prev_seq" := Number(head.seqNo), "ts" := Text(ts)],
                Some(1), Some(head.hash), None))
  }

  /** Rotated files are numbered from 1 without gaps. */
  ghost predicate Numbered(rotated: map<nat, File>) {
    forall n :: n in rotated <==> 1 <= n <= |rotated|
  }

  /** Every event of the first `k` rotated files, oldest first. */
  function RotatedEvents(rotated: map<nat, File>, k: nat): seq<Payload> {
    if k == 0 then [] else
    RotatedEvents(rotated, k - 1) + (if k in rotated then EventsOf(rotated[k]) else [])
  }

  function CurrentEvents(current: Option<File>): seq<Payload> {
    if current.Some? then EventsOf(current.value) else []
  }

  lemma {:induction false} RotatedEventsFrame(rotated: map<nat, File>, n: nat, f: File, k: nat)
    requires k < n
    ensures RotatedEvents(rotated[n := f], k) == RotatedEvents(rotated, k)
  {
    if k > 0 { RotatedEventsFrame(rotated, n, f, k - 1); }
  }

  /** File `n + 1` opens with the anchor that names file `n` and the head its chain ended at. */
  ghost predicate Continues(h: Hash, run: string, n: nat, before: File, after: File) {
    exists ts: string :: |after| > 0 && after[0] == Object(AnchorRow(h, run, n, HeadOf(before), ts))
  }

  /** Rotated file `n + 1`, if there is one, continues rotated file `n`. */
  ghost predicate JoinedAt(h: Hash, run: string, rotated: map<nat, File>, n: nat) {
    n in rotated && n + 1 in rotated ==> Continues(h, run, n, rotated[n], rotated[n + 1])
  }

  /** Every file after the first one continues the file before it, except behind the files numbered in `cuts`. */
  ghost predicate Anchored(h: Hash, run: string, rotated: map<nat, File>, current: Option<File>, cuts: set<nat>) {
    && (forall n :: n !in cuts ==> JoinedAt(h, run, rotated, n))
    && (current.Some? && |rotated| in rotated && |rotated| !in cuts ==>
          Continues(h, run, |rotated|, rotated[|rotated|], current.value))
  }

  lemma {:induction false} AnchorFileIsGood(h: Hash, run: string, n: nat, head: Head, ts: string)
    ensures var f := [Object(AnchorRow(h, run, n, head, ts))];
            Good(h, f) && EventsOf(f) == [AnchorRow(h, run, n, head, ts).data] && OwnEvents(EventsOf(f)) == []
  {
    var a := AnchorRow(h, run, n, head, ts);
    var f := [Object(a)];
    assert f[..0] == [];
    assert ChainedRows(f) == [a];
  }

  /** What holds of the files of a run between two appends. */
  ghost predicate LogSound(h: Hash, run: string, rotated: map<nat, File>, current: Option<File>) {
    && Numbered(rotated)
    && (forall n :: n in rotated ==> Good(h, rotated[n]))
    && (current.Some? ==> Good(h, current.value))
    && Anchored(h, run, rotated, current, {})
    && (|rotated| > 0 ==> current.Some?)
  }

  /** Everything a reader sees, oldest first. */
  function LogEvents(rotated: map<nat, File>, current: Option<File>): seq<Payload> {
    RotatedEvents(rotated, |rotated|) + CurrentEvents(current)
  }

  function RotatedFiles(rotated: map<nat, File>, k: nat): seq<File> {
    if k == 0 then [] else
    RotatedFiles(rotated, k - 1) + (if k in rotated then [rotated[k]] else [])
  }

  /** The files of the run, oldest first. */
  function LogFiles(rotated: map<nat, File>, current: Option<File>): seq<File> {
    RotatedFiles(rotated, |rotated|) + (if current.Some? then [current.value] else [])
  }

  /** The file a rotation starts. */
  function Begun(h: Hash, run: string, n: nat, full: File, ts: string): File {
    [Object(AnchorRow(h, run, n, HeadOf(full), ts))]
  }

  /** What the row that begins a file says: which run and which file it continues, and where that file ended. */
  lemma BegunSays(h: Hash, run: string, n: nat, full: File, ts: string)
    ensures var begun := Begun(h, run, n, full, ts);
            && |begun| == 1 && begun[0].Object?
            && var row, cs := begun[0].row, ChainedRows(full);
               && row.data == map["event" := Text("chain_anchor"), "run_id" := Text(run), "prev_file" := FileRef(n),
                                  "prev_seq" := Number(HeadOf(full).seqNo), "ts" := Text(ts)]
               && row.seqNo == Some(1) && row.entryHash == Some(h(row.(entryHash := None)))
               && row.prevHash == (if cs == [] then Some(GENESIS) else cs[|cs| - 1].entryHash)
  {
    HeadMeans(full);
  }

  lemma {:induction false} NextNumber(rotated: map<nat, File>, n: nat)
    requires Numbered(rotated)
    requires 1 <= n && n !in rotated && forall m :: 1 <= m < n ==> m in rotated
    ensures n == |rotated| + 1
  {
    assert |rotated| + 1 !in rotated;
  }

  /** The anchoring of a rotated log, one file at a time. */
  lemma {:induction false} RotationKeepsAnchored(
    h: Hash, run: string, rotated: map<nat, File>, f: File, begun: File)
    requires Numbered(rotated) && Anchored(h, run, rotated, Some(f), {})
    requires Continues(h, run, |rotated| + 1, f, begun)
    ensures Numbered(rotated[|rotated| + 1 := f]) && Anchored(h, run, rotated[|rotated| + 1 := f], Some(begun), {})
  {
    var n := |rotated| + 1;
    var rotated' := rotated[n := f];
    assert n !in rotated && |rotated'| == n;
    forall m ensures JoinedAt(h, run, rotated', m) {
      assert JoinedAt(h, run, rotated, m);
    }
  }

  lemma {:induction false} RotationKeepsEvents(rotated: map<nat, File>, f: File, begun: File)
    requires Numbered(rotated) && OwnEvents(EventsOf(begun)) == []
    ensures OwnEvents(LogEvents(rotated[|rotated| + 1 := f], Some(begun))) == OwnEvents(LogEvents(rotated, Some(f)))
  {
    var n := |rotated| + 1;
    assert n !in rotated && |rotated[n := f]| == n;
    RotatedEventsFrame(rotated, n, f, |rotated|);
    OwnEventsConcat(LogEvents(rotated, Some(f)), EventsOf(begun));
  }

  lemma {:induction false} RotationKeepsSound(
    h: Hash, run: string, rotated: map<nat, File>, f: File, ts: string)
    requires LogSound(h, run, rotated, Some(f))
    ensures var n := |rotated| + 1;
            var begun := Begun(h, run, n, f, ts);
            && n !in rotated
            && LogSound(h, run, rotated[n := f], Some(begun))
            && OwnEvents(LogEvents(rotated[n := f], Some(begun))) == OwnEvents(LogEvents(rotated, Some(f)))
  {
    var n := |rotated| + 1;
    var begun := Begun(h, run, n, f, ts);
    AnchorFileIsGood(h, run, n, HeadOf(f), ts);
    assert Continues(h, run, n, f, begun);
    RotationKeepsAnchored(h, run, rotated, f, begun);
    RotationKeepsEvents(rotated, f, begun);
    assert n !in rotated;
  }

  lemma {:induction false} AppendKeepsSound(
    h: Hash, run: string, rotated: map<nat, File>, current: Option<File>, event: Payload)
    requires LogSound(h, run, rotated, current)
    ensures var f := Appended(h, if current.Some? then current.value else [], event);
            && LogSound(h, run, rotated, Some(f))
            && LogEvents(rotated, Some(f)) == LogEvents(rotated, current) + [event]
  {
    var before := if current.Some? then current.value else [];
    var f := Appended(h, before, event);
    LegacyIsGood(h, []);
    AppendKeepsGood(h, before, event);
    AppendKeepsContinues(h, run, rotated, before, f);
    AppendedEvents(h, rotated, current, event);
  }

  lemma {:induction false} AppendedEvents(h: Hash, rotated: map<nat, File>, current: Option<File>, event: Payload)
    ensures LogEvents(rotated, Some(Appended(h, if current.Some? then current.value else [], event)))
         == LogEvents(rotated, current) + [event]
  {
    var before := if current.Some? then current.value else [];
    var f := Appended(h, before, event);
    assert f[..|before|] == before;
    assert EventsOf(f) == EventsOf(before) + [event];
    assert CurrentEvents(current) == EventsOf(before);
  }

  lemma {:induction false} AppendKeepsContinues(h: Hash, run: string, rotated: map<nat, File>, before: File, f: File)
    requires before <= f
    ensures forall n :: n in rotated && Continues(h, run, n, rotated[n], before) ==> Continues(h, run, n, rotated[n], f)
  {
    forall n | n in rotated && Continues(h, run, n, rotated[n], before) ensures Continues(h, run, n, rotated[n], f) {
      var ts: string :| |before| > 0 && before[0] == Object(AnchorRow(h, run, n, HeadOf(rotated[n]), ts));
      assert f[0] == before[0];
    }
  }

  /** An event without a time gets the current one. */
  function WithTimestamp(event: Payload, now: string): Payload {
    if "ts" in event then event else event["ts" := Text(now)]
  }

  /**
   The payload of a row bears an event: every key with the caller's value, the time `now` exactly if the event had none,
   and no other key.
   */
  predicate Bears(data: Payload, event: Payload, now: string) {
    && (forall k :: k in event ==> k in data && data[k] == event[k])
    && ("ts" !in event ==> "ts" in data && data["ts"] == Text(now))
    && (forall k :: k in data ==> k in event || k == "ts")
  }

  lemma TimestampBears(event: Payload, now: string)
    ensures Bears(WithTimestamp(event, now), event, now)
  {}

  /** The files after one append: rotated first when the file is full, then one row longer. */
  function AfterAppend(
    h: Hash, size: File -> nat, run: string, rotated: map<nat, File>, current: Option<File>,
    payload: Payload, rotateBytes: int, ts: string): (map<nat, File>, File)
  {
    if current.None? then (rotated, Appended(h, [], payload))
    else if rotateBytes > 0 && size(current.value) >= rotateBytes then
      var n := |rotated| + 1;
      (rotated[n := current.value], Appended(h, Begun(h, run, n, current.value, ts), payload))
    else (rotated, Appended(h, current.value, payload))
  }

  /**
   Where the row goes: at the end of the current file, which starts empty when it is missing; and when that file has
   reached a positive limit, it becomes the next numbered one and the row comes second in a new file.
   */
  lemma AppendPlaces(
    h: Hash, size: File -> nat, run: string, rotated: map<nat, File>, current: Option<File>,
    payload: Payload, rotateBytes: int, ts: string)
    ensures var (rotated', f) := AfterAppend(h, size, run, rotated, current, payload, rotateBytes, ts);
            && f != [] && f[|f| - 1].Object? && f[|f| - 1].row.data == payload
            && if current.Some? && 0 < rotateBytes <= size(current.value)
               then rotated' == rotated[|rotated| + 1 := current.value] && |f| == 2
               else rotated' == rotated && f[..|f| - 1] == if current.Some? then current.value else []
  {
    var f := AfterAppend(h, size, run, rotated, current, payload, rotateBytes, ts).1;
    assert current.None? ==> f[..|f| - 1] == [];
    assert current.Some? && !(0 < rotateBytes <= size(current.value)) ==> f[..|f| - 1] == current.value;
  }

  // ---------------------------------------------------------------- rows read back

  /** The objects of a file in order, chain keys included. */
  function RowsOf(f: File): seq<Row> {
    if f == [] then [] else
    var rest, l := RowsOf(f[..|f| - 1]), f[|f| - 1];
    if l.Object? then rest + [l.row] else rest
  }

  /** Rows without their chain keys. */
  function DataOf(rows: seq<Row>): seq<Payload> {
    if rows == [] then [] else DataOf(rows[..|rows| - 1]) + [rows[|rows| - 1].data]
  }

  function Concatenated(files: seq<File>): seq<Row> {
    if files == [] then [] else Concatenated(files[..|files| - 1]) + RowsOf(files[|files| - 1])
  }

  lemma {:induction false} DataConcat(a: seq<Row>, b: seq<Row>)
    ensures DataOf(a + b) == DataOf(a) + DataOf(b)
  {
    if b == [] {
      assert a + b == a;
    } else {
      assert (a + b)[..|a + b| - 1] == a + b[..|b| - 1];
      DataConcat(a, b[..|b| - 1]);
    }
  }

  lemma {:induction false} EventsAreData(f: File)
    ensures EventsOf(f) == DataOf(RowsOf(f))
  {
    if f != [] {
      var rest, l := f[..|f| - 1], f[|f| - 1];
      EventsAreData(rest);
      if l.Object? { assert (RowsOf(rest) + [l.row])[..|RowsOf(rest)|] == RowsOf(rest); }
    }
  }

  lemma {:induction false} ConcatenatedSnoc(files: seq<File>, f: File)
    ensures DataOf(Concatenated(files + [f])) == DataOf(Concatenated(files)) + EventsOf(f)
  {
    assert (files + [f])[..|files|] == files;
    DataConcat(Concatenated(files), RowsOf(f));
    EventsAreData(f);
  }

  lemma {:induction false} RotatedFilesEvents(rotated: map<nat, File>, k: nat)
    ensures DataOf(Concatenated(RotatedFiles(rotated, k))) == RotatedEvents(rotated, k)
  {
    if k > 0 {
      RotatedFilesEvents(rotated, k - 1);
      if k in rotated {
        ConcatenatedSnoc(RotatedFiles(rotated, k - 1), rotated[k]);
      } else {
        assert RotatedFiles(rotated, k) == RotatedFiles(rotated, k - 1);
      }
    }
  }

  /** Listing the files and reading them one after the other yields the events in order. */
  lemma {:induction false} ListedEvents(rotated: map<nat, File>, current: Option<File>)
    ensures DataOf(Concatenated(LogFiles(rotated, current))) == LogEvents(rotated, current)
  {
    RotatedFilesEvents(rotated, |rotated|);
    if current.Some? {
      ConcatenatedSnoc(RotatedFiles(rotated, |rotated|), current.value);
    } else {
      assert LogFiles(rotated, current) == RotatedFiles(rotated, |rotated|);
    }
  }

  /** The files end with an object: the last line of the newest one. */
  predicate EndsWith(files: seq<File>, row: Row) {
    files != [] && var f := files[|files| - 1]; f != [] && f[|f| - 1] == Object(row)
  }

  /** The newest file ends with a row for the event, which is the last one of all files. */
  predicate NewestEnds(rotated: map<nat, File>, current: Option<File>, event: Payload, now: string) {
    && current.Some? && current.value != []
    && var l := current.value[|current.value| - 1];
       l.Object? && Bears(l.row.data, event, now) && EndsWith(LogFiles(rotated, current), l.row)
  }

  lemma AppendedEnds(h: Hash, rotated: map<nat, File>, before: File, event: Payload, now: string)
    ensures NewestEnds(rotated, Some(Appended(h, before, WithTimestamp(event, now))), event, now)
  {
    TimestampBears(event, now);
  }

  /** What the newest file ends with is read last. */
  lemma LastRowRead(files: seq<File>)
    ensures forall row :: EndsWith(files, row) ==>
              Concatenated(files) != [] && Concatenated(files)[|Concatenated(files)| - 1] == row
  {}

  lemma {:induction false} RowsCount(f: File)
    ensures |RowsOf(f)| == |set k | 0 <= k < |f| && f[k].Object?|
  {
    if f != [] {
      var init := f[..|f| - 1];
      RowsCount(init);
      var before := set k | 0 <= k < |init| && init[k].Object?;
      assert (set k | 0 <= k < |f| && f[k].Object?) == before + if f[|f| - 1].Object? then {|init|} else {};
    }
  }

  /** Every object of a file is read, at the place given by the number of objects in front of it. */
  lemma {:induction false} ObjectIsRead(f: File, k: nat)
    requires k < |f| && f[k].Object?
    ensures |RowsOf(f[..k])| < |RowsOf(f)| && RowsOf(f)[|RowsOf(f[..k])|] == f[k].row
    decreases |f|
  {
    var init := f[..|f| - 1];
    if k < |init| {
      ObjectIsRead(init, k);
      assert init[..k] == f[..k];
    } else {
      assert f[..k] == init;
    }
  }

  /** Every file is read, behind the rows of the files in front of it. */
  lemma {:induction false} FileIsRead(files: seq<File>, k: nat)
    requires k < |files|
    ensures Concatenated(files[..k]) + RowsOf(files[k]) <= Concatenated(files)
    decreases |files|
  {
    var init := files[..|files| - 1];
    if k < |init| {
      FileIsRead(init, k);
      assert init[..k] == files[..k];
    } else {
      assert files[..k] == init;
    }
  }

  method ReadFileEvents(f: File) returns (rows: seq<Row>)
    ensures rows == RowsOf(f)
  {
    rows := [];
    for k := 0 to |f|
      invariant rows == RowsOf(f[..k])
    {
      assert f[..k + 1][..k] == f[..k];
      if f[k].Object? { rows := rows + [f[k].row]; }
    }
    assert f[..|f|] == f;
  }

  // ---------------------------------------------------------------- the program

  /** The log of one run: its rotated files and the file being written. */
  class RunLog {
    const h: Hash
    const size: File -> nat
    const run: string
    var rotated: map<nat, File>
    var current: Option<File>

    ghost predicate Valid()
      reads this
    {
      LogSound(h, run, rotated, current)
    }

    /** What a reader sees, rotation anchors left aside. */
    ghost function Contents(): seq<Payload>
      reads this
    {
      OwnEvents(LogEvents(rotated, current))
    }

    /** The log of a run that has only rows from before chaining, or nothing at all. */
    constructor (h: Hash, size: File -> nat, run: string, legacy: File)
      requires Legacy(legacy)
      ensures Valid() && Contents() == OwnEvents(EventsOf(legacy))
      ensures this.h == h && this.size == size && this.run == run
    {
      this.h, this.size, this.run := h, size, run;
      rotated, current := map[], if legacy == [] then None else Some(legacy);
      new;
      LegacyIsGood(h, legacy);
      assert LogEvents(rotated, current) == EventsOf(legacy);
    }

    /** The first number not taken by a rotated file. */
    method FirstFree() returns (n: nat)
      ensures 1 <= n && n !in rotated && forall m :: 1 <= m < n ==> m in rotated
    {
      n := 1;
      ghost var left := rotated.Keys;
      while n in rotated
        invariant 1 <= n && forall m :: 1 <= m < n ==> m in rotated
        invariant forall m :: m in rotated && n <= m ==> m in left
        decreases left
      {
        left := left - {n};
        n := n + 1;
      }
    }

    method RotateIfNeeded(rotateBytes: nat, ts: string)
      requires Valid()
      modifies this`rotated, this`current
      ensures Valid() && Contents() == old(Contents())
      ensures if old(current.Some? && size(current.value) >= rotateBytes)
              then var n := old(|rotated|) + 1;
                   && rotated == old(rotated)[n := old(current.value)]
                   && current == Some(Begun(h, run, n, old(current.value), ts))
              else rotated == old(rotated) && current == old(current)
    {
      if current.None? || size(current.value) < rotateBytes { return; }
      var dest := FirstFree();
      NextNumber(rotated, dest);
      RotationKeepsSound(h, run, rotated, current.value, ts);
      var lastSeq, lastHash := TailChain(current);
      rotated, current := rotated[dest := current.value], None;
      var anchor := Row(map["event" := Text(ANCHOR), "run_id" := Text(run), "prev_file" := FileRef(dest),
                            "prev_seq" := Number(lastSeq), "ts" := Text(ts)],
                        Some(1), Some(lastHash), None);
      anchor := anchor.(entryHash := Some(EntryHash(h, anchor)));
      current := Some([Object(anchor)]);
    }

    /** Append one event under the file's lock. */
    method Append(event: Payload, rotateBytes: int, now: string)
      requires Valid()
      modifies this`rotated, this`current
      ensures Valid()
      ensures Contents() == old(Contents()) + OwnEvents([WithTimestamp(event, now)])
      ensures current.Some?
      ensures (rotated, current.value) ==
              AfterAppend(h, size, run, old(rotated), old(current), WithTimestamp(event, now), rotateBytes, now)
      ensures NewestEnds(rotated, current, event, now)
    {
      if rotateBytes > 0 { RotateIfNeeded(rotateBytes, now); }
      ghost var before := if current.Some? then current.value else [];
      WriteRow(WithTimestamp(event, now));
      AppendedEnds(h, rotated, before, event, now);
    }

    method WriteRow(payload: Payload)
      requires Valid()
      modifies this`current
      ensures Valid() && Contents() == old(Contents()) + OwnEvents([payload])
      ensures current == Some(Appended(h, if old(current.Some?) then old(current.value) else [], payload))
    {
      AppendKeepsSound(h, run, rotated, current, payload);
      OwnEventsConcat(LogEvents(rotated, current), [payload]);
      var row := NextRow(payload);
      current := Some((if current.Some? then current.value else []) + [Object(row)]);
    }

    /** The row to write after those of the current file. */
    method NextRow(payload: Payload) returns (row: Row)
      ensures row == NewRow(h, payload, HeadOf(if current.Some? then current.value else []))
    {
      var seqNo, prevHash := TailChain(current);
      row := Row(payload, Some(seqNo + 1), Some(prevHash), None);
      row := row.(entryHash := Some(EntryHash(h, row)));
    }

    method ListFiles() returns (files: seq<File>)
      requires Valid()
      ensures files == LogFiles(rotated, current)
    {
      files := [];
      var n := 1;
      while n in rotated
        invariant 1 <= n <= |rotated| + 1 && files == RotatedFiles(rotated, n - 1)
        decreases |rotated| - n
      {
        files := files + [rotated[n]];
        n := n + 1;
      }
      if current.Some? { files := files + [current.value]; }
    }

    method ReadEvents() returns (rows: seq<Row>)
      requires Valid()
      ensures rows == Concatenated(LogFiles(rotated, current)) && DataOf(rows) == LogEvents(rotated, current)
      ensures OwnEvents(DataOf(rows)) == Contents()
      ensures forall row :: EndsWith(LogFiles(rotated, current), row) ==> rows != [] && rows[|rows| - 1] == row
    {
      var files := ListFiles();
      rows := [];
      for k := 0 to |files|
        invariant rows == Concatenated(files[..k])
      {
        var more := ReadFileEvents(files[k]);
        assert files[..k + 1][..k] == files[..k];
        rows := rows + more;
      }
      assert files[..|files|] == files;
      ListedEvents(rotated, current);
      LastRowRead(files);
    }
  }
}
