/** The per-member and per-role figures of a team run. */
module MemberSpend {
  import opened Dictionaries

  /** What a member used, or the members of a role together. */
  datatype Consumption = Consumption(
    promptTokens: int, completionTokens: int, totalTokens: int, costMicros: int, toolCalls: int)
  {
    function Plus(b: Consumption): Consumption {
      Consumption(promptTokens + b.promptTokens, completionTokens + b.completionTokens, totalTokens + b.totalTokens,
                  costMicros + b.costMicros, toolCalls + b.toolCalls)
    }
  }

  const NOTHING := Consumption(0, 0, 0, 0, 0)

  datatype Quantity = PromptTokens | CompletionTokens | TotalTokens | CostMicros | ToolCalls

  function Of(f: Consumption, c: Quantity): int {
    match c
    case PromptTokens => f.promptTokens
    case CompletionTokens => f.completionTokens
    case TotalTokens => f.totalTokens
    case CostMicros => f.costMicros
    case ToolCalls => f.toolCalls
  }

  /** What the run's state says about one member, and about one team. */
  datatype Usage = Malformed | Used(role: string, figures: Consumption)
  datatype Team = Unreadable | Team(members: Dict<Usage>)

  datatype Payload = Payload(figures: Consumption, role: string, team: string)

  /** A readable row: a member of a team, and what the member used. */
  datatype Row = Row(team: string, member: string, role: string, figures: Consumption)
  {
    function Qualified(): string {
      team + ":" + member
    }

    function RoleName(): string {
      if role == "" then member else role
    }

    function Pay(): Payload {
      Payload(figures, RoleName(), team)
    }
  }

  // ---------------------------------------------------------------- the rows

  function RowsOf(team: string, members: Dict<Usage>): seq<Row> {
    if members == [] then [] else
    var before, (who, used) := RowsOf(team, members[..|members| - 1]), members[|members| - 1];
    if used.Malformed? then before else before + [Row(team, who, used.role, used.figures)]
  }

  function Rows(teams: Dict<Team>): seq<Row> {
    if teams == [] then [] else
    var before, (name, team) := Rows(teams[..|teams| - 1]), teams[|teams| - 1];
    if team.Unreadable? then before else before + RowsOf(name, team.members)
  }

  /** A figure summed over the rows. */
  function SumRows(rows: seq<Row>, c: Quantity): int {
    if rows == [] then 0 else SumRows(rows[..|rows| - 1], c) + Of(rows[|rows| - 1].figures, c)
  }

  // ---------------------------------------------------------------- the two tables

  /** A member goes under the bare name if that is still free, and under the qualified one if not. */
  function KeyIn(d: Dict<Payload>, r: Row): string {
    if HasKey(d, r.member) then r.Qualified() else r.member
  }

  function ByMember(rows: seq<Row>): Dict<Payload> {
    if rows == [] then [] else
    var before, r := ByMember(rows[..|rows| - 1]), rows[|rows| - 1];
    Put(before, KeyIn(before, r), r.Pay())
  }

  function ByRole(rows: seq<Row>): Dict<Consumption> {
    if rows == [] then [] else
    var before, r := ByRole(rows[..|rows| - 1]), rows[|rows| - 1];
    Put(before, r.RoleName(), Get(before, r.RoleName(), NOTHING).Plus(r.figures))
  }

  function MemberTotal(d: Dict<Payload>, c: Quantity): int {
    SumOver(d, (p: Payload) => Of(p.figures, c))
  }

  function RoleTotal(d: Dict<Consumption>, c: Quantity): int {
    SumOver(d, (f: Consumption) => Of(f, c))
  }

  /** The figure summed over the rows of one role. */
  function SumOfRole(rows: seq<Row>, role: string, c: Quantity): int {
    if rows == [] then 0 else
    var before, r := SumOfRole(rows[..|rows| - 1], role, c), rows[|rows| - 1];
    if r.RoleName() == role then before + Of(r.figures, c) else before
  }

  /** Nothing is lost or counted twice in the table of roles, role by role and in all. */
  lemma {:induction false} RolesConserve(rows: seq<Row>, role: string, c: Quantity)
    ensures At(ByRole(rows), role, (f: Consumption) => Of(f, c)) == SumOfRole(rows, role, c)
    ensures RoleTotal(ByRole(rows), c) == SumRows(rows, c)
  {
    if rows != [] {
      var rest, r := rows[..|rows| - 1], rows[|rows| - 1];
      var w := (f: Consumption) => Of(f, c);
      var before, name := ByRole(rest), r.RoleName();
      var sum := Get(before, name, NOTHING).Plus(r.figures);
      RolesConserve(rest, role, c);
      GetMeasured(before, name, NOTHING, w);
      PutSums(before, name, sum, w);
      PutLooks(before, name, sum, w, role);
      assert Of(sum, c) == Of(Get(before, name, NOTHING), c) + Of(r.figures, c);
    }
  }

  /** Some row goes by this name: its bare one, or its qualified one because its bare one was taken before. */
  predicate Taken(rows: seq<Row>, name: string) {
    rows != [] &&
    var rest, r := rows[..|rows| - 1], rows[|rows| - 1];
    Taken(rest, name) || r.member == name || (r.Qualified() == name && Taken(rest, r.member))
  }

  /** The names that are keys of the table can be read off the rows. */
  lemma {:induction false} KeysAreTaken(rows: seq<Row>, name: string)
    ensures HasKey(ByMember(rows), name) <==> Taken(rows, name)
  {
    if rows != [] {
      var rest, r := rows[..|rows| - 1], rows[|rows| - 1];
      KeysAreTaken(rest, name);
      KeysAreTaken(rest, r.member);
      PutLooks(ByMember(rest), KeyIn(ByMember(rest), r), r.Pay(), _ => 0, name);
    }
  }

  /** Some row finds both its bare and its qualified name taken: an earlier member's figures are overwritten. */
  ghost predicate Overwrites(rows: seq<Row>) {
    exists k :: 0 <= k < |rows| && OverwritesAt(rows, k)
  }

  predicate OverwritesAt(rows: seq<Row>, k: nat)
    requires k < |rows|
  {
    Taken(rows[..k], rows[k].member) && Taken(rows[..k], rows[k].Qualified())
  }

  /** The last row opens a new key unless both its names are taken. */
  lemma {:induction false} LastKeyIsNew(rows: seq<Row>)
    requires rows != []
    ensures var rest, r := ByMember(rows[..|rows| - 1]), rows[|rows| - 1];
            HasKey(rest, KeyIn(rest, r)) <==> OverwritesAt(rows, |rows| - 1)
  {
    KeysAreTaken(rows[..|rows| - 1], rows[|rows| - 1].member);
    KeysAreTaken(rows[..|rows| - 1], rows[|rows| - 1].Qualified());
  }

  lemma OverwritesSnoc(rows: seq<Row>)
    requires rows != []
    ensures Overwrites(rows) <==> Overwrites(rows[..|rows| - 1]) || OverwritesAt(rows, |rows| - 1)
  {
    var rest := rows[..|rows| - 1];
    forall k | 0 <= k < |rest| ensures OverwritesAt(rest, k) <==> OverwritesAt(rows, k) {
      assert rest[..k] == rows[..k] && rest[k] == rows[k];
    }
    if k :| 0 <= k < |rest| && OverwritesAt(rest, k) {
      assert OverwritesAt(rows, k);
    }
  }

  /** Anything measured on what is recorded for a row, summed over the rows. */
  function SumPaid(rows: seq<Row>, w: Payload -> int): int {
    if rows == [] then 0 else SumPaid(rows[..|rows| - 1], w) + w(rows[|rows| - 1].Pay())
  }

  lemma {:induction false} SumPaidIsSumRows(rows: seq<Row>, c: Quantity)
    ensures SumPaid(rows, (p: Payload) => Of(p.figures, c)) == SumRows(rows, c)
  {
    if rows != [] { SumPaidIsSumRows(rows[..|rows| - 1], c); }
  }

  /** The table of members has at most one entry a row, and one for every row exactly when nothing is overwritten. */
  lemma {:induction false} MembersCount(rows: seq<Row>)
    ensures |ByMember(rows)| <= |rows|
    ensures |ByMember(rows)| == |rows| <==> !Overwrites(rows)
  {
    if rows != [] {
      var rest, r := rows[..|rows| - 1], rows[|rows| - 1];
      MembersCount(rest);
      OverwritesSnoc(rows);
      LastKeyIsNew(rows);
      PutSums(ByMember(rest), KeyIn(ByMember(rest), r), r.Pay(), p => 0);
    }
  }

  lemma {:induction false} MembersConserve(rows: seq<Row>, w: Payload -> int)
    requires !Overwrites(rows)
    ensures SumOver(ByMember(rows), w) == SumPaid(rows, w)
  {
    if rows != [] {
      var rest, r := rows[..|rows| - 1], rows[|rows| - 1];
      OverwritesSnoc(rows);
      LastKeyIsNew(rows);
      MembersConserve(rest, w);
      PutSums(ByMember(rest), KeyIn(ByMember(rest), r), r.Pay(), w);
    }
  }

  /** What counts every row once. */
  function One(): Payload -> int {
    (p: Payload) => 1
  }

  lemma {:induction false} OnesAreSizes(rows: seq<Row>, d: Dict<Payload>)
    ensures SumPaid(rows, One()) == |rows| && SumOver(d, One()) == |d|
    decreases |rows| + |d|
  {
    if rows != [] { OnesAreSizes(rows[..|rows| - 1], d); }
    if d != [] { OnesAreSizes(rows, d[1..]); }
  }

  /** The table of members agrees with the rows in every measure if and only if no row finds both its names taken. */
  lemma MembersConserveIff(rows: seq<Row>)
    ensures (forall w: Payload -> int :: SumOver(ByMember(rows), w) == SumPaid(rows, w)) <==> !Overwrites(rows)
    ensures |ByMember(rows)| == |rows| <==> !Overwrites(rows)
  {
    MembersCount(rows);
    if Overwrites(rows) {
      OnesAreSizes(rows, ByMember(rows));
      assert SumOver(ByMember(rows), One()) != SumPaid(rows, One());
    } else {
      forall w: Payload -> int ensures SumOver(ByMember(rows), w) == SumPaid(rows, w) {
        MembersConserve(rows, w);
      }
    }
  }

  // ---------------------------------------------------------------- member ids without a colon

  predicate Plain(s: string) {
    ':' !in s
  }

  lemma LastColonIsAt(a: string, m: string)
    requires Plain(m)
    ensures (a + ":" + m)[|a|] == ':'
    ensures forall i :: |a| < i < |a + ":" + m| ==> (a + ":" + m)[i] != ':'
  {}

  /** A text splits at its last colon in one way only. */
  lemma LastColonSplits(a: string, m: string, b: string, n: string)
    requires Plain(m) && Plain(n) && a + ":" + m == b + ":" + n
    ensures a == b && m == n
  {
    LastColonIsAt(a, m);
    LastColonIsAt(b, n);
    var s := a + ":" + m;
    assert |a| == |b| && s[..|a|] == a && s[|a| + 1..] == m;
    assert s[..|b|] == (b + ":" + n)[..|b|] == b && s[|b| + 1..] == (b + ":" + n)[|b| + 1..] == n;
  }

  /** Rows of one dictionary per team: no pair of team and member comes twice. */
  predicate Distinct(rows: seq<Row>) {
    forall j, k :: 0 <= j < k < |rows| ==> rows[j].team != rows[k].team || rows[j].member != rows[k].member
  }

  predicate PlainMembers(rows: seq<Row>) {
    forall k :: 0 <= k < |rows| ==> Plain(rows[k].member)
  }

  lemma {:induction false} TakenByRow(rows: seq<Row>, name: string) returns (k: nat)
    requires Taken(rows, name)
    ensures k < |rows| && (name == rows[k].member || name == rows[k].Qualified())
  {
    var rest := rows[..|rows| - 1];
    if Taken(rest, name) {
      k := TakenByRow(rest, name);
    } else {
      k := |rows| - 1;
    }
  }

  lemma PlainMembersNeverOverwrite(rows: seq<Row>)
    requires Distinct(rows) && PlainMembers(rows)
    ensures !Overwrites(rows)
  {
    if k :| 0 <= k < |rows| && OverwritesAt(rows, k) {
      var r := rows[k];
      var j := TakenByRow(rows[..k], r.Qualified());
      if r.Qualified() == rows[j].Qualified() {
        LastColonSplits(r.team, r.member, rows[j].team, rows[j].member);
      } else {
        LastColonIsAt(r.team, r.member);
        assert false;
      }
    }
  }

  // ---------------------------------------------------------------- the run's state

  /** A dictionary of teams, each with a dictionary of members. */
  predicate Proper(teams: Dict<Team>) {
    && (forall i, j :: 0 <= i < j < |teams| ==> teams[i].0 != teams[j].0)
    && forall i :: 0 <= i < |teams| && teams[i].1.Team? ==> ProperTeam(teams[i].1.members)
  }

  predicate ProperTeam(members: Dict<Usage>) {
    forall j, k :: 0 <= j < k < |members| ==> members[j].0 != members[k].0
  }

  predicate PlainTeams(teams: Dict<Team>) {
    forall i, j :: 0 <= i < |teams| && teams[i].1.Team? && 0 <= j < |teams[i].1.members| ==>
      Plain(teams[i].1.members[j].0)
  }

  lemma {:induction false} RowIsMember(team: string, members: Dict<Usage>, k: nat) returns (j: nat)
    requires k < |RowsOf(team, members)|
    ensures j < |members| && RowsOf(team, members)[k].team == team && RowsOf(team, members)[k].member == members[j].0
  {
    var rest := members[..|members| - 1];
    if k < |RowsOf(team, rest)| {
      j := RowIsMember(team, rest, k);
    } else {
      j := |members| - 1;
    }
  }

  lemma {:induction false} TeamIsDistinct(team: string, members: Dict<Usage>)
    requires ProperTeam(members)
    ensures Distinct(RowsOf(team, members))
  {
    if members != [] {
      var rest := members[..|members| - 1];
      TeamIsDistinct(team, rest);
      forall k | 0 <= k < |RowsOf(team, rest)|
        ensures RowsOf(team, rest)[k].member != members[|members| - 1].0
      {
        var j := RowIsMember(team, rest, k);
      }
    }
  }

  lemma {:induction false} RowIsOfTeam(teams: Dict<Team>, k: nat) returns (i: nat, j: nat)
    requires k < |Rows(teams)|
    ensures i < |teams| && teams[i].1.Team? && j < |teams[i].1.members|
    ensures Rows(teams)[k].team == teams[i].0 && Rows(teams)[k].member == teams[i].1.members[j].0
  {
    var rest := teams[..|teams| - 1];
    if k < |Rows(rest)| {
      i, j := RowIsOfTeam(rest, k);
    } else {
      i := |teams| - 1;
      j := RowIsMember(teams[i].0, teams[i].1.members, k - |Rows(rest)|);
    }
  }

  lemma {:induction false} RowsAreDistinct(teams: Dict<Team>)
    requires Proper(teams)
    ensures Distinct(Rows(teams))
  {
    if teams != [] {
      var rest, last := teams[..|teams| - 1], teams[|teams| - 1];
      RowsAreDistinct(rest);
      if last.1.Team? {
        var mine := RowsOf(last.0, last.1.members);
        TeamIsDistinct(last.0, last.1.members);
        forall j, k | 0 <= j < |Rows(rest)| && 0 <= k < |mine| ensures Rows(rest)[j].team != mine[k].team {
          var i, _ := RowIsOfTeam(rest, j);
          var _ := RowIsMember(last.0, last.1.members, k);
        }
      }
    }
  }

  /**
   With no colon in a member id the two tables agree in every figure, and both hold exactly what the members of all
   teams used.
   */
  lemma MembersAndRolesAgree(teams: Dict<Team>, c: Quantity)
    requires Proper(teams) && PlainTeams(teams)
    ensures MemberTotal(ByMember(Rows(teams)), c) == RoleTotal(ByRole(Rows(teams)), c) == SumRows(Rows(teams), c)
    ensures |ByMember(Rows(teams))| == |Rows(teams)|
  {
    var rows := Rows(teams);
    forall k | 0 <= k < |rows| ensures Plain(rows[k].member) {
      var i, j := RowIsOfTeam(teams, k);
    }
    RowsAreDistinct(teams);
    PlainMembersNeverOverwrite(rows);
    MembersCount(rows);
    MembersConserve(rows, (p: Payload) => Of(p.figures, c));
    SumPaidIsSumRows(rows, c);
    RolesConserve(rows, "", c);
  }

  lemma NextEntry(rows: seq<Row>, r: Row)
    ensures ByMember(rows + [r]) == Put(ByMember(rows), KeyIn(ByMember(rows), r), r.Pay())
  {
    assert (rows + [r])[..|rows|] == rows;
  }

  lemma NextSum(rows: seq<Row>, r: Row, c: Quantity)
    ensures SumRows(rows + [r], c) == SumRows(rows, c) + Of(r.figures, c)
  {
    assert (rows + [r])[..|rows|] == rows;
  }

  lemma TwoKeys<V>(a: string, x: V, b: string, y: V, z: V)
    requires a != b
    ensures var d := [(a, x), (b, y)];
            && HasKey(d, b) && Put(d, a, z) == [(a, z), (b, y)] && Put([(a, x)], b, y) == d && !HasKey([(a, x)], b)
  {
    assert [(a, x), (b, y)][1..] == [(b, y)] && [(a, x)][1..] == [];
  }

  /** The second member takes the bare name of the third, and the first has the third's qualified name as its own. */
  lemma ThirdOverwritesFirst(r0: Row, r1: Row, r2: Row)
    requires r0.member == r2.Qualified() && r1.member == r2.member != r0.member
    ensures ByMember([r0, r1, r2]) == [(r0.member, r2.Pay()), (r1.member, r1.Pay())]
  {
    TwoKeys(r0.member, r0.Pay(), r1.member, r1.Pay(), r2.Pay());
    NextEntry([], r0);
    NextEntry([r0], r1);
    NextEntry([r0, r1], r2);
    assert [] + [r0] == [r0] && [r0] + [r1] == [r0, r1] && [r0, r1] + [r2] == [r0, r1, r2];
  }

  lemma ThreeRowsSum(r0: Row, r1: Row, r2: Row, c: Quantity)
    ensures SumRows([r0, r1, r2], c) == Of(r0.figures, c) + Of(r1.figures, c) + Of(r2.figures, c)
  {
    assert SumRows([r0], c) == Of(r0.figures, c);
    assert [r0] + [r1] == [r0, r1] && [r0, r1] + [r2] == [r0, r1, r2];
    NextSum([r0], r1, c);
    NextSum([r0, r1], r2, c);
  }

  /** With a colon a member's figures can be overwritten by those of another team's member. */
  lemma ColonsCanCollide(a: Consumption, b: Consumption, c: Consumption)
    ensures
      var rows := [Row("t", "u:m", "", a), Row("v", "m", "", b), Row("u", "m", "", c)];
      && ByMember(rows) == [("u:m", Row("u", "m", "", c).Pay()), ("m", Row("v", "m", "", b).Pay())]
      && forall n :: RoleTotal(ByRole(rows), n) == Of(a, n) + Of(b, n) + Of(c, n)
  {
    var r0, r1, r2 := Row("t", "u:m", "", a), Row("v", "m", "", b), Row("u", "m", "", c);
    assert r2.Qualified() == "u:m" && |"u:m"| != |"m"|;
    ThirdOverwritesFirst(r0, r1, r2);
    forall n ensures RoleTotal(ByRole([r0, r1, r2]), n) == Of(a, n) + Of(b, n) + Of(c, n) {
      RolesConserve([r0, r1, r2], "", n);
      ThreeRowsSum(r0, r1, r2, n);
    }
  }

  // ---------------------------------------------------------------- the program

  method AddMember(team: string, who: string, used: Usage, byMember: Dict<Payload>, byRole: Dict<Consumption>,
                   ghost rows: seq<Row>)
    returns (members: Dict<Payload>, roles: Dict<Consumption>)
    requires used.Used? && byMember == ByMember(rows) && byRole == ByRole(rows)
    ensures members == ByMember(rows + [Row(team, who, used.role, used.figures)])
    ensures roles == ByRole(rows + [Row(team, who, used.role, used.figures)])
  {
    assert (rows + [Row(team, who, used.role, used.figures)])[..|rows|] == rows;
    var role := if used.role != "" then used.role else who;
    var key := if HasKey(byMember, who) then team + ":" + who else who;
    members := Put(byMember, key, Payload(used.figures, role, team));
    roles := Put(byRole, role, Get(byRole, role, NOTHING).Plus(used.figures));
  }

  lemma RowsOfNext(team: string, usage: Dict<Usage>, k: nat)
    requires k < |usage|
    ensures RowsOf(team, usage[..k + 1]) == RowsOf(team, usage[..k]) +
            if usage[k].1.Malformed? then [] else [Row(team, usage[k].0, usage[k].1.role, usage[k].1.figures)]
  {
    assert usage[..k + 1][..k] == usage[..k];
  }

  method AddTeam(team: string, usage: Dict<Usage>, byMember: Dict<Payload>, byRole: Dict<Consumption>,
                 ghost rows: seq<Row>)
    returns (members: Dict<Payload>, roles: Dict<Consumption>)
    requires byMember == ByMember(rows) && byRole == ByRole(rows)
    ensures members == ByMember(rows + RowsOf(team, usage)) && roles == ByRole(rows + RowsOf(team, usage))
  {
    members, roles := byMember, byRole;
    ghost var soFar := rows;
    for k := 0 to |usage|
      invariant soFar == rows + RowsOf(team, usage[..k])
      invariant members == ByMember(soFar) && roles == ByRole(soFar)
    {
      RowsOfNext(team, usage, k);
      var (who, used) := usage[k];
      if used.Used? {
        members, roles := AddMember(team, who, used, members, roles, soFar);
        soFar := soFar + [Row(team, who, used.role, used.figures)];
      }
    }
    assert usage[..|usage|] == usage;
  }

  /** The two tables of a run, from the usage kept for its teams. */
  method MemberSpendFromState(teams: Dict<Team>) returns (members: Dict<Payload>, roles: Dict<Consumption>)
    ensures members == ByMember(Rows(teams)) && roles == ByRole(Rows(teams))
  {
    members, roles := [], [];
    for i := 0 to |teams|
      invariant members == ByMember(Rows(teams[..i])) && roles == ByRole(Rows(teams[..i]))
    {
      assert teams[..i + 1][..i] == teams[..i];
      var (name, team) := teams[i];
      if team.Team? {
        members, roles := AddTeam(name, team.members, members, roles, Rows(teams[..i]));
      }
    }
    assert teams[..|teams|] == teams;
  }
}
