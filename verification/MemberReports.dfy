/** What the tables of members and roles say, told from what the run's state has about each member of each team. */
module MemberReports {
  import opened Dictionaries
  import opened MemberSpend

  /** Member `j` of team `i` is readable, and this is the row it makes. */
  predicate MakesRow(teams: Dict<Team>, i: nat, j: nat, r: Row) {
    && i < |teams| && teams[i].1.Team? && j < |teams[i].1.members| && teams[i].1.members[j].1.Used?
    && r.team == teams[i].0 && r.member == teams[i].1.members[j].0
    && r.role == teams[i].1.members[j].1.role && r.figures == teams[i].1.members[j].1.figures
  }

  lemma {:induction false} MemberHasRow(team: string, members: Dict<Usage>, j: nat)
    requires j < |members| && members[j].1.Used?
    ensures Row(team, members[j].0, members[j].1.role, members[j].1.figures) in RowsOf(team, members)
    decreases |members|
  {
    if j < |members| - 1 { MemberHasRow(team, members[..|members| - 1], j); }
  }

  lemma {:induction false} RowHasMember(team: string, members: Dict<Usage>, k: nat) returns (j: nat)
    requires k < |RowsOf(team, members)|
    ensures j < |members| && members[j].1.Used?
    ensures RowsOf(team, members)[k] == Row(team, members[j].0, members[j].1.role, members[j].1.figures)
  {
    var rest := members[..|members| - 1];
    if k < |RowsOf(team, rest)| {
      j := RowHasMember(team, rest, k);
    } else {
      j := |members| - 1;
    }
  }

  lemma {:induction false} TeamHasRows(teams: Dict<Team>, i: nat, r: Row)
    requires i < |teams| && teams[i].1.Team? && r in RowsOf(teams[i].0, teams[i].1.members)
    ensures r in Rows(teams)
    decreases |teams|
  {
    if i < |teams| - 1 { TeamHasRows(teams[..|teams| - 1], i, r); }
  }

  lemma {:induction false} RowHasTeam(teams: Dict<Team>, k: nat) returns (i: nat, j: nat)
    requires k < |Rows(teams)|
    ensures MakesRow(teams, i, j, Rows(teams)[k])
  {
    var rest := teams[..|teams| - 1];
    if k < |Rows(rest)| {
      i, j := RowHasTeam(rest, k);
    } else {
      i := |teams| - 1;
      j := RowHasMember(teams[i].0, teams[i].1.members, k - |Rows(rest)|);
    }
  }

  /** The rows are those of the readable members of the readable teams: none is missing and none is made up. */
  lemma RowsAreMembers(teams: Dict<Team>, r: Row)
    ensures r in Rows(teams) <==> exists i: nat, j: nat :: MakesRow(teams, i, j, r)
  {
    if i: nat, j: nat :| MakesRow(teams, i, j, r) {
      MemberHasRow(teams[i].0, teams[i].1.members, j);
      TeamHasRows(teams, i, r);
    }
    if r in Rows(teams) {
      var k :| 0 <= k < |Rows(teams)| && Rows(teams)[k] == r;
      var i, j := RowHasTeam(teams, k);
    }
  }

  // ---------------------------------------------------------------- the table of roles

  /** What is recorded of a quantity. */
  function Amount(f: Consumption, q: Quantity): int {
    match q
    case PromptTokens => f.promptTokens
    case CompletionTokens => f.completionTokens
    case TotalTokens => f.totalTokens
    case CostMicros => f.costMicros
    case ToolCalls => f.toolCalls
  }

  /** The member acts in the role: the one recorded, or one of its own name. */
  predicate ActsAs(r: Row, role: string) {
    if r.role != "" then r.role == role else r.member == role
  }

  /** The amounts of all who act in the role. */
  function AmountOfRole(rows: seq<Row>, role: string, q: Quantity): int {
    if rows == [] then 0
    else AmountOfRole(rows[..|rows| - 1], role, q)
         + if ActsAs(rows[|rows| - 1], role) then Amount(rows[|rows| - 1].figures, q) else 0
  }

  lemma {:induction false} RoleSumIs(rows: seq<Row>, role: string, q: Quantity)
    ensures SumOfRole(rows, role, q) == AmountOfRole(rows, role, q)
  {
    if rows != [] { RoleSumIs(rows[..|rows| - 1], role, q); }
  }

  /** The entry of a role has, quantity by quantity, what all who act in it used. */
  lemma RoleEntry(rows: seq<Row>, role: string, q: Quantity)
    ensures Amount(Get(ByRole(rows), role, NOTHING), q) == AmountOfRole(rows, role, q)
  {
    RolesConserve(rows, role, q);
    RoleSumIs(rows, role, q);
    GetMeasured(ByRole(rows), role, NOTHING, (f: Consumption) => Of(f, q));
  }

  // ---------------------------------------------------------------- the table of members

  /** The name row `k` goes by: the member's own, and with the team's in front if an earlier row is of that member. */
  function NameOf(rows: seq<Row>, k: nat): string
    requires k < |rows|
  {
    if exists j :: 0 <= j < k && rows[j].member == rows[k].member then rows[k].team + ":" + rows[k].member
    else rows[k].member
  }

  lemma {:induction false} TakenIfThere(rows: seq<Row>, j: nat)
    requires j < |rows|
    ensures Taken(rows, rows[j].member)
  {
    if j < |rows| - 1 { TakenIfThere(rows[..|rows| - 1], j); }
  }

  /** With plain member ids a bare name is taken by rows of that member only. */
  lemma PlainTakenIff(rows: seq<Row>, k: nat)
    requires k < |rows| && PlainMembers(rows)
    ensures Taken(rows[..k], rows[k].member) <==> exists j :: 0 <= j < k && rows[j].member == rows[k].member
  {
    if Taken(rows[..k], rows[k].member) {
      var j := TakenByRow(rows[..k], rows[k].member);
      if rows[k].member != rows[j].member {
        LastColonIsAt(rows[j].team, rows[j].member);
        assert false;
      }
    }
    if j :| 0 <= j < k && rows[j].member == rows[k].member { TakenIfThere(rows[..k], j); }
  }

  /** The last row is put under its name. */
  lemma LastGoesBy(rows: seq<Row>)
    requires rows != [] && PlainMembers(rows)
    ensures KeyIn(ByMember(rows[..|rows| - 1]), rows[|rows| - 1]) == NameOf(rows, |rows| - 1)
  {
    KeysAreTaken(rows[..|rows| - 1], rows[|rows| - 1].member);
    PlainTakenIff(rows, |rows| - 1);
  }

  /** The entry of a row: its own figures, its role and its team. */
  function EntryOf(r: Row): Payload {
    Payload(r.figures, if r.role != "" then r.role else r.member, r.team)
  }

  lemma NextMember(rows: seq<Row>, name: string, other: Payload)
    requires rows != [] && PlainMembers(rows)
    ensures Get(ByMember(rows), name, other)
         == if name == NameOf(rows, |rows| - 1) then EntryOf(rows[|rows| - 1])
            else Get(ByMember(rows[..|rows| - 1]), name, other)
  {
    var rest, last := rows[..|rows| - 1], rows[|rows| - 1];
    LastGoesBy(rows);
    PutGets(ByMember(rest), KeyIn(ByMember(rest), last), last.Pay(), name, other);
  }

  /** Different rows go by different names. */
  lemma NamesDiffer(rows: seq<Row>, i: nat, j: nat)
    requires i < j < |rows| && Distinct(rows) && PlainMembers(rows)
    ensures NameOf(rows, i) != NameOf(rows, j)
  {
    var a, b := rows[i], rows[j];
    LastColonIsAt(a.team, a.member);
    LastColonIsAt(b.team, b.member);
    if a.team + ":" + a.member == b.team + ":" + b.member { LastColonSplits(a.team, a.member, b.team, b.member); }
    assert a.team + ":" + a.member != b.member by { assert (a.team + ":" + a.member)[|a.team|] == ':'; }
    assert b.team + ":" + b.member != a.member by { assert (b.team + ":" + b.member)[|b.team|] == ':'; }
  }

  lemma EarlierStays(rows: seq<Row>, name: string, other: Payload)
    requires rows != [] && PlainMembers(rows) && name != NameOf(rows, |rows| - 1)
    ensures Get(ByMember(rows), name, other) == Get(ByMember(rows[..|rows| - 1]), name, other)
  {
    NextMember(rows, name, other);
  }

  /** Later rows do not change the name of an earlier one. */
  lemma NameStays(rows: seq<Row>, k: nat)
    requires k < |rows| - 1
    ensures NameOf(rows[..|rows| - 1], k) == NameOf(rows, k)
  {}

  lemma RestIsProper(rows: seq<Row>)
    requires rows != [] && Distinct(rows) && PlainMembers(rows)
    ensures Distinct(rows[..|rows| - 1]) && PlainMembers(rows[..|rows| - 1])
  {}

  /** Every row has its entry, under its name. */
  lemma {:induction false} MemberEntry(rows: seq<Row>, k: nat, other: Payload)
    requires k < |rows| && Distinct(rows) && PlainMembers(rows)
    ensures Get(ByMember(rows), NameOf(rows, k), other) == EntryOf(rows[k])
    decreases |rows|
  {
    if k < |rows| - 1 {
      RestIsProper(rows);
      MemberEntry(rows[..|rows| - 1], k, other);
      NameStays(rows, k);
      NamesDiffer(rows, k, |rows| - 1);
      EarlierStays(rows, NameOf(rows, k), other);
    } else {
      NextMember(rows, NameOf(rows, k), other);
    }
  }
}
