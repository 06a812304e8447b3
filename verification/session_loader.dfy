/**
  Session loading (data/session_loader.py) as a pure function over the two
  already-decoded payloads: the members file and the roles file. Reading
  and decoding the JSON files is not modelled; each payload arrives as a
  record whose fields are the keys the loader reads.
 */
module SessionLoader {
  import opened Wrappers
  import opened Strings
  import opened Core

  // ---------------------------------------------------------------------
  // Field parsers

  /** `_parse_chamber`: the lower-cased value must be one of the three chamber values. */
  function ParseChamber(value: string): (r: Result<Chamber>)
    ensures r.Ok? <==> Lower(value) in ["house", "senate", "joint"]
    ensures r.Ok? ==> ChamberValue(r.value) == Lower(value)
    ensures r.Err? ==> r.error.ValueError?
  {
    match Lower(value)
    case "house" => Ok(HOUSE)
    case "senate" => Ok(SENATE)
    case "joint" => Ok(JOINT)
    case _ => Err(ValueError("Unknown chamber value: " + value))
  }

  /** Every chamber's value parses back to that chamber, in any mix of case. */
  lemma ParseChamberRoundTrip(c: Chamber, s: string)
    requires Lower(s) == ChamberValue(c)
    ensures ParseChamber(s) == Ok(c)
  {
  }

  /**
    `_parse_party`: a null party counts as "other"; the lower-cased value
    "d" is a Democrat, "r" a Republican, "other" or "o" the other party,
    and anything else is rejected.
   */
  function ParseParty(value: Option<string>): (r: Result<Party>)
    ensures value.None? ==> r == Ok(OTHER)
    ensures value.Some? ==> (r == Ok(DEMOCRAT) <==> Lower(value.value) == "d")
    ensures value.Some? ==> (r == Ok(REPUBLICAN) <==> Lower(value.value) == "r")
    ensures value.Some? ==> (r == Ok(OTHER) <==> Lower(value.value) in ["other", "o"])
    ensures r != Ok(UNKNOWN)
    ensures r.Err? ==> r.error.ValueError?
  {
    var v := if value.None? then "other" else value.value;
    assert Lower("other") == "other";
    match Lower(v)
    case "d" => Ok(DEMOCRAT)
    case "r" => Ok(REPUBLICAN)
    case "other" => Ok(OTHER)
    case "o" => Ok(OTHER)
    case _ => Err(ValueError("Unknown party value: " + v))
  }

  /**
    The values of the party enumeration parse back to their member, except
    `Party.UNKNOWN`, whose value "Unknown" is rejected like the "UNKNOWN"
    the loader substitutes for a missing party key.
   */
  lemma ParsePartyValues()
    ensures ParseParty(Some(PartyValue(DEMOCRAT))) == Ok(DEMOCRAT)
    ensures ParseParty(Some(PartyValue(REPUBLICAN))) == Ok(REPUBLICAN)
    ensures ParseParty(Some(PartyValue(OTHER))) == Ok(OTHER)
    ensures ParseParty(Some(PartyValue(UNKNOWN))).Err?
    ensures ParseParty(Some(MissingParty)).Err?
  {
    assert Lower("D") == "d";
    assert Lower("R") == "r";
    assert Lower("Other") == "other";
    assert Lower("Unknown") == "unknown";
    assert Lower(MissingParty) == "unknown";
  }

  /**
    `_parse_session_years`: the id split on "-" must have exactly two
    parts, each an integer literal as `int()` reads it.
   */
  function ParseSessionYears(sessionId: string): (r: Result<(int, int)>)
    ensures r.Ok? ==> |Split(sessionId, '-')| == 2
    ensures r.Ok? ==> ParseInt(Split(sessionId, '-')[0]) == Some(r.value.0)
    ensures r.Ok? ==> ParseInt(Split(sessionId, '-')[1]) == Some(r.value.1)
    ensures r.Err? <==> (|Split(sessionId, '-')| != 2
      || ParseInt(Split(sessionId, '-')[0]).None? || ParseInt(Split(sessionId, '-')[1]).None?)
    ensures |Split(sessionId, '-')| != 2 ==> r == Err(ValueError("Cannot parse session years from " + StrRepr(sessionId)))
    ensures |Split(sessionId, '-')| == 2 && ParseInt(Split(sessionId, '-')[0]).None? ==>
      r == Err(ValueError(IntLiteralError(Split(sessionId, '-')[0])))
    ensures |Split(sessionId, '-')| == 2 && ParseInt(Split(sessionId, '-')[0]).Some? && ParseInt(Split(sessionId, '-')[1]).None? ==>
      r == Err(ValueError(IntLiteralError(Split(sessionId, '-')[1])))
  {
    var parts := Split(sessionId, '-');
    if |parts| != 2 then Err(ValueError("Cannot parse session years from " + StrRepr(sessionId)))
    else match (ParseInt(parts[0]), ParseInt(parts[1]))
      case (Some(a), Some(b)) => Ok((a, b))
      case (None, _) => Err(ValueError(IntLiteralError(parts[0])))
      case (Some(_), None) => Err(ValueError(IntLiteralError(parts[1])))
  }

  /** The label `f"{start_year}-{end_year}"`. */
  function SessionLabel(startYear: int, endYear: int): string {
    IntToString(startYear) + "-" + IntToString(endYear)
  }

  lemma NoDashInNatText(n: nat)
    ensures '-' !in IntToString(n)
  {
  }

  lemma JoinTwo(a: string, b: string, c: char)
    ensures Join([a, b], c) == a + [c] + b
  {
    assert [a, b][1..] == [b];
  }

  lemma SplitLabel(a: string, b: string)
    requires '-' !in a && '-' !in b
    ensures Split(a + "-" + b, '-') == [a, b]
  {
    JoinTwo(a, b, '-');
    SplitJoin([a, b], '-');
  }

  lemma ParseSplitYears(sessionId: string, a: string, b: string)
    requires Split(sessionId, '-') == [a, b]
    requires ParseInt(a).Some? && ParseInt(b).Some?
    ensures ParseSessionYears(sessionId) == Ok((ParseInt(a).value, ParseInt(b).value))
  {
  }

  /** A label built from two non-negative years parses back to those years. */
  lemma SessionLabelRoundTrip(startYear: nat, endYear: nat)
    ensures ParseSessionYears(SessionLabel(startYear, endYear)) == Ok((startYear, endYear))
  {
    var a, b := IntToString(startYear), IntToString(endYear);
    NoDashInNatText(startYear);
    NoDashInNatText(endYear);
    SplitLabel(a, b);
    ParseIntToString(startYear);
    ParseIntToString(endYear);
    ParseSplitYears(SessionLabel(startYear, endYear), a, b);
  }

  // ---------------------------------------------------------------------
  // Payloads

  /** What `row.get("party", "UNKNOWN")` reads: the key may be absent, null, or a string. */
  datatype PartyField = PartyAbsent | PartyNull | PartyText(text: string)

  /** The value the loader substitutes for an absent party key. */
  const MissingParty := "UNKNOWN"

  function PartyArgument(f: PartyField): Option<string> {
    match f
    case PartyAbsent => Some(MissingParty)
    case PartyNull => None
    case PartyText(s) => Some(s)
  }

  /** One element of the members file's "members" list. */
  datatype MemberRow = MemberRow(
    memberId: string,
    name: string,
    chamber: string,
    party: PartyField,
    distanceMiles: Option<real>)

  datatype MembersFile = MembersFile(sessionId: string, members: seq<MemberRow>)

  /** One element of the roles file's "roles" list; a session id in the row is never read. */
  datatype RoleRow = RoleRow(memberId: string, roleCode: string)

  datatype RolesFile = RolesFile(sessionId: string, roles: seq<RoleRow>)

  /** `LoadedSession`. */
  datatype LoadedSession = LoadedSession(
    session: Session,
    members: map<string, Member>,
    roleAssignments: seq<RoleAssignment>)

  // ---------------------------------------------------------------------
  // Steps of `load_session`

  /** The `Member(...)` built from one row: chamber first, then party; the role list starts empty. */
  function ParseMember(row: MemberRow): (r: Result<Member>)
    ensures r.Ok? <==> ParseChamber(row.chamber).Ok? && ParseParty(PartyArgument(row.party)).Ok?
    ensures r.Ok? ==> (r.value.memberId == row.memberId && r.value.name == row.name
      && r.value.chamber == ParseChamber(row.chamber).value
      && r.value.party == ParseParty(PartyArgument(row.party)).value
      && r.value.distanceMiles == row.distanceMiles && r.value.roles == [])
  {
    var chamber :- ParseChamber(row.chamber);
    var party :- ParseParty(PartyArgument(row.party));
    Ok(Member(row.memberId, row.name, chamber, party, row.distanceMiles, []))
  }

  /** The ids of the member rows. */
  function RowIds(rows: seq<MemberRow>): set<string> {
    set i | 0 <= i < |rows| :: rows[i].memberId
  }

  lemma RowIdsCons(rows: seq<MemberRow>)
    requires |rows| > 0
    ensures RowIds(rows) == {rows[0].memberId} + RowIds(rows[1..])
  {
    forall x | x in RowIds(rows) ensures x in {rows[0].memberId} + RowIds(rows[1..]) {
      var i :| 0 <= i < |rows| && rows[i].memberId == x;
      if i > 0 {
        assert rows[1..][i - 1].memberId == x;
      }
    }
  }

  /** Every member is stored under its own id. */
  predicate KeyedById(members: map<string, Member>) {
    forall id :: id in members ==> members[id].memberId == id
  }

  /** No member holds a role yet. */
  predicate NoRoles(members: map<string, Member>) {
    forall id :: id in members ==> members[id].roles == []
  }

  /** The member loop: each parsed member is stored under its id, a later row replacing an earlier one. */
  function AddMembers(acc: map<string, Member>, rows: seq<MemberRow>): (r: Result<map<string, Member>>)
    ensures r.Ok? <==> forall i :: 0 <= i < |rows| ==> ParseMember(rows[i]).Ok?
    ensures r.Ok? ==> r.value.Keys == acc.Keys + RowIds(rows)
    decreases |rows|
  {
    if |rows| == 0 then Ok(acc)
    else
      ParsesCons(rows);
      var m :- ParseMember(rows[0]);
      RowIdsCons(rows);
      AddMembers(acc[m.memberId := m], rows[1..])
  }

  lemma ParsesCons(rows: seq<MemberRow>)
    requires |rows| > 0
    ensures (forall i :: 0 <= i < |rows| ==> ParseMember(rows[i]).Ok?)
      <==> ParseMember(rows[0]).Ok? && forall i :: 0 <= i < |rows[1..]| ==> ParseMember(rows[1..][i]).Ok?
  {
    assert forall i :: 0 < i < |rows| ==> rows[i] == rows[1..][i - 1];
  }

  /** The role assignments of the roles file, each stamped with the requested session id. */
  function Assignments(sessionId: string, rows: seq<RoleRow>): (r: seq<RoleAssignment>)
    ensures |r| == |rows|
    ensures forall i :: 0 <= i < |rows| ==>
      r[i] == RoleAssignment(rows[i].memberId, rows[i].roleCode, sessionId)
  {
    seq(|rows|, i requires 0 <= i < |rows| => RoleAssignment(rows[i].memberId, rows[i].roleCode, sessionId))
  }

  /** The assignments of `ras` that belong to member `id`, in order. */
  function AssignmentsOf(ras: seq<RoleAssignment>, id: string): seq<RoleAssignment> {
    if |ras| == 0 then []
    else (if ras[0].memberId == id then [ras[0]] else []) + AssignmentsOf(ras[1..], id)
  }

  /** The attachment loop: each assignment is appended to its member's roles; an unknown member is rejected. */
  function Attach(members: map<string, Member>, ras: seq<RoleAssignment>): (r: Result<map<string, Member>>)
    ensures r.Ok? <==> forall i :: 0 <= i < |ras| ==> ras[i].memberId in members
    ensures r.Err? ==> r.error.ValueError?
    ensures r.Ok? ==> r.value.Keys == members.Keys
    decreases |ras|
  {
    if |ras| == 0 then Ok(members)
    else if ras[0].memberId !in members then
      Err(ValueError("RoleAssignment for unknown member_id " + ras[0].memberId))
    else
      var m := members[ras[0].memberId];
      var r := Attach(members[ras[0].memberId := m.(roles := m.roles + [ras[0]])], ras[1..]);
      assert r.Ok? <==> forall i :: 0 <= i < |ras| ==> ras[i].memberId in members by {
        forall i | 0 < i < |ras| ensures ras[i] == ras[1..][i - 1] {}
      }
      r
  }

  /** Parsed members are stored under their own ids and start without roles. */
  lemma {:induction false} AddMembersShape(acc: map<string, Member>, rows: seq<MemberRow>)
    requires AddMembers(acc, rows).Ok?
    requires KeyedById(acc) && NoRoles(acc)
    ensures KeyedById(AddMembers(acc, rows).value) && NoRoles(AddMembers(acc, rows).value)
    decreases |rows|
  {
    if |rows| > 0 {
      var m := ParseMember(rows[0]).value;
      AddMembersShape(acc[m.memberId := m], rows[1..]);
    }
  }

  /**
    After the member loop, a row that no later row shares an id with
    determines its member; an id no row mentions keeps its earlier member.
   */
  lemma {:induction false} AddMembersLastWins(acc: map<string, Member>, rows: seq<MemberRow>, i: nat)
    requires AddMembers(acc, rows).Ok?
    requires i < |rows|
    requires forall j :: i < j < |rows| ==> rows[j].memberId != rows[i].memberId
    ensures AddMembers(acc, rows).value[rows[i].memberId] == ParseMember(rows[i]).value
    decreases |rows|
  {
    AddMembersCons(acc, rows);
    var m := ParseMember(rows[0]).value;
    var acc' := acc[rows[0].memberId := m];
    if i == 0 {
      assert rows[0].memberId !in RowIds(rows[1..]) by {
        forall k | 0 <= k < |rows[1..]| ensures rows[1..][k].memberId != rows[0].memberId {
          assert rows[1..][k] == rows[k + 1];
        }
      }
      AddMembersUntouched(acc', rows[1..], rows[0].memberId);
    } else {
      forall j | i - 1 < j < |rows[1..]| ensures rows[1..][j].memberId != rows[1..][i - 1].memberId {
        assert rows[1..][j] == rows[j + 1];
      }
      AddMembersLastWins(acc', rows[1..], i - 1);
    }
  }

  /** The first row is parsed and stored under its id before the rest are read. */
  lemma AddMembersCons(acc: map<string, Member>, rows: seq<MemberRow>)
    requires |rows| > 0 && AddMembers(acc, rows).Ok?
    ensures ParseMember(rows[0]).Ok?
    ensures AddMembers(acc, rows) == AddMembers(acc[rows[0].memberId := ParseMember(rows[0]).value], rows[1..])
  {
  }

  lemma {:induction false} AddMembersUntouched(acc: map<string, Member>, rows: seq<MemberRow>, id: string)
    requires AddMembers(acc, rows).Ok?
    requires id in acc && id !in RowIds(rows)
    ensures AddMembers(acc, rows).value[id] == acc[id]
    decreases |rows|
  {
    if |rows| > 0 {
      RowIdsCons(rows);
      var m := ParseMember(rows[0]).value;
      AddMembersUntouched(acc[m.memberId := m], rows[1..], id);
    }
  }

  /** The attachment loop appends to each member exactly that member's assignments, in order. */
  lemma {:induction false} AttachAppends(members: map<string, Member>, ras: seq<RoleAssignment>)
    requires Attach(members, ras).Ok?
    ensures forall id :: id in members ==>
      Attach(members, ras).value[id] == members[id].(roles := members[id].roles + AssignmentsOf(ras, id))
    decreases |ras|
  {
    if |ras| == 0 {
      forall id | id in members
        ensures Attach(members, ras).value[id] == members[id].(roles := members[id].roles + AssignmentsOf(ras, id))
      {
        assert members[id].roles + [] == members[id].roles;
      }
    } else {
      var ra := ras[0];
      var m := members[ra.memberId];
      var members' := members[ra.memberId := m.(roles := m.roles + [ra])];
      AttachAppends(members', ras[1..]);
      forall id | id in members
        ensures Attach(members, ras).value[id] == members[id].(roles := members[id].roles + AssignmentsOf(ras, id))
      {
        if id == ra.memberId {
          assert m.roles + [ra] + AssignmentsOf(ras[1..], id) == m.roles + ([ra] + AssignmentsOf(ras[1..], id));
        } else {
          assert AssignmentsOf(ras, id) == [] + AssignmentsOf(ras[1..], id);
        }
      }
    }
  }

  /** Every member row parses. */
  predicate MemberRowsParse(rows: seq<MemberRow>) {
    forall i :: 0 <= i < |rows| ==> ParseMember(rows[i]).Ok?
  }

  /** Every role row names a member of the members file. */
  predicate RolesNameMembers(roles: seq<RoleRow>, rows: seq<MemberRow>) {
    forall i :: 0 <= i < |roles| ==> roles[i].memberId in RowIds(rows)
  }

  /** The attachment loop finds every member exactly when every role row names a member row. */
  lemma AssignmentsNameMembers(sessionId: string, roles: seq<RoleRow>, rows: seq<MemberRow>, members: map<string, Member>)
    requires members.Keys == RowIds(rows)
    ensures (forall i :: 0 <= i < |roles| ==> Assignments(sessionId, roles)[i].memberId in members)
      <==> RolesNameMembers(roles, rows)
  {
    var ras := Assignments(sessionId, roles);
    assert forall i :: 0 <= i < |roles| ==> ras[i].memberId == roles[i].memberId;
  }

  /**
    `load_session(root, session_id)` on the two decoded payloads. The steps
    run in the source's order, so the first failing one names the error:
    the members file's session id, each member row, the roles file's
    session id, each assignment's member, and finally the session years.
   */
  function LoadSession(sessionId: string, membersFile: MembersFile, rolesFile: RolesFile): (r: Result<LoadedSession>)
    ensures membersFile.sessionId != sessionId ==> r.Err?
    ensures rolesFile.sessionId != sessionId ==> r.Err?
    ensures ParseSessionYears(sessionId).Err? ==> r.Err?
    ensures r.Ok? ==> r.value.members.Keys == RowIds(membersFile.members)
    ensures r.Ok? <==>
      && membersFile.sessionId == sessionId
      && rolesFile.sessionId == sessionId
      && MemberRowsParse(membersFile.members)
      && RolesNameMembers(rolesFile.roles, membersFile.members)
      && ParseSessionYears(sessionId).Ok?
  {
    if membersFile.sessionId != sessionId then
      Err(ValueError("members.json session_id mismatch (expected " + sessionId + ", got " + membersFile.sessionId + ")"))
    else
      var members :- AddMembers(map[], membersFile.members);
      if rolesFile.sessionId != sessionId then
        Err(ValueError("roles.json session_id mismatch (expected " + sessionId + ", got " + rolesFile.sessionId + ")"))
      else
        var ras := Assignments(sessionId, rolesFile.roles);
        AssignmentsNameMembers(sessionId, rolesFile.roles, membersFile.members, members);
        var attached :- Attach(members, ras);
        var years :- ParseSessionYears(sessionId);
        Ok(LoadedSession(Session(sessionId, years.0, years.1, SessionLabel(years.0, years.1)), attached, ras))
  }

  /**
    A loaded session takes its years and label from the session id, and
    every assignment carries the requested session id with its row's member
    and role code; every assignment names a member of the members file.
   */
  lemma LoadSessionHeader(sessionId: string, membersFile: MembersFile, rolesFile: RolesFile)
    requires LoadSession(sessionId, membersFile, rolesFile).Ok?
    ensures var l := LoadSession(sessionId, membersFile, rolesFile).value;
      && ParseSessionYears(sessionId) == Ok((l.session.startYear, l.session.endYear))
      && l.session.id == sessionId
      && l.session.labelText == SessionLabel(l.session.startYear, l.session.endYear)
      && (forall i :: 0 <= i < |rolesFile.roles| ==> rolesFile.roles[i].memberId in RowIds(membersFile.members))
      && |l.roleAssignments| == |rolesFile.roles|
      && (forall i :: 0 <= i < |rolesFile.roles| ==>
            l.roleAssignments[i] == RoleAssignment(rolesFile.roles[i].memberId, rolesFile.roles[i].roleCode, sessionId))
  {
    var members := AddMembers(map[], membersFile.members).value;
    var ras := Assignments(sessionId, rolesFile.roles);
    var attached := Attach(members, ras).value;
    var years := ParseSessionYears(sessionId).value;
    assert LoadSession(sessionId, membersFile, rolesFile)
        == Ok(LoadedSession(Session(sessionId, years.0, years.1, SessionLabel(years.0, years.1)), attached, ras));
    forall i | 0 <= i < |rolesFile.roles| ensures rolesFile.roles[i].memberId in RowIds(membersFile.members) {
      assert ras[i].memberId in members;
    }
  }

  /** Each loaded member is stored under its id and holds exactly its own assignments, in file order. */
  lemma LoadSessionMembers(sessionId: string, membersFile: MembersFile, rolesFile: RolesFile)
    requires LoadSession(sessionId, membersFile, rolesFile).Ok?
    ensures var l := LoadSession(sessionId, membersFile, rolesFile).value;
      forall id :: id in l.members ==>
        l.members[id].memberId == id && l.members[id].roles == AssignmentsOf(l.roleAssignments, id)
  {
    var members := AddMembers(map[], membersFile.members).value;
    var ras := Assignments(sessionId, rolesFile.roles);
    AddMembersShape(map[], membersFile.members);
    AttachAppends(members, ras);
  }
}
