/**
  Role stipends under section 9B of chapter 3 of the Massachusetts General
  Laws (models/rules_9b.py): pricing one role assignment from its catalog
  tier, and collecting the priced roles a member holds in a session.

  The paid-role selection that decides which priced roles are actually paid
  is referenced by the source but defined nowhere in it; it is a parameter
  here (`Selector`), constrained only by the examples the unit tests assert.
 */
module Rules9B {
  import opened Wrappers
  import opened Provenance
  import opened Core
  import opened RoleCatalog

  /**
    `RoleStipend`. The source types the amount as an integer, but the total
    compensation treats it as an amount with provenance; it is an `Amount`
    here, and pricing attaches no citation to it. The free-text `reason` is
    not modelled.
   */
  datatype RoleStipend = RoleStipend(roleCode: string, sessionId: string, amount: Amount)

  /** `_session_adjustment_factor`: a placeholder that is 1.0 for every session. */
  function SessionAdjustmentFactor(session: Session): (f: real)
    ensures f == 1.0
  {
    1.0
  }

  /** Rounding a whole number of dollars scaled by a factor of 1.0 gives it back. */
  lemma UnitFactorKeepsAmount(n: int, factor: real)
    requires factor == 1.0
    ensures RoundHalfEven(n as real * factor) == n
  {
    assert n as real * factor == n as real;
    var r := RoundHalfEven(n as real);
    assert -1 < r - n < 1;
  }

  /**
    `stipend_for_role_assignment`: look the role up (an unknown code
    propagates the lookup's `KeyError`), give nothing for a role without a
    tier, and otherwise price the tier's base amount by the session factor.
   */
  function StipendForRoleAssignment(a: RoleAssignment, session: Session): (r: Result<Option<RoleStipend>>)
    ensures GetRoleDefinition(a.roleCode).Err? ==> r == Err(KeyError(a.roleCode))
    ensures GetRoleDefinition(a.roleCode).Ok? ==>
      var def := GetRoleDefinition(a.roleCode).value;
      && (def.stipendTierId.None? ==> r == Ok(None))
      && (def.stipendTierId.Some? && GetBaseAmount(def.stipendTierId.value).Err? ==> r.Err?)
      && (def.stipendTierId.Some? && GetBaseAmount(def.stipendTierId.value).Ok? ==>
            r.Ok? && r.value.Some? &&
            r.value.value.roleCode == a.roleCode && r.value.value.sessionId == a.sessionId &&
            r.value.value.amount == Amount(GetBaseAmount(def.stipendTierId.value).value, {}))
    ensures r.Ok? && r.value.Some? ==> r.value.value.roleCode == a.roleCode && r.value.value.sessionId == a.sessionId
  {
    var def :- GetRoleDefinition(a.roleCode);
    if def.stipendTierId.None? then Ok(None)
    else
      var tier :- GetBaseAmount(def.stipendTierId.value);
      var adjusted := RoundHalfEven(tier as real * SessionAdjustmentFactor(session));
      UnitFactorKeepsAmount(tier, SessionAdjustmentFactor(session));
      Ok(Some(RoleStipend(a.roleCode, a.sessionId, Amount(adjusted, {}))))
  }

  /**
    Every catalogued role is priced, at the base amount of the tier its kind
    of office carries, whatever the session.
   */
  lemma CatalogRolePriced(c: RoleCode, memberId: string, sessionId: string, session: Session)
    ensures StipendForRoleAssignment(RoleAssignment(memberId, RoleCodeValue(c), sessionId), session)
      == Ok(Some(RoleStipend(RoleCodeValue(c), sessionId, Amount(TierBaseAmount(StatutoryTier(c)), {}))))
  {
    GetRoleDefinitionEntry(c);
    CatalogTiers(c);
  }

  /** The assignments that belong to the session, in order. */
  function InSession(roles: seq<RoleAssignment>, sessionId: string): (r: seq<RoleAssignment>)
    ensures |r| <= |roles|
    ensures forall x :: x in r <==> x in roles && x.sessionId == sessionId
  {
    if |roles| == 0 then []
    else if roles[0].sessionId == sessionId then [roles[0]] + InSession(roles[1..], sessionId)
    else InSession(roles[1..], sessionId)
  }

  /** How one assignment is priced; `StipendForRoleAssignment` for a fixed session. */
  type Pricer = RoleAssignment -> Result<Option<RoleStipend>>

  /**
    The loop of `raw_role_stipends_for_member`, for any pricing: skip the
    assignments of other sessions, price the others in order, stop at the
    first failure, and keep the stipends that exist.
   */
  function Collect(roles: seq<RoleAssignment>, sessionId: string, price: Pricer): (r: Result<seq<RoleStipend>>)
    ensures r.Ok? ==> |r.value| <= |roles|
    ensures r.Ok? ==> forall s :: s in r.value ==>
      exists x :: x in roles && x.sessionId == sessionId && price(x) == Ok(Some(s))
    decreases |roles|
  {
    if |roles| == 0 then Ok([])
    else if roles[0].sessionId != sessionId then
      var r := Collect(roles[1..], sessionId, price);
      assert forall x :: x in roles[1..] ==> x in roles;
      r
    else
      var head :- price(roles[0]);
      var rest :- Collect(roles[1..], sessionId, price);
      assert forall x :: x in roles[1..] ==> x in roles;
      Ok(if head.Some? then [head.value] + rest else rest)
  }

  /**
    Collecting over a concatenation: the first part's failure wins, then the
    second's; otherwise the stipends come out in input order.
   */
  lemma {:induction false} CollectAppend(a: seq<RoleAssignment>, b: seq<RoleAssignment>, sessionId: string, price: Pricer)
    ensures Collect(a + b, sessionId, price) ==
      match Collect(a, sessionId, price)
      case Err(e) => Err(e)
      case Ok(ra) =>
        match Collect(b, sessionId, price)
        case Err(e) => Err(e)
        case Ok(rb) => Ok(ra + rb)
    decreases |a|
  {
    if |a| == 0 {
      assert a + b == b;
      if Collect(b, sessionId, price).Ok? {
        assert [] + Collect(b, sessionId, price).value == Collect(b, sessionId, price).value;
      }
    } else {
      assert (a + b)[0] == a[0];
      assert (a + b)[1..] == a[1..] + b;
      CollectAppend(a[1..], b, sessionId, price);
      if a[0].sessionId == sessionId {
        var head := price(a[0]);
        if head.Ok? && Collect(a[1..], sessionId, price).Ok? && Collect(b, sessionId, price).Ok? {
          var ra := Collect(a[1..], sessionId, price).value;
          var rb := Collect(b, sessionId, price).value;
          if head.value.Some? {
            assert [head.value.value] + (ra + rb) == ([head.value.value] + ra) + rb;
          }
        }
      }
    }
  }

  /** Collecting a single assignment. */
  lemma CollectSingle(x: RoleAssignment, sessionId: string, price: Pricer)
    ensures Collect([x], sessionId, price) ==
      if x.sessionId != sessionId then Ok([])
      else match price(x)
        case Err(e) => Err(e)
        case Ok(None) => Ok([])
        case Ok(Some(s)) => Ok([s])
  {
    assert [x][1..] == [];
    assert Collect([x][1..], sessionId, price) == Ok([]);
    if price(x).Ok? && price(x).value.Some? {
      assert [price(x).value.value] + [] == [price(x).value.value];
    }
  }

  /** Assignments of other sessions never matter: collecting over the session's own gives the same. */
  lemma {:induction false} CollectIgnoresOtherSessions(roles: seq<RoleAssignment>, sessionId: string, price: Pricer)
    ensures Collect(roles, sessionId, price) == Collect(InSession(roles, sessionId), sessionId, price)
    decreases |roles|
  {
    if |roles| > 0 {
      CollectIgnoresOtherSessions(roles[1..], sessionId, price);
      if roles[0].sessionId == sessionId {
        var t := InSession(roles, sessionId);
        assert t == [roles[0]] + InSession(roles[1..], sessionId);
        assert t[0] == roles[0] && t[1..] == InSession(roles[1..], sessionId);
      }
    }
  }

  /**
    Collecting fails exactly when pricing fails for some assignment of the
    session, and then with the error of the first such assignment.
   */
  lemma {:induction false} CollectFailure(roles: seq<RoleAssignment>, sessionId: string, price: Pricer)
    ensures Collect(roles, sessionId, price).Err? <==>
      exists i :: 0 <= i < |roles| && roles[i].sessionId == sessionId && price(roles[i]).Err?
    ensures Collect(roles, sessionId, price).Err? ==>
      exists i :: 0 <= i < |roles| && roles[i].sessionId == sessionId &&
        price(roles[i]).Err? && Collect(roles, sessionId, price).error == price(roles[i]).error &&
        forall j :: 0 <= j < i && roles[j].sessionId == sessionId ==> price(roles[j]).Ok?
    decreases |roles|
  {
    if |roles| > 0 {
      CollectFailure(roles[1..], sessionId, price);
      var fails := (i: int) => 0 <= i < |roles| && roles[i].sessionId == sessionId && price(roles[i]).Err?;
      if exists j :: (0 <= j < |roles[1..]| && roles[1..][j].sessionId == sessionId && price(roles[1..][j]).Err?) {
        var j :| 0 <= j < |roles[1..]| && roles[1..][j].sessionId == sessionId && price(roles[1..][j]).Err?;
        assert fails(j + 1);
      }
      if exists i :: fails(i) {
        var i :| fails(i);
        if i > 0 {
          assert roles[1..][i - 1] == roles[i];
        }
      }
      if Collect(roles, sessionId, price).Err? && !(roles[0].sessionId == sessionId && price(roles[0]).Err?) {
        var i :| 0 <= i < |roles[1..]| && roles[1..][i].sessionId == sessionId &&
          price(roles[1..][i]).Err? && Collect(roles[1..], sessionId, price).error == price(roles[1..][i]).error &&
          forall j :: 0 <= j < i && roles[1..][j].sessionId == sessionId ==> price(roles[1..][j]).Ok?;
        forall j | 0 <= j < i + 1 && roles[j].sessionId == sessionId ensures price(roles[j]).Ok? {
          if j > 0 {
            assert roles[j] == roles[1..][j - 1];
          }
        }
        assert roles[i + 1] == roles[1..][i];
      }
    }
  }

  /** `raw_role_stipends_for_member`, with pricing fixed to the session. */
  function RawRoleStipends(roles: seq<RoleAssignment>, session: Session): (r: Result<seq<RoleStipend>>) {
    Collect(roles, session.id, (a: RoleAssignment) => StipendForRoleAssignment(a, session))
  }

  /**
    The raw stipends are no more than the assignments, each belongs to the
    session and stems from one of the member's assignments of that session
    and carries its role code.
   */
  lemma RawRoleStipendsShape(roles: seq<RoleAssignment>, session: Session)
    ensures var r := RawRoleStipends(roles, session);
      r.Ok? ==> |r.value| <= |roles|
    ensures var r := RawRoleStipends(roles, session);
      r.Ok? ==> forall s :: s in r.value ==>
        s.sessionId == session.id &&
        exists x :: x in roles && x.sessionId == session.id && x.roleCode == s.roleCode
  {
    var price := (a: RoleAssignment) => StipendForRoleAssignment(a, session);
    var r := Collect(roles, session.id, price);
    if r.Ok? {
      forall s | s in r.value
        ensures s.sessionId == session.id &&
          exists x :: x in roles && x.sessionId == session.id && x.roleCode == s.roleCode
      {
        var x :| x in roles && x.sessionId == session.id && price(x) == Ok(Some(s));
        var px := StipendForRoleAssignment(x, session);
        assert px == Ok(Some(s));
        assert s.roleCode == x.roleCode;
      }
    }
  }

  /**
    Collecting the raw stipends fails exactly when some assignment of the
    session names a role the catalog does not know; a catalogued role is
    never dropped.
   */
  lemma RawRoleStipendsFailure(roles: seq<RoleAssignment>, session: Session)
    ensures RawRoleStipends(roles, session).Err? <==>
      exists i :: 0 <= i < |roles| && roles[i].sessionId == session.id &&
        GetRoleDefinition(roles[i].roleCode).Err?
  {
    var price := (a: RoleAssignment) => StipendForRoleAssignment(a, session);
    CollectFailure(roles, session.id, price);
    forall i | 0 <= i < |roles|
      ensures price(roles[i]).Err? <==> GetRoleDefinition(roles[i].roleCode).Err?
    {
      if GetRoleDefinition(roles[i].roleCode).Ok? {
        CatalogDefinitionPriced(roles[i], session);
      }
    }
  }

  /** A role the catalog knows is always priced to some stipend. */
  lemma CatalogDefinitionPriced(a: RoleAssignment, session: Session)
    requires GetRoleDefinition(a.roleCode).Ok?
    ensures StipendForRoleAssignment(a, session).Ok?
    ensures StipendForRoleAssignment(a, session).value.Some?
  {
    var c := GetRoleDefinition(a.roleCode).value.code;
    CatalogRolePriced(c, a.memberId, a.sessionId, session);
  }

  /**
    The loop of `raw_role_stipends_for_member` over the member's roles, for
    any pricing: it returns at the first failure and otherwise appends each
    stipend that exists.
   */
  method CollectLoop(roles: seq<RoleAssignment>, sessionId: string, price: Pricer) returns (r: Result<seq<RoleStipend>>)
    ensures r == Collect(roles, sessionId, price)
  {
    var stipends: seq<RoleStipend> := [];
    var i := 0;
    while i < |roles|
      invariant 0 <= i <= |roles|
      invariant Collect(roles[..i], sessionId, price) == Ok(stipends)
    {
      var ra := roles[i];
      CollectStep(roles, i, sessionId, price, stipends);
      if ra.sessionId != sessionId {
        i := i + 1;
        continue;
      }
      var rs := price(ra);
      if rs.Err? {
        CollectErrPrefix(roles, i + 1, sessionId, price);
        return Err(rs.error);
      }
      stipends := stipends + (if rs.value.Some? then [rs.value.value] else []);
      i := i + 1;
    }
    assert roles[..i] == roles;
    return Ok(stipends);
  }

  /** One more assignment: skipped, failed on, or appended to the stipends so far. */
  lemma CollectStep(roles: seq<RoleAssignment>, i: int, sessionId: string, price: Pricer, acc: seq<RoleStipend>)
    requires 0 <= i < |roles| && Collect(roles[..i], sessionId, price) == Ok(acc)
    ensures roles[i].sessionId != sessionId ==> Collect(roles[..i + 1], sessionId, price) == Ok(acc)
    ensures roles[i].sessionId == sessionId && price(roles[i]).Err? ==>
      Collect(roles[..i + 1], sessionId, price) == Err(price(roles[i]).error)
    ensures roles[i].sessionId == sessionId && price(roles[i]).Ok? ==>
      Collect(roles[..i + 1], sessionId, price)
        == Ok(acc + (if price(roles[i]).value.Some? then [price(roles[i]).value.value] else []))
  {
    CollectAppend(roles[..i], [roles[i]], sessionId, price);
    CollectSingle(roles[i], sessionId, price);
    assert roles[..i + 1] == roles[..i] + [roles[i]];
    assert acc + [] == acc;
  }

  /** Once a prefix fails, the whole collection fails the same way. */
  lemma CollectErrPrefix(roles: seq<RoleAssignment>, i: int, sessionId: string, price: Pricer)
    requires 0 <= i <= |roles| && Collect(roles[..i], sessionId, price).Err?
    ensures Collect(roles, sessionId, price) == Collect(roles[..i], sessionId, price)
  {
    CollectAppend(roles[..i], roles[i..], sessionId, price);
    assert roles[..i] + roles[i..] == roles;
  }

  /** `raw_role_stipends_for_member`: the loop, with pricing fixed to the session. */
  method RawRoleStipendsForMember(member: Member, session: Session) returns (r: Result<seq<RoleStipend>>)
    ensures r == RawRoleStipends(member.roles, session)
  {
    r := CollectLoop(member.roles, session.id, (a: RoleAssignment) => StipendForRoleAssignment(a, session));
  }

  /** A House member holding only the Speaker's role gets one raw stipend: the Speaker's, at 80,000. */
  lemma SpeakerOnlyExample(member: Member, session: Session)
    requires member.chamber == HOUSE
    requires member.roles == [RoleAssignment(member.memberId, RoleCodeValue(SPEAKER), session.id)]
    ensures RawRoleStipends(member.roles, session) ==
      Ok([RoleStipend(RoleCodeValue(SPEAKER), session.id, Amount(80_000, {}))])
  {
    CatalogRolePriced(SPEAKER, member.memberId, session.id, session);
    CollectSingle(member.roles[0], session.id, (a: RoleAssignment) => StipendForRoleAssignment(a, session));
  }

  // ---------------------------------------------------------------------
  // Paid-role selection (abstract)

  /** A record of one role the selection considered, with the citations behind the decision. */
  datatype SelectionRecord = SelectionRecord(roleCode: string, selected: bool, sources: set<SourceRef>)

  /** What the selection returns: the paid stipends and one record per considered role. */
  datatype PaidRoleSelection = PaidRoleSelection(paidRoles: seq<RoleStipend>, provenance: seq<SelectionRecord>)

  /** `select_paid_roles_for_member`, supplied by the caller. */
  type Selector = (Member, Session) -> Result<PaidRoleSelection>

  /** The amounts of the paid stipends, in order. */
  function PaidAmounts(sel: PaidRoleSelection): (r: seq<Amount>)
    ensures |r| == |sel.paidRoles|
    ensures forall i :: 0 <= i < |r| ==> r[i] == sel.paidRoles[i].amount
  {
    seq(|sel.paidRoles|, i requires 0 <= i < |sel.paidRoles| => sel.paidRoles[i].amount)
  }

  /** The value of the 9B stipends a selection pays: `stipend_9b_for_member`. */
  function PaidTotal(sel: PaidRoleSelection): int {
    Sum(PaidAmounts(sel)).value
  }

  /** The role codes a selection pays, as a set. */
  function PaidCodes(sel: PaidRoleSelection): set<string> {
    set r | r in sel.paidRoles :: r.roleCode
  }

  /** The House member the unit tests build, holding the given roles in one session. */
  function TestMember(name: string, distance: Option<real>, codes: seq<RoleCode>, session: Session): Member {
    Member("H001", name, HOUSE, DEMOCRAT, distance,
      seq(|codes|, i requires 0 <= i < |codes| => RoleAssignment("H001", RoleCodeValue(codes[i]), session.id)))
  }

  /**
    What the unit tests assert of the selection, for every session: the
    Speaker alone is paid 80,000; the Speaker who also chairs Education is
    paid 110,000 for the two; a member holding the Education and Judiciary
    chairs and the assistant majority leadership is paid for exactly two
    roles, the assistant leadership among them.
   */
  ghost predicate MeetsTestExamples(select: Selector) {
    forall session: Session ::
      && (var r := select(TestMember("Test Speaker", Some(10.0), [SPEAKER], session), session);
          r.Ok? && PaidTotal(r.value) == 80_000)
      && (var r := select(TestMember("Test Speaker", None, [SPEAKER, HOUSE_EDUCATION_CHAIR], session), session);
          r.Ok? && PaidTotal(r.value) == 80_000 + 30_000)
      && (var r := select(TestMember("Multi-Role Member", None,
                   [HOUSE_EDUCATION_CHAIR, HOUSE_JUDICIARY_CHAIR, HOUSE_ASSISTANT_MAJORITY_LEADER], session), session);
          r.Ok? && |PaidCodes(r.value)| == 2 && RoleCodeValue(HOUSE_ASSISTANT_MAJORITY_LEADER) in PaidCodes(r.value))
  }
}
