/**
  Total compensation (models/total_comp.py, config/base_salary.py): the
  base salary, the paid 9B stipends and the 9C travel allowance, each an
  amount with its citations, and their sum.
 */
module TotalComp {
  import opened Wrappers
  import opened Provenance
  import opened Core
  import opened SourcesRegistry
  import opened Rules9B
  import opened Rules9C

  /** `CompLabels`. */
  const BASE_SALARY_LABEL := "Base salary (Article CXVIII)"
  const STIPENDS_9B_LABEL := "Stipends (Section 9B)"
  const TRAVEL_9C_LABEL := "Travel (Section 9C)"

  /** `Component`: a labelled amount. */
  datatype Component = Component(labelText: string, amount: Amount)

  /** `TotalCompResult`. */
  datatype TotalCompResult = TotalCompResult(memberId: string, sessionId: string, components: seq<Component>, total: Amount)

  /** `BaseSalary`. */
  datatype BaseSalary = BaseSalary(sessionId: string, amount: Amount, note: string)

  /** `base_salary_for_session`: a placeholder of 75,000 citing Article CXVIII, whatever the session. */
  function BaseSalaryForSession(session: Session): (b: BaseSalary)
    ensures b.sessionId == session.id
    ensures b.amount.value == 75_000 && b.amount.sources == {ARTICLE_CXVIII_BASE}
  {
    BaseSalary(session.id, From(75_000, [ARTICLE_CXVIII_BASE]), "Base salary")
  }

  /** The union the loop over `selection.provenance` accumulates. */
  function SelectionSources(records: seq<SelectionRecord>): (r: set<SourceRef>)
    ensures forall s :: s in r <==> exists i :: 0 <= i < |records| && s in records[i].sources
    decreases |records|
  {
    if |records| == 0 then {}
    else
      var init := records[..|records| - 1];
      var r := SelectionSources(init) + records[|records| - 1].sources;
      assert forall i :: 0 <= i < |init| ==> init[i] == records[i];
      r
  }

  /** The 9B component: the paid amounts' sum, citing also every selection record. */
  function Stipends9B(sel: PaidRoleSelection): Amount {
    var paid := Sum(PaidAmounts(sel));
    Amount(paid.value, paid.sources + SelectionSources(sel.provenance))
  }

  /** The three component amounts, in order. */
  function ComponentAmounts(components: seq<Component>): seq<Amount> {
    seq(|components|, i requires 0 <= i < |components| => components[i].amount)
  }

  /**
    `total_comp_for_member` as evidently intended: the base component is
    the base salary's amount rather than the whole record, the 9B sum reads
    the stipends as amounts, and the travel allowance's integer becomes an
    amount with no citation. The selection runs before the travel rule, so
    its failure is reported first. `TotalCompForMemberAsWritten` below is
    the code as written.
   */
  function TotalCompForMember(member: Member, session: Session, select: Selector): (r: Result<TotalCompResult>)
    ensures r.Err? <==> select(member, session).Err? || member.distanceMiles.None?
    ensures r.Ok? ==>
      && r.value.memberId == member.memberId
      && r.value.sessionId == session.id
      && |r.value.components| == 3
      && r.value.components[0].labelText == BASE_SALARY_LABEL
      && r.value.components[1].labelText == STIPENDS_9B_LABEL
      && r.value.components[2].labelText == TRAVEL_9C_LABEL
    ensures r.Ok? ==>
      var c := r.value.components;
      && r.value.total.value == c[0].amount.value + c[1].amount.value + c[2].amount.value
      && r.value.total.sources == c[0].amount.sources + c[1].amount.sources + c[2].amount.sources
  {
    var base := BaseSalaryForSession(session);
    var selection :- select(member, session);
    var stipends := Stipends9B(selection);
    var travel :- Travel9CForMember(member, session);
    var comps := [
      Component(BASE_SALARY_LABEL, base.amount),
      Component(STIPENDS_9B_LABEL, stipends),
      Component(TRAVEL_9C_LABEL, Amount(travel.amount, {}))];
    var amounts := ComponentAmounts(comps);
    assert amounts == [base.amount, stipends, Amount(travel.amount, {})];
    SumThree(base.amount, stipends, Amount(travel.amount, {}));
    Ok(TotalCompResult(member.memberId, session.id, comps, Sum(amounts)))
  }

  /**
    The components in detail: the base is 75,000 citing Article CXVIII
    alone; the 9B component is worth the paid stipends and cites their
    sources and every selection record's, selected or not; travel is the 9C
    amount with no citation.
   */
  lemma ComponentsInDetail(member: Member, session: Session, select: Selector)
    requires select(member, session).Ok? && member.distanceMiles.Some?
    ensures var r := TotalCompForMember(member, session, select);
      var sel := select(member, session).value;
      && r.Ok?
      && r.value.components[0].amount == Amount(75_000, {ARTICLE_CXVIII_BASE})
      && r.value.components[1].amount.value == TotalValue(PaidAmounts(sel))
      && r.value.components[1].amount.sources ==
           AllSources(PaidAmounts(sel)) + (set i, s | 0 <= i < |sel.provenance| && s in sel.provenance[i].sources :: s)
      && r.value.components[2].amount == Amount(Travel9CForMember(member, session).value.amount, {})
  {
    var sel := select(member, session).value;
    SumIsTotalAndUnion(PaidAmounts(sel));
  }

  /**
    The House Speaker living 10 miles away earns 75,000 + 80,000 + 15,000 =
    170,000, for any selection that pays the unit tests' Speaker 80,000.
   */
  lemma SpeakerTotalExample(session: Session, select: Selector)
    requires MeetsTestExamples(select)
    ensures var r := TotalCompForMember(TestMember("Test Speaker", Some(10.0), [SPEAKER], session), session, select);
      r.Ok? && r.value.total.value == 170_000
      && r.value.components[0].amount.value == 75_000
      && r.value.components[1].amount.value == 80_000
      && r.value.components[2].amount.value == 15_000
  {
    var member := TestMember("Test Speaker", Some(10.0), [SPEAKER], session);
    assert select(member, session).Ok? && PaidTotal(select(member, session).value) == 80_000;
  }

  // ---------------------------------------------------------------------
  // The total as written

  /**
    What `ap_sum` is handed in `total_comp_for_member` as written: an amount
    with provenance, a plain integer (`RoleStipend.amount` and
    `TravelAllowance.amount` are typed `int`) or a whole `BaseSalary`
    record. Only an amount has the `value` attribute `ap_add` reads.
   */
  datatype Operand = AmountOperand(amount: Amount) | IntOperand(n: int) | RecordOperand(base: BaseSalary)

  /** The Python type name an `AttributeError` reports for an operand. */
  function TypeName(x: Operand): string {
    match x
    case AmountOperand(_) => "AmountWithProvenance"
    case IntOperand(_) => "int"
    case RecordOperand(_) => "BaseSalary"
  }

  /** The operands that are amounts, as amounts. */
  function OperandAmounts(xs: seq<Operand>): seq<Amount>
    requires forall i :: 0 <= i < |xs| ==> xs[i].AmountOperand?
  {
    seq(|xs|, i requires 0 <= i < |xs| => xs[i].amount)
  }

  /**
    `ap_sum` over operands of any type: `ap_add(total, a)` reads `a.value`,
    so the first operand that is not an amount raises `AttributeError`;
    operands that are all amounts are summed as usual.
   */
  function SumOperands(xs: seq<Operand>): (r: Result<Amount>)
    ensures r.Ok? <==> forall i :: 0 <= i < |xs| ==> xs[i].AmountOperand?
    ensures r.Ok? ==> r.value == Sum(OperandAmounts(xs))
    ensures r.Err? ==> exists i ::
      && 0 <= i < |xs|
      && (forall j :: 0 <= j < i ==> xs[j].AmountOperand?)
      && !xs[i].AmountOperand?
      && r.error == AttributeError(TypeName(xs[i]), "value")
    decreases |xs|
  {
    if |xs| == 0 then Ok(Zero())
    else
      var init := xs[..|xs| - 1];
      assert forall i :: 0 <= i < |init| ==> init[i] == xs[i];
      var total :- SumOperands(init);
      var last := xs[|xs| - 1];
      if last.AmountOperand? then
        assert OperandAmounts(xs)[..|xs| - 1] == OperandAmounts(init);
        Ok(Add(total, last.amount))
      else
        Err(AttributeError(TypeName(last), "value"))
  }

  /** A first operand that is not an amount is the one that raises. */
  lemma SumOperandsFirstRaises(xs: seq<Operand>)
    requires |xs| > 0 && !xs[0].AmountOperand?
    ensures SumOperands(xs) == Err(AttributeError(TypeName(xs[0]), "value"))
  {
    var r := SumOperands(xs);
    var i :| 0 <= i < |xs| && (forall j :: 0 <= j < i ==> xs[j].AmountOperand?)
      && !xs[i].AmountOperand? && r.error == AttributeError(TypeName(xs[i]), "value");
    assert i == 0;
  }

  /** On amounts alone, the operand sum is the ordinary `Sum`. */
  lemma SumOperandsOfAmounts(amounts: seq<Amount>)
    ensures SumOperands(seq(|amounts|, i requires 0 <= i < |amounts| => AmountOperand(amounts[i]))) == Ok(Sum(amounts))
  {
    var xs := seq(|amounts|, i requires 0 <= i < |amounts| => AmountOperand(amounts[i]));
    assert OperandAmounts(xs) == amounts;
  }

  /** The paid stipends as `ap_sum` receives them: their integer amounts. */
  function PaidOperands(sel: PaidRoleSelection): (r: seq<Operand>)
    ensures |r| == |sel.paidRoles|
    ensures forall i :: 0 <= i < |r| ==> r[i] == IntOperand(sel.paidRoles[i].amount.value)
  {
    seq(|sel.paidRoles|, i requires 0 <= i < |sel.paidRoles| => IntOperand(sel.paidRoles[i].amount.value))
  }

  /** The 9B sum as written raises on the first paid stipend, and is zero when none is paid. */
  lemma PaidOperandsSum(sel: PaidRoleSelection)
    ensures |sel.paidRoles| > 0 ==> SumOperands(PaidOperands(sel)) == Err(AttributeError("int", "value"))
    ensures |sel.paidRoles| == 0 ==> SumOperands(PaidOperands(sel)) == Ok(Zero())
  {
    if |sel.paidRoles| > 0 {
      SumOperandsFirstRaises(PaidOperands(sel));
    }
  }

  /**
    The total of `total_comp_for_member` as written. The 9B sum is handed
    the paid stipends' integer amounts; the final sum is handed the
    `BaseSalary` record itself, the 9B amount and the travel allowance's
    integer amount. Every call therefore raises: the selection's own
    failure, then `AttributeError` on the first paid stipend, then the
    missing-distance `ValueError`, and otherwise `AttributeError` on the
    base salary record.
   */
  function TotalCompForMemberAsWritten(member: Member, session: Session, select: Selector): (r: Result<Amount>)
    ensures r.Err?
    ensures select(member, session).Err? ==> r == Err(select(member, session).error)
    ensures select(member, session).Ok? && |select(member, session).value.paidRoles| > 0 ==>
      r == Err(AttributeError("int", "value"))
    ensures select(member, session).Ok? && |select(member, session).value.paidRoles| == 0 && member.distanceMiles.None? ==>
      r == Err(ValueError(MissingDistanceMessage(member.memberId)))
    ensures select(member, session).Ok? && |select(member, session).value.paidRoles| == 0 && member.distanceMiles.Some? ==>
      r == Err(AttributeError("BaseSalary", "value"))
  {
    var base := BaseSalaryForSession(session);
    var selection :- select(member, session);
    PaidOperandsSum(selection);
    var paid :- SumOperands(PaidOperands(selection));
    var stipends := Amount(paid.value, paid.sources + SelectionSources(selection.provenance));
    var travel :- Travel9CForMember(member, session);
    var operands := [RecordOperand(base), AmountOperand(stipends), IntOperand(travel.amount)];
    SumOperandsFirstRaises(operands);
    SumOperands(operands)
  }

  /**
    Whenever the repaired total exists, the total as written raises instead:
    on the first paid stipend if the selection pays any role, and otherwise
    on the base salary record.
   */
  lemma TotalCompAsWrittenRaises(member: Member, session: Session, select: Selector)
    requires TotalCompForMember(member, session, select).Ok?
    ensures TotalCompForMemberAsWritten(member, session, select).Err?
    ensures TotalCompForMemberAsWritten(member, session, select).error.AttributeError?
  {
  }

  /**
    The unit tests' Speaker, 10 miles away, totals 170,000 in the repaired
    model but raises `AttributeError` on the integer 9B amount as written.
   */
  lemma SpeakerTotalAsWritten(session: Session, select: Selector)
    requires MeetsTestExamples(select)
    ensures var member := TestMember("Test Speaker", Some(10.0), [SPEAKER], session);
      TotalCompForMemberAsWritten(member, session, select) == Err(AttributeError("int", "value"))
  {
    var member := TestMember("Test Speaker", Some(10.0), [SPEAKER], session);
    var sel := select(member, session).value;
    assert PaidTotal(sel) == 80_000;
    if |sel.paidRoles| == 0 {
      assert false;
    }
  }
}
