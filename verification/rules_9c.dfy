/**
  The travel allowance under section 9C of chapter 3 of the Massachusetts
  General Laws (models/rules_9c.py, config/travel_config.py): a flat amount
  chosen by comparing the member's distance from the State House with a
  threshold.
 */
module Rules9C {
  import opened Wrappers
  import opened Core

  /** `TravelRule`: the threshold in miles and the amounts at or below it and above it. */
  datatype TravelRule = TravelRule(distanceThresholdMiles: real, amountLeqThreshold: int, amountGtThreshold: int)

  /** `TRAVEL_RULE_9C`. */
  const TRAVEL_RULE_9C: TravelRule := TravelRule(50.0, 15_000, 20_000)

  /**
    `TravelAllowance`. The source keeps the distance as an optional float;
    only its comparison with the threshold matters, so it is an exact real.
    The free-text `rule_applied` is not modelled.
   */
  datatype TravelAllowance = TravelAllowance(memberId: string, sessionId: string, amount: int, distanceMiles: Option<real>)

  /** The message of the `ValueError` raised for a member without a distance. */
  function MissingDistanceMessage(memberId: string): string {
    "Missing distance_miles_from_state_house for member " + memberId
  }

  /** `travel_9c_for_member`. */
  function Travel9CForMember(member: Member, session: Session): (r: Result<TravelAllowance>)
    ensures r.Err? <==> member.distanceMiles.None?
    ensures r.Err? ==> r.error == ValueError(MissingDistanceMessage(member.memberId))
    ensures r.Ok? ==>
      && r.value.memberId == member.memberId
      && r.value.sessionId == session.id
      && r.value.distanceMiles == member.distanceMiles
    ensures r.Ok? && member.distanceMiles.value <= 50.0 ==> r.value.amount == 15_000
    ensures r.Ok? && member.distanceMiles.value > 50.0 ==> r.value.amount == 20_000
  {
    match member.distanceMiles
    case None => Err(ValueError(MissingDistanceMessage(member.memberId)))
    case Some(d) =>
      var rule := TRAVEL_RULE_9C;
      var amount := if d <= rule.distanceThresholdMiles then rule.amountLeqThreshold else rule.amountGtThreshold;
      Ok(TravelAllowance(member.memberId, session.id, amount, Some(d)))
  }

  /**
    The allowance takes only the two values, and a member who lives farther
    away is never allowed less.
   */
  lemma TravelMonotone(m1: Member, m2: Member, session: Session)
    requires m1.distanceMiles.Some? && m2.distanceMiles.Some?
    requires m1.distanceMiles.value <= m2.distanceMiles.value
    ensures Travel9CForMember(m1, session).Ok? && Travel9CForMember(m2, session).Ok?
    ensures Travel9CForMember(m1, session).value.amount in {15_000, 20_000}
    ensures Travel9CForMember(m1, session).value.amount <= Travel9CForMember(m2, session).value.amount
  {
  }

  /** A member exactly at the threshold gets the lower amount. */
  lemma AtThreshold(member: Member, session: Session)
    requires member.distanceMiles == Some(50.0)
    ensures Travel9CForMember(member, session).value.amount == 15_000
  {
  }
}
