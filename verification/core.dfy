/**
  The enumerations and records of models/core.py: chambers, parties, role
  domains, committee role types, the eighteen priced role codes and the
  eight stipend tiers with their base amounts.
 */
module Core {
  import opened Wrappers

  // ---------------------------------------------------------------------
  // Chamber

  datatype Chamber = HOUSE | SENATE | JOINT

  /** `Chamber.value`. */
  function ChamberValue(c: Chamber): string {
    match c
    case HOUSE => "house"
    case SENATE => "senate"
    case JOINT => "joint"
  }

  /** `Chamber(value)`: the member whose value is exactly `s`, if any. */
  function ChamberOfValue(s: string): (r: Option<Chamber>)
    ensures r.Some? ==> ChamberValue(r.value) == s
  {
    if s == "house" then Some(HOUSE)
    else if s == "senate" then Some(SENATE)
    else if s == "joint" then Some(JOINT)
    else None
  }

  /** The enumeration has exactly the three values house, senate and joint. */
  lemma ChamberValues()
    ensures forall c: Chamber :: ChamberValue(c) in ["house", "senate", "joint"]
    ensures forall c: Chamber :: ChamberOfValue(ChamberValue(c)) == Some(c)
    ensures forall s :: ChamberOfValue(s).Some? <==> s in ["house", "senate", "joint"]
  {
    forall c: Chamber ensures ChamberOfValue(ChamberValue(c)) == Some(c) {
      match c
      case HOUSE =>
      case SENATE =>
      case JOINT =>
    }
  }

  // ---------------------------------------------------------------------
  // Party, role domain, committee role type

  datatype Party = DEMOCRAT | REPUBLICAN | OTHER | UNKNOWN

  /** `Party.value`. */
  function PartyValue(p: Party): string {
    match p
    case DEMOCRAT => "D"
    case REPUBLICAN => "R"
    case OTHER => "Other"
    case UNKNOWN => "Unknown"
  }

  datatype RoleDomain = LEADERSHIP | COMMITTEE | PARTY_LEADERSHIP | OTHER_DOMAIN

  datatype CommitteeRoleType =
    | CHAIR
    | VICE_CHAIR
    | RANKING_MINORITY
    | ASSISTANT_VICE_CHAIR
    | ASSISTANT_RANKING_MINORITY
    | MEMBER

  // ---------------------------------------------------------------------
  // Role codes

  datatype RoleCode =
    | SPEAKER
    | SENATE_PRESIDENT
    | HOUSE_WM_CHAIR
    | SENATE_WM_CHAIR
    | HOUSE_MAJORITY_LEADER
    | HOUSE_MINORITY_LEADER
    | SENATE_MAJORITY_LEADER
    | SENATE_MINORITY_LEADER
    | HOUSE_SPEAKER_PRO_TEM
    | SENATE_SPEAKER_PRO_TEM
    | HOUSE_ASSISTANT_MAJORITY_LEADER
    | HOUSE_ASSISTANT_MINORITY_LEADER
    | HOUSE_RULES_CHAIR
    | SENATE_RULES_CHAIR
    | HOUSE_EDUCATION_CHAIR
    | SENATE_EDUCATION_CHAIR
    | HOUSE_JUDICIARY_CHAIR
    | SENATE_JUDICIARY_CHAIR

  /** The string value of a `RoleCode` (a `StrEnum`, so the value is the name). */
  function RoleCodeValue(c: RoleCode): string {
    match c
    case SPEAKER => "SPEAKER"
    case SENATE_PRESIDENT => "SENATE_PRESIDENT"
    case HOUSE_WM_CHAIR => "HOUSE_WM_CHAIR"
    case SENATE_WM_CHAIR => "SENATE_WM_CHAIR"
    case HOUSE_MAJORITY_LEADER => "HOUSE_MAJORITY_LEADER"
    case HOUSE_MINORITY_LEADER => "HOUSE_MINORITY_LEADER"
    case SENATE_MAJORITY_LEADER => "SENATE_MAJORITY_LEADER"
    case SENATE_MINORITY_LEADER => "SENATE_MINORITY_LEADER"
    case HOUSE_SPEAKER_PRO_TEM => "HOUSE_SPEAKER_PRO_TEM"
    case SENATE_SPEAKER_PRO_TEM => "SENATE_SPEAKER_PRO_TEM"
    case HOUSE_ASSISTANT_MAJORITY_LEADER => "HOUSE_ASSISTANT_MAJORITY_LEADER"
    case HOUSE_ASSISTANT_MINORITY_LEADER => "HOUSE_ASSISTANT_MINORITY_LEADER"
    case HOUSE_RULES_CHAIR => "HOUSE_RULES_CHAIR"
    case SENATE_RULES_CHAIR => "SENATE_RULES_CHAIR"
    case HOUSE_EDUCATION_CHAIR => "HOUSE_EDUCATION_CHAIR"
    case SENATE_EDUCATION_CHAIR => "SENATE_EDUCATION_CHAIR"
    case HOUSE_JUDICIARY_CHAIR => "HOUSE_JUDICIARY_CHAIR"
    case SENATE_JUDICIARY_CHAIR => "SENATE_JUDICIARY_CHAIR"
  }

  /** The role codes in declaration order. */
  const AllRoleCodes: seq<RoleCode> := [
    SPEAKER, SENATE_PRESIDENT, HOUSE_WM_CHAIR, SENATE_WM_CHAIR,
    HOUSE_MAJORITY_LEADER, HOUSE_MINORITY_LEADER, SENATE_MAJORITY_LEADER,
    SENATE_MINORITY_LEADER, HOUSE_SPEAKER_PRO_TEM, SENATE_SPEAKER_PRO_TEM,
    HOUSE_ASSISTANT_MAJORITY_LEADER, HOUSE_ASSISTANT_MINORITY_LEADER,
    HOUSE_RULES_CHAIR, SENATE_RULES_CHAIR, HOUSE_EDUCATION_CHAIR,
    SENATE_EDUCATION_CHAIR, HOUSE_JUDICIARY_CHAIR, SENATE_JUDICIARY_CHAIR]

  /**
    `RoleCode(s)`: the member whose value is exactly `s`, if any. The search
    is split on the first letter only to keep the comparisons few.
   */
  function RoleCodeOfValue(s: string): (r: Option<RoleCode>)
    ensures r.Some? ==> RoleCodeValue(r.value) == s
  {
    if |s| > 0 && s[0] == 'H' then HouseRoleCodeOfValue(s) else OtherRoleCodeOfValue(s)
  }

  function HouseRoleCodeOfValue(s: string): (r: Option<RoleCode>)
    ensures r.Some? ==> RoleCodeValue(r.value) == s
  {
    if s == "HOUSE_WM_CHAIR" then Some(HOUSE_WM_CHAIR)
    else if s == "HOUSE_MAJORITY_LEADER" then Some(HOUSE_MAJORITY_LEADER)
    else if s == "HOUSE_MINORITY_LEADER" then Some(HOUSE_MINORITY_LEADER)
    else if s == "HOUSE_SPEAKER_PRO_TEM" then Some(HOUSE_SPEAKER_PRO_TEM)
    else if s == "HOUSE_ASSISTANT_MAJORITY_LEADER" then Some(HOUSE_ASSISTANT_MAJORITY_LEADER)
    else if s == "HOUSE_ASSISTANT_MINORITY_LEADER" then Some(HOUSE_ASSISTANT_MINORITY_LEADER)
    else if s == "HOUSE_RULES_CHAIR" then Some(HOUSE_RULES_CHAIR)
    else if s == "HOUSE_EDUCATION_CHAIR" then Some(HOUSE_EDUCATION_CHAIR)
    else if s == "HOUSE_JUDICIARY_CHAIR" then Some(HOUSE_JUDICIARY_CHAIR)
    else None
  }

  function OtherRoleCodeOfValue(s: string): (r: Option<RoleCode>)
    ensures r.Some? ==> RoleCodeValue(r.value) == s
  {
    if s == "SPEAKER" then Some(SPEAKER)
    else if s == "SENATE_PRESIDENT" then Some(SENATE_PRESIDENT)
    else if s == "SENATE_WM_CHAIR" then Some(SENATE_WM_CHAIR)
    else if s == "SENATE_MAJORITY_LEADER" then Some(SENATE_MAJORITY_LEADER)
    else if s == "SENATE_MINORITY_LEADER" then Some(SENATE_MINORITY_LEADER)
    else if s == "SENATE_SPEAKER_PRO_TEM" then Some(SENATE_SPEAKER_PRO_TEM)
    else if s == "SENATE_RULES_CHAIR" then Some(SENATE_RULES_CHAIR)
    else if s == "SENATE_EDUCATION_CHAIR" then Some(SENATE_EDUCATION_CHAIR)
    else if s == "SENATE_JUDICIARY_CHAIR" then Some(SENATE_JUDICIARY_CHAIR)
    else None
  }

  /** Every code is listed once, and parsing a code's value gives the code back. */
  lemma RoleCodeValueRoundTrip(c: RoleCode)
    ensures RoleCodeOfValue(RoleCodeValue(c)) == Some(c)
  {
    if RoleCodeValue(c)[0] == 'H' {
      HouseRoundTrip(c);
    } else {
      OtherRoundTrip(c);
    }
  }

  lemma HouseRoundTrip(c: RoleCode)
    requires RoleCodeValue(c)[0] == 'H'
    ensures HouseRoleCodeOfValue(RoleCodeValue(c)) == Some(c)
  {
    match c
      case HOUSE_WM_CHAIR =>
      case HOUSE_MAJORITY_LEADER =>
      case HOUSE_MINORITY_LEADER =>
      case HOUSE_SPEAKER_PRO_TEM =>
      case HOUSE_ASSISTANT_MAJORITY_LEADER =>
      case HOUSE_ASSISTANT_MINORITY_LEADER =>
      case HOUSE_RULES_CHAIR =>
      case HOUSE_EDUCATION_CHAIR =>
      case HOUSE_JUDICIARY_CHAIR =>
      case _ =>
  }

  lemma OtherRoundTrip(c: RoleCode)
    requires RoleCodeValue(c)[0] != 'H'
    ensures OtherRoleCodeOfValue(RoleCodeValue(c)) == Some(c)
  {
    match c
      case SPEAKER =>
      case SENATE_PRESIDENT =>
      case SENATE_WM_CHAIR =>
      case SENATE_MAJORITY_LEADER =>
      case SENATE_MINORITY_LEADER =>
      case SENATE_SPEAKER_PRO_TEM =>
      case SENATE_RULES_CHAIR =>
      case SENATE_EDUCATION_CHAIR =>
      case SENATE_JUDICIARY_CHAIR =>
      case _ =>
  }

  /** Role-code values are pairwise distinct. */
  lemma RoleCodeValueInjective(a: RoleCode, b: RoleCode)
    ensures RoleCodeValue(a) == RoleCodeValue(b) <==> a == b
  {
    RoleCodeValueRoundTrip(a);
    RoleCodeValueRoundTrip(b);
  }

  /** A string that is no code's value parses to nothing. */
  lemma RoleCodeOfValueComplete(s: string)
    ensures RoleCodeOfValue(s).None? <==> forall c :: RoleCodeValue(c) != s
  {
    if RoleCodeOfValue(s).None? {
      forall c ensures RoleCodeValue(c) != s {
        RoleCodeValueRoundTrip(c);
      }
    }
  }

  /** The declaration-order list holds every code, once. */
  lemma AllRoleCodesComplete(c: RoleCode)
    ensures c in AllRoleCodes
    ensures |AllRoleCodes| == 18
    ensures forall i, j :: 0 <= i < j < |AllRoleCodes| ==> AllRoleCodes[i] != AllRoleCodes[j]
  {
  }

  // ---------------------------------------------------------------------
  // Stipend tiers

  datatype StipendTierCode = T80K | T65K | T60K | T50K | T35K | T30K | T15K | T5200

  /** The string value of a `StipendTierCode`. */
  function TierValue(t: StipendTierCode): string {
    match t
    case T80K => "T80K"
    case T65K => "T65K"
    case T60K => "T60K"
    case T50K => "T50K"
    case T35K => "T35K"
    case T30K => "T30K"
    case T15K => "T15K"
    case T5200 => "T5200"
  }

  /** `StipendTierCode(s)`: the tier whose value is exactly `s`, if any. */
  function TierOfValue(s: string): (r: Option<StipendTierCode>)
    ensures r.Some? ==> TierValue(r.value) == s
  {
    if s == "T80K" then Some(T80K)
    else if s == "T65K" then Some(T65K)
    else if s == "T60K" then Some(T60K)
    else if s == "T50K" then Some(T50K)
    else if s == "T35K" then Some(T35K)
    else if s == "T30K" then Some(T30K)
    else if s == "T15K" then Some(T15K)
    else if s == "T5200" then Some(T5200)
    else None
  }

  /** The tiers in declaration order. */
  const AllTiers: seq<StipendTierCode> := [T80K, T65K, T60K, T50K, T35K, T30K, T15K, T5200]

  /** The entry of the `tier_amounts` table for one tier. */
  function TierBaseAmount(t: StipendTierCode): (r: int)
    ensures 5_200 <= r <= 80_000
  {
    match t
    case T80K => 80_000
    case T65K => 65_000
    case T60K => 60_000
    case T50K => 50_000
    case T35K => 35_000
    case T30K => 30_000
    case T15K => 15_000
    case T5200 => 5_200
  }

  /**
    `StipendTierCode.get_base_amount(tier_id)`. The table is keyed by the
    enumeration, which a plain string with the same value also finds; any
    other string raises `KeyError`.
   */
  function GetBaseAmount(tierId: string): (r: Result<int>)
    ensures r.Ok? <==> exists t :: TierValue(t) == tierId
    ensures forall t :: TierValue(t) == tierId ==> r == Ok(TierBaseAmount(t))
    ensures r.Err? ==> r == Err(KeyError(tierId))
  {
    match TierOfValue(tierId)
    case Some(t) =>
      TierValueInjective(t);
      Ok(TierBaseAmount(t))
    case None =>
      TierOfValueComplete(tierId);
      Err(KeyError(tierId))
  }

  lemma TierValueRoundTrip(t: StipendTierCode)
    ensures TierOfValue(TierValue(t)) == Some(t)
  {
  }

  lemma TierValueInjective(t: StipendTierCode)
    ensures forall u :: TierValue(u) == TierValue(t) ==> u == t
  {
    forall u | TierValue(u) == TierValue(t) ensures u == t {
      TierValueRoundTrip(u);
      TierValueRoundTrip(t);
    }
  }

  lemma TierOfValueComplete(s: string)
    ensures TierOfValue(s).None? <==> forall t :: TierValue(t) != s
  {
    if TierOfValue(s).None? {
      forall t ensures TierValue(t) != s {
        TierValueRoundTrip(t);
      }
    }
  }

  /** The table, entry by entry. */
  lemma TierAmounts()
    ensures GetBaseAmount("T80K") == Ok(80_000)
    ensures GetBaseAmount("T65K") == Ok(65_000)
    ensures GetBaseAmount("T60K") == Ok(60_000)
    ensures GetBaseAmount("T50K") == Ok(50_000)
    ensures GetBaseAmount("T35K") == Ok(35_000)
    ensures GetBaseAmount("T30K") == Ok(30_000)
    ensures GetBaseAmount("T15K") == Ok(15_000)
    ensures GetBaseAmount("T5200") == Ok(5_200)
  {
    assert TierValue(T80K) == "T80K";
    assert TierValue(T65K) == "T65K";
    assert TierValue(T60K) == "T60K";
    assert TierValue(T50K) == "T50K";
    assert TierValue(T35K) == "T35K";
    assert TierValue(T30K) == "T30K";
    assert TierValue(T15K) == "T15K";
    assert TierValue(T5200) == "T5200";
  }

  /**
    The table is total: every tier is listed and has an amount. The amounts
    are positive and strictly decrease in declaration order.
   */
  lemma TiersTotalPositiveDecreasing()
    ensures forall t :: t in AllTiers && GetBaseAmount(TierValue(t)).Ok?
    ensures |AllTiers| == 8
    ensures forall i :: 0 <= i < |AllTiers| ==> TierBaseAmount(AllTiers[i]) > 0
    ensures forall i, j :: 0 <= i < j < |AllTiers| ==>
      TierBaseAmount(AllTiers[i]) > TierBaseAmount(AllTiers[j])
  {
    forall t ensures t in AllTiers && GetBaseAmount(TierValue(t)).Ok? {
      TierListed(t);
    }
    TiersDecreasing();
  }

  lemma TierListed(t: StipendTierCode)
    ensures t in AllTiers && GetBaseAmount(TierValue(t)).Ok?
  {
    var id := TierValue(t);
    assert exists u :: TierValue(u) == id;
    match t
    case T80K => assert AllTiers[0] == t;
    case T65K => assert AllTiers[1] == t;
    case T60K => assert AllTiers[2] == t;
    case T50K => assert AllTiers[3] == t;
    case T35K => assert AllTiers[4] == t;
    case T30K => assert AllTiers[5] == t;
    case T15K => assert AllTiers[6] == t;
    case T5200 => assert AllTiers[7] == t;
  }

  lemma TiersDecreasing()
    ensures |AllTiers| == 8
    ensures forall i :: 0 <= i < |AllTiers| ==> TierBaseAmount(AllTiers[i]) > 0
    ensures forall i, j :: 0 <= i < j < |AllTiers| ==>
      TierBaseAmount(AllTiers[i]) > TierBaseAmount(AllTiers[j])
  {
  }

  // ---------------------------------------------------------------------
  // Records

  /** `Session`; the source defaults `label` to the empty string. */
  datatype Session = Session(id: string, startYear: int, endYear: int, labelText: string)

  /** `RoleDefinition`. The tier is a string, as the catalog's `Optional[str]` field. */
  datatype RoleDefinition = RoleDefinition(
    code: RoleCode,
    title: string,
    domain: RoleDomain,
    chamber: Option<Chamber>,
    committeeCode: Option<string>,
    committeeRoleType: Option<CommitteeRoleType>,
    stipendTierId: Option<string>)

  /** `RoleAssignment`: the role code is a plain string, checked only when priced. */
  datatype RoleAssignment = RoleAssignment(memberId: string, roleCode: string, sessionId: string)

  /**
    `Member`. The source declares `roles` without a default after fields
    that have one, which Python rejects; the evident intent, an ordered list
    of assignments, is modelled.
   */
  datatype Member = Member(
    memberId: string,
    name: string,
    chamber: Chamber,
    party: Party,
    distanceMiles: Option<real>,
    roles: seq<RoleAssignment>)
}
