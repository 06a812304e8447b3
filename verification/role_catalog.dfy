/**
  The role catalog of config/role_catalog.py: the eighteen priced roles of
  section 9B of chapter 3 of the Massachusetts General Laws, the dictionary
  keyed by role code, and the lookup that fails on an uncatalogued code.
 */
module RoleCatalog {
  import opened Wrappers
  import opened Core

  function Leader(code: RoleCode, title: string, chamber: Chamber, tier: StipendTierCode): RoleDefinition {
    RoleDefinition(code, title, LEADERSHIP, Some(chamber), None, None, Some(TierValue(tier)))
  }

  function CommitteeChair(code: RoleCode, title: string, chamber: Chamber, committee: string, tier: StipendTierCode): RoleDefinition {
    RoleDefinition(code, title, COMMITTEE, Some(chamber), Some(committee), Some(CHAIR), Some(TierValue(tier)))
  }

  const SPEAKER_DEF := Leader(SPEAKER, "Speaker of the House", HOUSE, T80K)
  const SENATE_PRESIDENT_DEF := Leader(SENATE_PRESIDENT, "President of the Senate", SENATE, T80K)
  const HOUSE_WM_CHAIR_DEF :=
    CommitteeChair(HOUSE_WM_CHAIR, "House Chair, Committee on Ways and Means", HOUSE, "WAYS_MEANS_HOUSE", T65K)
  const SENATE_WM_CHAIR_DEF :=
    CommitteeChair(SENATE_WM_CHAIR, "Senate Chair, Committee on Ways and Means", SENATE, "WAYS_MEANS_SENATE", T65K)
  const HOUSE_MAJORITY_LEADER_DEF := Leader(HOUSE_MAJORITY_LEADER, "House Majority Floor Leader", HOUSE, T60K)
  const HOUSE_MINORITY_LEADER_DEF := Leader(HOUSE_MINORITY_LEADER, "House Minority Floor Leader", HOUSE, T60K)
  const SENATE_MAJORITY_LEADER_DEF := Leader(SENATE_MAJORITY_LEADER, "Senate Majority Floor Leader", SENATE, T60K)
  const SENATE_MINORITY_LEADER_DEF := Leader(SENATE_MINORITY_LEADER, "Senate Minority Floor Leader", SENATE, T60K)
  const HOUSE_SPEAKER_PRO_TEM_DEF := Leader(HOUSE_SPEAKER_PRO_TEM, "Speaker Pro Tempore of the House", HOUSE, T50K)
  const SENATE_SPEAKER_PRO_TEM_DEF :=
    Leader(SENATE_SPEAKER_PRO_TEM, "President Pro Tempore of the Senate", SENATE, T50K)
  const HOUSE_ASSISTANT_MAJORITY_LEADER_DEF :=
    Leader(HOUSE_ASSISTANT_MAJORITY_LEADER, "House Assistant Majority Floor Leader", HOUSE, T35K)
  const HOUSE_ASSISTANT_MINORITY_LEADER_DEF :=
    Leader(HOUSE_ASSISTANT_MINORITY_LEADER, "House Assistant Minority Floor Leader", HOUSE, T35K)
  const HOUSE_RULES_CHAIR_DEF :=
    CommitteeChair(HOUSE_RULES_CHAIR, "House Chair, House Committee on Rules", HOUSE, "RULES_HOUSE", T30K)
  const SENATE_RULES_CHAIR_DEF :=
    CommitteeChair(SENATE_RULES_CHAIR, "Senate Chair, Senate Committee on Rules", SENATE, "RULES_SENATE", T30K)
  const HOUSE_EDUCATION_CHAIR_DEF :=
    CommitteeChair(HOUSE_EDUCATION_CHAIR, "House Chair, Joint Committee on Education", HOUSE, "EDUCATION_JOINT", T30K)
  const SENATE_EDUCATION_CHAIR_DEF :=
    CommitteeChair(SENATE_EDUCATION_CHAIR, "Senate Chair, Joint Committee on Education", SENATE, "EDUCATION_JOINT", T30K)
  const HOUSE_JUDICIARY_CHAIR_DEF :=
    CommitteeChair(HOUSE_JUDICIARY_CHAIR, "House Chair, Joint Committee on Judiciary", HOUSE, "JUDICIARY_JOINT", T30K)
  const SENATE_JUDICIARY_CHAIR_DEF :=
    CommitteeChair(SENATE_JUDICIARY_CHAIR, "Senate Chair, Joint Committee on Judiciary", SENATE, "JUDICIARY_JOINT", T30K)

  /** `_ROLE_DEFS`, in catalog order. */
  const RoleDefs: seq<RoleDefinition> := [
    SPEAKER_DEF, SENATE_PRESIDENT_DEF, HOUSE_WM_CHAIR_DEF, SENATE_WM_CHAIR_DEF,
    HOUSE_MAJORITY_LEADER_DEF, HOUSE_MINORITY_LEADER_DEF, SENATE_MAJORITY_LEADER_DEF,
    SENATE_MINORITY_LEADER_DEF, HOUSE_SPEAKER_PRO_TEM_DEF, SENATE_SPEAKER_PRO_TEM_DEF,
    HOUSE_ASSISTANT_MAJORITY_LEADER_DEF, HOUSE_ASSISTANT_MINORITY_LEADER_DEF,
    HOUSE_RULES_CHAIR_DEF, SENATE_RULES_CHAIR_DEF, HOUSE_EDUCATION_CHAIR_DEF,
    SENATE_EDUCATION_CHAIR_DEF, HOUSE_JUDICIARY_CHAIR_DEF, SENATE_JUDICIARY_CHAIR_DEF]

  /**
    The comprehension `{role.code: role for role in defs}`: a later
    definition replaces an earlier one with the same code.
   */
  function IndexByCode(defs: seq<RoleDefinition>): (m: map<RoleCode, RoleDefinition>)
    ensures forall c :: c in m ==> m[c].code == c && m[c] in defs
    ensures forall d :: d in defs ==> d.code in m
    decreases |defs|
  {
    if |defs| == 0 then map[]
    else
      var init := defs[..|defs| - 1];
      var last := defs[|defs| - 1];
      assert forall d :: d in init ==> d in defs;
      IndexByCode(init)[last.code := last]
  }

  /** `ROLE_DEFINITIONS`. */
  function RoleDefinitions(): map<RoleCode, RoleDefinition> {
    IndexByCode(RoleDefs)
  }

  /** The entry the comprehension keeps for a code: the last definition carrying it. */
  function LastWithCode(defs: seq<RoleDefinition>, c: RoleCode): (r: Option<RoleDefinition>)
    ensures r.Some? ==> r.value in defs && r.value.code == c
    ensures r.None? <==> forall d :: d in defs ==> d.code != c
    decreases |defs|
  {
    if |defs| == 0 then None
    else if defs[|defs| - 1].code == c then Some(defs[|defs| - 1])
    else
      var r := LastWithCode(defs[..|defs| - 1], c);
      assert forall d :: d in defs ==> d in defs[..|defs| - 1] || d == defs[|defs| - 1];
      r
  }

  /** The dictionary maps each code to the last definition carrying it, and holds no other key. */
  lemma {:induction false} IndexByCodeIsLastMatch(defs: seq<RoleDefinition>, c: RoleCode)
    ensures c in IndexByCode(defs) <==> LastWithCode(defs, c).Some?
    ensures c in IndexByCode(defs) ==> IndexByCode(defs)[c] == LastWithCode(defs, c).value
    decreases |defs|
  {
    if |defs| > 0 {
      var init, last := defs[..|defs| - 1], defs[|defs| - 1];
      IndexByCodeIsLastMatch(init, c);
      assert IndexByCode(defs) == IndexByCode(init)[last.code := last];
      assert LastWithCode(defs, c) == if last.code == c then Some(last) else LastWithCode(init, c);
    }
  }

  /**
    `get_role_definition(code)`. The dictionary is keyed by the `RoleCode`
    enumeration, and a plain string equal to a member's value finds that
    member; any other string raises `KeyError`.
   */
  function GetRoleDefinition(code: string): (r: Result<RoleDefinition>)
    ensures r.Ok? ==> RoleCodeValue(r.value.code) == code
    ensures r.Err? ==> r == Err(KeyError(code))
  {
    match RoleCodeOfValue(code)
    case Some(c) =>
      (match LastWithCode(RoleDefs, c)
       case Some(d) => Ok(d)
       case None => Err(KeyError(code)))
    case None => Err(KeyError(code))
  }

  /**
    The lookup succeeds exactly for the value of some role code, and then
    gives a definition from the catalog.
   */
  lemma GetRoleDefinitionFound(code: string)
    ensures GetRoleDefinition(code).Ok? <==> exists c :: RoleCodeValue(c) == code
    ensures GetRoleDefinition(code).Ok? ==> GetRoleDefinition(code).value in RoleDefs
  {
    RoleCodeOfValueComplete(code);
    if c :| RoleCodeValue(c) == code {
      GetRoleDefinitionEntry(c);
    }
  }

  /** The looked-up definition is the dictionary's entry for the code. */
  lemma GetRoleDefinitionUsesDictionary(c: RoleCode)
    ensures GetRoleDefinition(RoleCodeValue(c)).Ok? <==> c in RoleDefinitions()
    ensures c in RoleDefinitions() ==> GetRoleDefinition(RoleCodeValue(c)) == Ok(RoleDefinitions()[c])
  {
    RoleCodeValueRoundTrip(c);
    IndexByCodeIsLastMatch(RoleDefs, c);
  }

  /** The catalog, read as a table from code to definition. */
  function CatalogEntry(c: RoleCode): RoleDefinition {
    match c
    case SPEAKER => SPEAKER_DEF
    case SENATE_PRESIDENT => SENATE_PRESIDENT_DEF
    case HOUSE_WM_CHAIR => HOUSE_WM_CHAIR_DEF
    case SENATE_WM_CHAIR => SENATE_WM_CHAIR_DEF
    case HOUSE_MAJORITY_LEADER => HOUSE_MAJORITY_LEADER_DEF
    case HOUSE_MINORITY_LEADER => HOUSE_MINORITY_LEADER_DEF
    case SENATE_MAJORITY_LEADER => SENATE_MAJORITY_LEADER_DEF
    case SENATE_MINORITY_LEADER => SENATE_MINORITY_LEADER_DEF
    case HOUSE_SPEAKER_PRO_TEM => HOUSE_SPEAKER_PRO_TEM_DEF
    case SENATE_SPEAKER_PRO_TEM => SENATE_SPEAKER_PRO_TEM_DEF
    case HOUSE_ASSISTANT_MAJORITY_LEADER => HOUSE_ASSISTANT_MAJORITY_LEADER_DEF
    case HOUSE_ASSISTANT_MINORITY_LEADER => HOUSE_ASSISTANT_MINORITY_LEADER_DEF
    case HOUSE_RULES_CHAIR => HOUSE_RULES_CHAIR_DEF
    case SENATE_RULES_CHAIR => SENATE_RULES_CHAIR_DEF
    case HOUSE_EDUCATION_CHAIR => HOUSE_EDUCATION_CHAIR_DEF
    case SENATE_EDUCATION_CHAIR => SENATE_EDUCATION_CHAIR_DEF
    case HOUSE_JUDICIARY_CHAIR => HOUSE_JUDICIARY_CHAIR_DEF
    case SENATE_JUDICIARY_CHAIR => SENATE_JUDICIARY_CHAIR_DEF
  }

  /**
    Every role code is catalogued, and the lookup of its value gives the
    entry defined under that code.
   */
  lemma GetRoleDefinitionEntry(c: RoleCode)
    ensures GetRoleDefinition(RoleCodeValue(c)) == Ok(CatalogEntry(c))
    ensures CatalogEntry(c).code == c
  {
    RoleCodeValueRoundTrip(c);
    CatalogCodesDistinct();
    var i := CatalogIndex(c);
    LastWithCodeOfDistinct(RoleDefs, i);
  }

  /** The position of a code's entry in the catalog list. */
  function CatalogIndex(c: RoleCode): (i: int)
    ensures 0 <= i < |RoleDefs| && RoleDefs[i] == CatalogEntry(c) && RoleDefs[i].code == c
  {
    match c
    case SPEAKER => 0
    case SENATE_PRESIDENT => 1
    case HOUSE_WM_CHAIR => 2
    case SENATE_WM_CHAIR => 3
    case HOUSE_MAJORITY_LEADER => 4
    case HOUSE_MINORITY_LEADER => 5
    case SENATE_MAJORITY_LEADER => 6
    case SENATE_MINORITY_LEADER => 7
    case HOUSE_SPEAKER_PRO_TEM => 8
    case SENATE_SPEAKER_PRO_TEM => 9
    case HOUSE_ASSISTANT_MAJORITY_LEADER => 10
    case HOUSE_ASSISTANT_MINORITY_LEADER => 11
    case HOUSE_RULES_CHAIR => 12
    case SENATE_RULES_CHAIR => 13
    case HOUSE_EDUCATION_CHAIR => 14
    case SENATE_EDUCATION_CHAIR => 15
    case HOUSE_JUDICIARY_CHAIR => 16
    case SENATE_JUDICIARY_CHAIR => 17
  }

  /** In a list with distinct codes, the last match for an entry's code is that entry. */
  lemma {:induction false} LastWithCodeOfDistinct(defs: seq<RoleDefinition>, i: int)
    requires 0 <= i < |defs|
    requires forall j, k :: 0 <= j < k < |defs| ==> defs[j].code != defs[k].code
    ensures LastWithCode(defs, defs[i].code) == Some(defs[i])
    decreases |defs|
  {
    if i < |defs| - 1 {
      LastWithCodeOfDistinct(defs[..|defs| - 1], i);
    }
  }

  /** No two catalog entries share a code. */
  lemma CatalogCodesDistinct()
    ensures |RoleDefs| == 18
    ensures forall i, j :: 0 <= i < j < |RoleDefs| ==> RoleDefs[i].code != RoleDefs[j].code
  {
  }

  /** A string that is no role code's value is rejected, never defaulted. */
  lemma UncataloguedCodeFails(code: string)
    requires forall c :: RoleCodeValue(c) != code
    ensures GetRoleDefinition(code) == Err(KeyError(code))
  {
    RoleCodeOfValueComplete(code);
  }

  /**
    Every catalogued role names a tier and a chamber, the House or the
    Senate; committee roles are chairs of a named committee and leadership
    roles name no committee and no committee role type.
   */
  lemma CatalogShape()
    ensures forall i :: 0 <= i < |RoleDefs| ==>
      RoleDefs[i].stipendTierId.Some? && RoleDefs[i].chamber in {Some(HOUSE), Some(SENATE)}
    ensures forall i :: 0 <= i < |RoleDefs| ==>
      RoleDefs[i].domain == COMMITTEE || RoleDefs[i].domain == LEADERSHIP
    ensures forall i :: 0 <= i < |RoleDefs| && RoleDefs[i].domain == COMMITTEE ==>
      RoleDefs[i].committeeRoleType == Some(CHAIR) && RoleDefs[i].committeeCode.Some?
    ensures forall i :: 0 <= i < |RoleDefs| && RoleDefs[i].domain == LEADERSHIP ==>
      RoleDefs[i].committeeRoleType.None? && RoleDefs[i].committeeCode.None?
  {
  }

  /**
    The tier section 9B assigns, by kind of office: presiding officers,
    Ways and Means chairs, floor leaders, presiding officers pro tempore,
    assistant floor leaders, and the Rules, Education and Judiciary chairs.
   */
  function StatutoryTier(c: RoleCode): StipendTierCode {
    match c
    case SPEAKER | SENATE_PRESIDENT => T80K
    case HOUSE_WM_CHAIR | SENATE_WM_CHAIR => T65K
    case HOUSE_MAJORITY_LEADER | HOUSE_MINORITY_LEADER | SENATE_MAJORITY_LEADER | SENATE_MINORITY_LEADER => T60K
    case HOUSE_SPEAKER_PRO_TEM | SENATE_SPEAKER_PRO_TEM => T50K
    case HOUSE_ASSISTANT_MAJORITY_LEADER | HOUSE_ASSISTANT_MINORITY_LEADER => T35K
    case HOUSE_RULES_CHAIR | SENATE_RULES_CHAIR | HOUSE_EDUCATION_CHAIR | SENATE_EDUCATION_CHAIR
      | HOUSE_JUDICIARY_CHAIR | SENATE_JUDICIARY_CHAIR => T30K
  }

  /** Each catalogued role carries the tier of its kind of office. */
  lemma CatalogTiers(c: RoleCode)
    ensures CatalogEntry(c).stipendTierId == Some(TierValue(StatutoryTier(c)))
  {
  }

  /** The same, position by position in the catalog list. */
  lemma CatalogTiersListed()
    ensures forall i :: 0 <= i < |RoleDefs| ==>
      RoleDefs[i].stipendTierId == Some(TierValue(StatutoryTier(RoleDefs[i].code)))
  {
    CatalogCodesDistinct();
    forall i | 0 <= i < |RoleDefs|
      ensures RoleDefs[i].stipendTierId == Some(TierValue(StatutoryTier(RoleDefs[i].code)))
    {
      var c := RoleDefs[i].code;
      var j := CatalogIndex(c);
      assert j == i;
      CatalogTiers(c);
    }
  }

  /** No two catalog entries share a title. */
  lemma CatalogTitlesDistinct()
    ensures forall i, j :: 0 <= i < j < |RoleDefs| ==> RoleDefs[i].title != RoleDefs[j].title
  {
  }

  /**
    The role catalog spells the committees whose chairs it prices in its
    own way (`WAYS_MEANS_HOUSE` for the committee catalog's
    `HOUSE_WAYS_AND_MEANS`). For a committee-catalog code, this table gives
    the role catalog's spelling of it, if the role catalog names it at all.
   */
  function RoleCatalogSpelling(code: string): (r: Option<string>)
    ensures r.Some? ==> exists k :: 0 <= k < |RoleDefs| && RoleDefs[k].committeeCode == r
  {
    CommitteeCodesListed();
    if code == "HOUSE_WAYS_AND_MEANS" then Some("WAYS_MEANS_HOUSE")
    else if code == "SENATE_WAYS_AND_MEANS" then Some("WAYS_MEANS_SENATE")
    else if code == "HOUSE_RULES" then Some("RULES_HOUSE")
    else if code == "SENATE_RULES" then Some("RULES_SENATE")
    else if code == "JOINT_EDUCATION" then Some("EDUCATION_JOINT")
    else if code == "JOINT_THE_JUDICIARY" then Some("JUDICIARY_JOINT")
    else None
  }

  /** Where the role catalog names each of its committees. */
  lemma CommitteeCodesListed()
    ensures |RoleDefs| == 18
    ensures RoleDefs[2].committeeCode == Some("WAYS_MEANS_HOUSE")
    ensures RoleDefs[3].committeeCode == Some("WAYS_MEANS_SENATE")
    ensures RoleDefs[12].committeeCode == Some("RULES_HOUSE")
    ensures RoleDefs[13].committeeCode == Some("RULES_SENATE")
    ensures RoleDefs[14].committeeCode == Some("EDUCATION_JOINT")
    ensures RoleDefs[16].committeeCode == Some("JUDICIARY_JOINT")
  {
  }
}
