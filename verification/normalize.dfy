/**
  Committee role normalisation (data/normalize.py; the same two functions
  appear verbatim in scripts/normalize_all_roles.py and are modelled once):
  a scraped role label is classified as chair, vice chair or ranking
  member, and a (chamber, committee id, rawLabel) triple is mapped to a role
  code of the catalog or to one of two generic codes.
 */
module Normalize {
  import opened Wrappers
  import opened Strings
  import opened Core
  import opened RoleCatalog
  import opened CommitteeCatalog

  const GENERIC_CHAIR := "GENERIC_OTHER_COMMITTEE_CHAIR"
  const GENERIC_VICE_CHAIR := "GENERIC_OTHER_COMMITTEE_VICE_CHAIR"

  // ---------------------------------------------------------------------
  // Label classification

  /**
    `normalize_role_label`: a missing or empty label gives `None`;
    otherwise the lower-cased label is searched for "chair", "vice" and
    "ranking", in that order of priority.
   */
  function NormalizeRoleLabel(raw: Option<string>): (r: Option<CommitteeRoleType>)
    ensures raw.None? || raw == Some("") ==> r.None?
    ensures r.Some? ==> raw.Some? && (r.value.CHAIR? || r.value.VICE_CHAIR? || r.value.RANKING_MINORITY?)
    ensures r == Some(VICE_CHAIR) <==> raw.Some? && Contains(Lower(raw.value), "vice")
    ensures r == Some(CHAIR) <==>
      raw.Some? && Contains(Lower(raw.value), "chair") && !Contains(Lower(raw.value), "vice")
    ensures r == Some(RANKING_MINORITY) <==>
      raw.Some? && Contains(Lower(raw.value), "ranking")
      && !Contains(Lower(raw.value), "chair") && !Contains(Lower(raw.value), "vice")
  {
    if raw.None? || raw.value == "" then None
    else
      var t := Lower(raw.value);
      if Contains(t, "chair") && !Contains(t, "vice") then Some(CHAIR)
      else if Contains(t, "vice") then Some(VICE_CHAIR)
      else if Contains(t, "ranking") then Some(RANKING_MINORITY)
      else None
  }

  /** The classification sees only the lower-cased label: labels equal up to case classify alike. */
  lemma LabelIgnoresCase(a: string, b: string)
    requires Lower(a) == Lower(b)
    ensures NormalizeRoleLabel(Some(a)) == NormalizeRoleLabel(Some(b))
  {
    if a == "" || b == "" {
      assert |a| == |Lower(a)| == |Lower(b)| == |b|;
    }
  }

  /** "Vice Chair" is a vice chair although it also contains "chair"; "Chair" alone is a chair. */
  lemma LabelExamples()
    ensures NormalizeRoleLabel(Some("Vice Chair")) == Some(VICE_CHAIR)
    ensures NormalizeRoleLabel(Some("Chair")) == Some(CHAIR)
  {
    var v := Lower("Vice Chair");
    assert v[0..4] == "vice";
    ContainsAt(v, "vice", 0);
    var c := Lower("Chair");
    assert c == "chair";
    ContainsAt(c, "chair", 0);
    NotContainsShorter(c[2..], "vice");
    assert c[1..][1..] == c[2..];
    assert c[..4][0] == 'c' && c[1..][..4][0] == 'h';
  }

  // ---------------------------------------------------------------------
  // Mapping a committee role to a role code

  /** `Chamber.name.lower()`. */
  function ChamberNameLower(c: Chamber): (r: string)
    ensures r == ChamberValue(c)
  {
    match c
    case HOUSE => "house"
    case SENATE => "senate"
    case JOINT => "joint"
  }

  /** The three tests of the loop body: same committee, same role type, and no chamber or the given one. */
  predicate RoleMatches(d: RoleDefinition, committeeCode: string, roleType: CommitteeRoleType, chamber: string) {
    && d.committeeCode == Some(committeeCode)
    && d.committeeRoleType == Some(roleType)
    && (d.chamber.None? || ChamberNameLower(d.chamber.value) == chamber)
  }

  /** The loop over `ROLE_DEFINITIONS.values()`: the first role, in catalog order, that matches. */
  function FirstMatch(defs: seq<RoleDefinition>, committeeCode: string, roleType: CommitteeRoleType, chamber: string)
    : (r: Option<nat>)
    ensures r.Some? ==> r.value < |defs| && RoleMatches(defs[r.value], committeeCode, roleType, chamber)
    ensures r.Some? ==> forall j :: 0 <= j < r.value ==> !RoleMatches(defs[j], committeeCode, roleType, chamber)
    ensures r.None? <==> forall j :: 0 <= j < |defs| ==> !RoleMatches(defs[j], committeeCode, roleType, chamber)
  {
    if |defs| == 0 then None
    else if RoleMatches(defs[0], committeeCode, roleType, chamber) then Some(0)
    else match FirstMatch(defs[1..], committeeCode, roleType, chamber)
      case None => None
      case Some(k) => Some(k + 1)
  }

  /** The two fallback returns: a generic code for a chair or vice chair, nothing for a ranking member. */
  function GenericFallback(roleType: CommitteeRoleType): (r: Option<string>)
    ensures r.Some? <==> roleType.CHAIR? || roleType.VICE_CHAIR?
    ensures r.Some? ==> r.value == GENERIC_CHAIR || r.value == GENERIC_VICE_CHAIR
  {
    match roleType
    case CHAIR => Some(GENERIC_CHAIR)
    case VICE_CHAIR => Some(GENERIC_VICE_CHAIR)
    case _ => None
  }

  /** The part of `committee_role_to_internal` after the committee lookup. */
  function RoleForCommittee(chamber: string, committee: Option<Committee>, roleType: CommitteeRoleType)
    : (r: Option<string>)
    ensures committee.None? ==> r == GenericFallback(roleType)
    ensures committee.Some? ==>
      match FirstMatch(RoleDefs, committee.value.code, roleType, chamber)
      case Some(k) => r == Some(RoleCodeValue(RoleDefs[k].code))
      case None => r == GenericFallback(roleType)
  {
    match committee
    case None => GenericFallback(roleType)
    case Some(c) =>
      match FirstMatch(RoleDefs, c.code, roleType, chamber)
      case Some(k) => Some(RoleCodeValue(RoleDefs[k].code))
      case None => GenericFallback(roleType)
  }

  /** `committee_role_to_internal(chamber, committee_external_id, raw_role_label)`. */
  function CommitteeRoleToInternal(chamber: string, externalId: string, rawLabel: Option<string>): (r: Option<string>)
    ensures NormalizeRoleLabel(rawLabel).None? ==> r.None?
    ensures NormalizeRoleLabel(rawLabel).Some? ==>
      r == RoleForCommittee(chamber, GetCommitteeByExternalId(externalId), NormalizeRoleLabel(rawLabel).value)
  {
    match NormalizeRoleLabel(rawLabel)
    case None => None
    case Some(roleType) => RoleForCommittee(chamber, GetCommitteeByExternalId(externalId), roleType)
  }

  /**
    Only a matching catalog role's code or one of the two generic codes can
    come out, and a ranking member of an unmatched committee gets nothing.
   */
  lemma CommitteeRoleRange(chamber: string, externalId: string, rawLabel: Option<string>)
    ensures var r := CommitteeRoleToInternal(chamber, externalId, rawLabel);
      r.Some? ==>
        || r.value == GENERIC_CHAIR
        || r.value == GENERIC_VICE_CHAIR
        || (NormalizeRoleLabel(rawLabel).Some?
            && CatalogRoleFor(r.value, GetCommitteeByExternalId(externalId), NormalizeRoleLabel(rawLabel).value, chamber))
  {
    var rt := NormalizeRoleLabel(rawLabel);
    if rt.Some? {
      var cm := GetCommitteeByExternalId(externalId);
      if cm.Some? {
        match FirstMatch(RoleDefs, cm.value.code, rt.value, chamber)
        case Some(k) =>
          assert RoleMatches(RoleDefs[k], cm.value.code, rt.value, chamber);
        case None =>
      }
    }
  }

  /** `code` is the code of a catalog role that matches the committee, role type and chamber. */
  predicate CatalogRoleFor(code: string, committee: Option<Committee>, roleType: CommitteeRoleType, chamber: string) {
    committee.Some?
    && exists k :: 0 <= k < |RoleDefs| && code == RoleCodeValue(RoleDefs[k].code)
         && RoleMatches(RoleDefs[k], committee.value.code, roleType, chamber)
  }

  /** An unknown committee id falls back on the generic codes. */
  lemma UnknownCommitteeFallback(chamber: string, externalId: string, rawLabel: Option<string>)
    requires forall i :: 0 <= i < |Committees| ==> externalId !in Committees[i].externalIds
    requires NormalizeRoleLabel(rawLabel).Some?
    ensures CommitteeRoleToInternal(chamber, externalId, rawLabel) == GenericFallback(NormalizeRoleLabel(rawLabel).value)
  {
  }

  // ---------------------------------------------------------------------
  // The two catalogs do not share committee codes

  lemma CatalogPrefixChars(s: string)
    requires HasCatalogPrefix(s)
    ensures |s| >= 2
    ensures (s[0] == 'J' && s[1] == 'O') || s[0] == 'S' || s[0] == 'H' || s[0] == 'C'
  {
    assert StartsWith(s, JointPrefix) ==> s[..6][0] == 'J' && s[..6][1] == 'O';
    assert StartsWith(s, SenatePrefix) ==> s[..7][0] == 'S';
    assert StartsWith(s, HousePrefix) ==> s[..6][0] == 'H';
    assert StartsWith(s, SubcommitteePrefix) ==> s[..10][0] == 'C';
  }

  /** The role catalog's committee codes (`WAYS_MEANS_HOUSE`, `EDUCATION_JOINT`, ...) have another form. */
  lemma RoleCommitteeCodesForm()
    ensures forall k :: 0 <= k < |RoleDefs| && RoleDefs[k].committeeCode.Some? ==>
      !HasCatalogPrefix(RoleDefs[k].committeeCode.value)
  {
    forall k | 0 <= k < |RoleDefs| && RoleDefs[k].committeeCode.Some?
      ensures !HasCatalogPrefix(RoleDefs[k].committeeCode.value)
    {
      var s := RoleDefs[k].committeeCode.value;
      if HasCatalogPrefix(s) {
        CatalogPrefixChars(s);
        assert false;
      }
    }
  }

  /** A committee whose code has the catalog's form matches no role of the role catalog. */
  lemma CatalogFormFallsBack(chamber: string, committee: Option<Committee>, roleType: CommitteeRoleType)
    requires committee.Some? ==> HasCatalogPrefix(committee.value.code)
    ensures RoleForCommittee(chamber, committee, roleType) == GenericFallback(roleType)
  {
    if committee.Some? {
      RoleCommitteeCodesForm();
      assert FirstMatch(RoleDefs, committee.value.code, roleType, chamber).None?;
    }
  }

  /**
    Because no role of the role catalog names a committee by a code of the
    committee catalog, a recognised label on a catalogued committee always
    ends in the generic fallback, and so does an unknown one: no committee
    role is ever mapped to a priced role code.
   */
  lemma CommitteeRoleAlwaysGeneric(chamber: string, externalId: string, rawLabel: Option<string>)
    requires NormalizeRoleLabel(rawLabel).Some?
    ensures CommitteeRoleToInternal(chamber, externalId, rawLabel) == GenericFallback(NormalizeRoleLabel(rawLabel).value)
  {
    LookupHasCatalogPrefix(externalId);
    CatalogFormFallsBack(chamber, GetCommitteeByExternalId(externalId), NormalizeRoleLabel(rawLabel).value);
  }

  // ---------------------------------------------------------------------
  // The intended mapping: the role catalog's spelling of committee codes

  /** The key the intended loop compares with: the role catalog's spelling where it has one. */
  function LookupKey(code: string): string {
    match RoleCatalogSpelling(code)
    case Some(spelt) => spelt
    case None => code
  }

  /**
    The part after the committee lookup as evidently intended: the loop
    looks for the committee under the role catalog's spelling of its code.
   */
  function RoleForCommitteeIntended(chamber: string, committee: Option<Committee>, roleType: CommitteeRoleType)
    : (r: Option<string>)
    ensures committee.None? ==> r == GenericFallback(roleType)
    ensures r.Some? && r != GenericFallback(roleType) ==>
      && committee.Some?
      && exists k :: 0 <= k < |RoleDefs| && r.value == RoleCodeValue(RoleDefs[k].code)
           && RoleMatches(RoleDefs[k], LookupKey(committee.value.code), roleType, chamber)
  {
    match committee
    case None => GenericFallback(roleType)
    case Some(c) =>
      match FirstMatch(RoleDefs, LookupKey(c.code), roleType, chamber)
      case Some(k) => Some(RoleCodeValue(RoleDefs[k].code))
      case None => GenericFallback(roleType)
  }

  /** `committee_role_to_internal` with the intended committee lookup. */
  function CommitteeRoleToInternalIntended(chamber: string, externalId: string, rawLabel: Option<string>)
    : (r: Option<string>)
    ensures NormalizeRoleLabel(rawLabel).None? ==> r.None?
    ensures r.Some? && r.value != GENERIC_CHAIR && r.value != GENERIC_VICE_CHAIR ==>
      exists k :: 0 <= k < |RoleDefs| && r.value == RoleCodeValue(RoleDefs[k].code)
  {
    match NormalizeRoleLabel(rawLabel)
    case None => None
    case Some(roleType) => RoleForCommitteeIntended(chamber, GetCommitteeByExternalId(externalId), roleType)
  }

  /** No two committee roles of the role catalog chair the same committee for the same chamber. */
  lemma CommitteeChairsDistinct()
    ensures forall i, j :: 0 <= i < j < |RoleDefs| && RoleDefs[i].domain == COMMITTEE && RoleDefs[j].domain == COMMITTEE ==>
      RoleDefs[i].committeeCode != RoleDefs[j].committeeCode || RoleDefs[i].chamber != RoleDefs[j].chamber
  {
  }

  /**
    With the intended lookup, the chair of a committee the role catalog
    prices is mapped, in its own chamber, to its own role code.
   */
  lemma IntendedCommitteeChairPriced(k: nat, c: Committee)
    requires k < |RoleDefs| && RoleDefs[k].domain == COMMITTEE
    requires RoleCatalogSpelling(c.code) == RoleDefs[k].committeeCode
    ensures RoleForCommitteeIntended(ChamberNameLower(RoleDefs[k].chamber.value), Some(c), CHAIR)
      == Some(RoleCodeValue(RoleDefs[k].code))
  {
    assert LookupKey(c.code) == RoleDefs[k].committeeCode.value;
    CatalogShape();
    CommitteeChairsDistinct();
    var ch := ChamberNameLower(RoleDefs[k].chamber.value);
    var spelt := RoleDefs[k].committeeCode.value;
    assert RoleMatches(RoleDefs[k], spelt, CHAIR, ch);
    var m := FirstMatch(RoleDefs, spelt, CHAIR, ch);
    assert m.Some?;
    assert m.value == k;
  }

  /** The Ways and Means chair, for any committee with the House Ways and Means code. */
  lemma WaysAndMeansChairIntended(c: Committee)
    requires c.code == "HOUSE_WAYS_AND_MEANS"
    ensures RoleForCommitteeIntended("house", Some(c), CHAIR) == Some("HOUSE_WM_CHAIR")
  {
    CommitteeCodesListed();
    assert RoleDefs[2] == HOUSE_WM_CHAIR_DEF;
    IntendedCommitteeChairPriced(2, c);
  }

  /** The source maps the label "Chair" on the House Committee on Ways and Means (id H34) to the generic code. */
  lemma HouseWaysAndMeansChairAsWritten(id: string, text: string)
    requires id == "H34" && text == "Chair"
    ensures CommitteeRoleToInternal("house", id, Some(text)) == Some(GENERIC_CHAIR)
  {
    LabelExamples();
    CommitteeRoleAlwaysGeneric("house", id, Some(text));
  }

  /** The intended lookup maps the same label on the same committee to the Ways and Means chair's own code. */
  lemma HouseWaysAndMeansChair(id: string, text: string)
    requires id == "H34" && text == "Chair"
    ensures CommitteeRoleToInternalIntended("house", id, Some(text)) == Some("HOUSE_WM_CHAIR")
  {
    LabelExamples();
    HouseWaysAndMeansLookup(id);
    WaysAndMeansChairIntended(GetCommitteeByExternalId(id).value);
  }
}
