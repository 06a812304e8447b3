/**
  The committee catalog (config/committee_catalog.py): 56 committees of
  the General Court, each with a code, a display name, a joint flag, a
  primary chamber and the external ids the legislature's website uses.

  The source builds each entry with a `chamber=` keyword that its
  dataclass does not declare (the field is `primary_chamber`), and builds
  `COMMITTEES_BY_CODE` as a set of codes through a chained `Final[...]`
  assignment; both would fail when the module is loaded. This model gives
  each entry the chamber the keyword names and builds the two dictionaries
  the code evidently intends: code to committee and external id to
  committee.
 */
module CommitteeCatalog {
  import opened Wrappers
  import opened Strings
  import opened Core

  datatype Committee = Committee(
    code: string,
    name: string,
    isJoint: bool,
    primaryChamber: Option<Chamber>,
    externalIds: seq<string>)

  // ---------------------------------------------------------------------
  // The table

  /** The four ways a committee code begins. */
  datatype CodePrefix = JOINT_CODE | SENATE_CODE | HOUSE_CODE | COMMITTEE_CODE

  const JointPrefix := "JOINT_"
  const SenatePrefix := "SENATE_"
  const HousePrefix := "HOUSE_"
  const SubcommitteePrefix := "COMMITTEE_"

  function PrefixText(p: CodePrefix): string {
    match p
    case JOINT_CODE => JointPrefix
    case SENATE_CODE => SenatePrefix
    case HOUSE_CODE => HousePrefix
    case COMMITTEE_CODE => SubcommitteePrefix
  }

  /**
    One entry of `_COMMITTEES` as written: the code split after its
    prefix, and the joint flag, chamber and single external id exactly as
    the entry gives them.
   */
  datatype Row = Row(
    prefix: CodePrefix,
    rest: string,
    name: string,
    isJoint: bool,
    chamber: Option<Chamber>,
    id: string)

  function ToCommittee(r: Row): Committee {
    Committee(PrefixText(r.prefix) + r.rest, r.name, r.isJoint, r.chamber, [r.id])
  }

  const Rows0: seq<Row> := [
    Row(JOINT_CODE, "ADVANCED_INFORMATION_TECHNOLOGY_THE_INTERNET_AND_CYBERSECURITY",
      "Joint Committee on Advanced Information Technology, the Internet and Cybersecurity",
      true, None, "J33"),
    Row(JOINT_CODE, "AGING_AND_INDEPENDENCE",
      "Joint Committee on Aging and Independence",
      true, None, "J46"),
    Row(JOINT_CODE, "AGRICULTURE_AND_FISHERIES",
      "Joint Committee on Agriculture and Fisheries",
      true, None, "J45"),
    Row(JOINT_CODE, "BONDING_CAPITAL_EXPENDITURES_AND_STATE_ASSETS",
      "Joint Committee on Bonding, Capital Expenditures and State Assets",
      true, None, "J32"),
    Row(JOINT_CODE, "CANNABIS_POLICY",
      "Joint Committee on Cannabis Policy",
      true, None, "J50"),
    Row(JOINT_CODE, "CHILDREN_FAMILIES_AND_PERSONS_WITH_DISABILITIES",
      "Joint Committee on Children, Families and Persons with Disabilities",
      true, None, "J13"),
    Row(JOINT_CODE, "COMMUNITY_DEVELOPMENT_AND_SMALL_BUSINESSES",
      "Joint Committee on Community Development and Small Businesses",
      true, None, "J47"),
    Row(JOINT_CODE, "CONSUMER_PROTECTION_AND_PROFESSIONAL_LICENSURE",
      "Joint Committee on Consumer Protection and Professional Licensure",
      true, None, "J17")
  ]

  const Rows1: seq<Row> := [
    Row(JOINT_CODE, "ECONOMIC_DEVELOPMENT_AND_EMERGING_TECHNOLOGIES",
      "Joint Committee on Economic Development and Emerging Technologies",
      true, None, "J12"),
    Row(JOINT_CODE, "EDUCATION",
      "Joint Committee on Education",
      true, None, "J14"),
    Row(JOINT_CODE, "ELECTION_LAWS",
      "Joint Committee on Election Laws",
      true, None, "J15"),
    Row(JOINT_CODE, "EMERGENCY_PREPAREDNESS_AND_MANAGEMENT",
      "Joint Committee on Emergency Preparedness and Management",
      true, None, "J52"),
    Row(JOINT_CODE, "ENVIRONMENT_AND_NATURAL_RESOURCES",
      "Joint Committee on Environment and Natural Resources",
      true, None, "J21"),
    Row(JOINT_CODE, "FINANCIAL_SERVICES",
      "Joint Committee on Financial Services",
      true, None, "J11"),
    Row(JOINT_CODE, "HEALTH_CARE_FINANCING",
      "Joint Committee on Health Care Financing",
      true, None, "J24"),
    Row(JOINT_CODE, "HIGHER_EDUCATION",
      "Joint Committee on Higher Education",
      true, None, "J29")
  ]

  const Rows2: seq<Row> := [
    Row(JOINT_CODE, "HOUSING",
      "Joint Committee on Housing",
      true, None, "J28"),
    Row(JOINT_CODE, "THE_JUDICIARY",
      "Joint Committee on the Judiciary",
      true, None, "J19"),
    Row(JOINT_CODE, "LABOR_AND_WORKFORCE_DEVELOPMENT",
      "Joint Committee on Labor and Workforce Development",
      true, None, "J43"),
    Row(JOINT_CODE, "MENTAL_HEALTH_SUBSTANCE_USE_AND_RECOVERY",
      "Joint Committee on Mental Health, Substance Use and Recovery",
      true, None, "J18"),
    Row(JOINT_CODE, "MUNICIPALITIES_AND_REGIONAL_GOVERNMENT",
      "Joint Committee on Municipalities and Regional Government",
      true, None, "J10"),
    Row(JOINT_CODE, "PUBLIC_HEALTH",
      "Joint Committee on Public Health",
      true, None, "J16"),
    Row(JOINT_CODE, "PUBLIC_SAFETY_AND_HOMELAND_SECURITY",
      "Joint Committee on Public Safety and Homeland Security",
      true, None, "J22"),
    Row(JOINT_CODE, "PUBLIC_SERVICE",
      "Joint Committee on Public Service",
      true, None, "J23")
  ]

  const Rows3: seq<Row> := [
    Row(JOINT_CODE, "RACIAL_EQUITY_CIVIL_RIGHTS_AND_INCLUSION",
      "Joint Committee on Racial Equity, Civil Rights, and Inclusion",
      true, None, "J34"),
    Row(JOINT_CODE, "REVENUE",
      "Joint Committee on Revenue",
      true, None, "J26"),
    Row(JOINT_CODE, "RULES",
      "Joint Committee on Rules",
      true, None, "J40"),
    Row(JOINT_CODE, "STATE_ADMINISTRATION_AND_REGULATORY_OVERSIGHT",
      "Joint Committee on State Administration and Regulatory Oversight",
      true, None, "J25"),
    Row(JOINT_CODE, "TELECOMMUNICATIONS_UTILITIES_AND_ENERGY",
      "Joint Committee on Telecommunications, Utilities and Energy",
      true, None, "J37"),
    Row(JOINT_CODE, "TOURISM_ARTS_AND_CULTURAL_DEVELOPMENT",
      "Joint Committee on Tourism, Arts and Cultural Development",
      true, None, "J30"),
    Row(JOINT_CODE, "TRANSPORTATION",
      "Joint Committee on Transportation",
      true, None, "J27"),
    Row(JOINT_CODE, "VETERANS_AND_FEDERAL_AFFAIRS",
      "Joint Committee on Veterans and Federal Affairs",
      true, None, "J31")
  ]

  const Rows4: seq<Row> := [
    Row(JOINT_CODE, "WAYS_AND_MEANS",
      "Joint Committee on Ways and Means",
      true, None, "J39"),
    Row(SENATE_CODE, "BILLS_IN_THE_THIRD_READING",
      "Senate Committee on Bills in the Third Reading",
      false, Some(SENATE), "S31"),
    Row(SENATE_CODE, "THE_CENSUS",
      "Senate Committee on the Census",
      false, Some(SENATE), "S65"),
    Row(SENATE_CODE, "CLIMATE_CHANGE_AND_GLOBAL_WARMING",
      "Senate Committee on Climate Change and Global Warming",
      false, Some(SENATE), "S51"),
    Row(SENATE_CODE, "ETHICS",
      "Senate Committee on Ethics",
      false, Some(SENATE), "S56"),
    Row(SENATE_CODE, "INTERGOVERNMENTAL_AFFAIRS",
      "Senate Committee on Intergovernmental Affairs",
      false, Some(SENATE), "S55"),
    Row(SENATE_CODE, "JUVENILE_AND_EMERGING_ADULT_JUSTICE",
      "Senate Committee on Juvenile and Emerging Adult Justice",
      false, Some(SENATE), "S66"),
    Row(SENATE_CODE, "PERSONNEL_AND_ADMINISTRATION",
      "Senate Committee on Personnel and Administration",
      false, Some(SENATE), "S53")
  ]

  const Rows5: seq<Row> := [
    Row(SENATE_CODE, "POST_AUDIT_AND_OVERSIGHT",
      "Senate Committee on Post Audit and Oversight",
      false, Some(SENATE), "S48"),
    Row(SENATE_CODE, "RULES",
      "Senate Committee on Rules",
      false, Some(SENATE), "S29"),
    Row(COMMITTEE_CODE, "SUBCOMMITTEE_ON_CHAPTER_250_OF_THE_ACTS_OF_2024",
      "Subcommittee on chapter 250 of the acts of 2024",
      false, None, "TS10"),
    Row(SENATE_CODE, "STEERING_AND_POLICY",
      "Senate Committee on Steering and Policy",
      false, Some(SENATE), "S50"),
    Row(SENATE_CODE, "WAYS_AND_MEANS",
      "Senate Committee on Ways and Means",
      false, Some(SENATE), "S30"),
    Row(HOUSE_CODE, "BILLS_IN_THE_THIRD_READING",
      "House Committee on Bills in the Third Reading",
      false, Some(HOUSE), "H36"),
    Row(HOUSE_CODE, "CLIMATE_ACTION_AND_SUSTAINABILITY",
      "House Committee on Climate Action and Sustainability",
      false, Some(HOUSE), "H51"),
    Row(HOUSE_CODE, "ETHICS",
      "House Committee on Ethics",
      false, Some(HOUSE), "H38")
  ]

  const Rows6: seq<Row> := [
    Row(HOUSE_CODE, "FEDERAL_FUNDING_POLICY_AND_ACCOUNTABILITY",
      "House Committee on Federal Funding, Policy and Accountability",
      false, Some(HOUSE), "H54"),
    Row(HOUSE_CODE, "HUMAN_RESOURCES_AND_EMPLOYEE_ENGAGEMENT",
      "House Committee on Human Resources and Employee Engagement",
      false, Some(HOUSE), "H45"),
    Row(HOUSE_CODE, "INTERGOVERNMENTAL_AFFAIRS",
      "House Committee on Intergovernmental Affairs",
      false, Some(HOUSE), "Hxx"),
    Row(HOUSE_CODE, "OPERATIONS_FACILITIES_AND_SECURITY",
      "House Committee on Operations, Facilities and Security",
      false, Some(HOUSE), "H53"),
    Row(HOUSE_CODE, "POST_AUDIT_AND_OVERSIGHT",
      "House Committee on Post Audit and Oversight",
      false, Some(HOUSE), "H46"),
    Row(HOUSE_CODE, "RULES",
      "House Committee on Rules",
      false, Some(HOUSE), "H33"),
    Row(HOUSE_CODE, "STEERING_POLICY_AND_SCHEDULING",
      "House Committee on Steering, Policy and Scheduling",
      false, Some(HOUSE), "H52"),
    Row(HOUSE_CODE, "WAYS_AND_MEANS",
      "House Committee on Ways and Means",
      false, Some(HOUSE), "H34")
  ]

  /** The entries in source order, in chunks of eight. */
  const Rows: seq<Row> := Rows0 + Rows1 + Rows2 + Rows3 + Rows4 + Rows5 + Rows6

  /** `_COMMITTEES`. */
  const Committees: seq<Committee> := seq(|Rows|, i requires 0 <= i < |Rows| => ToCommittee(Rows[i]))

  // ---------------------------------------------------------------------
  // Dictionaries

  /** The keys a committee is filed under in one dictionary. */
  type KeysOf = Committee -> seq<string>

  function CodeKey(c: Committee): seq<string> {
    [c.code]
  }

  function ExternalIdKeys(c: Committee): seq<string> {
    c.externalIds
  }

  function FileUnder(m: map<string, Committee>, keys: seq<string>, c: Committee): (r: map<string, Committee>)
    ensures forall x :: x in r <==> x in m || x in keys
    ensures forall x :: x in keys ==> r[x] == c
    ensures forall x :: x in m && x !in keys ==> r[x] == m[x]
    decreases |keys|
  {
    if |keys| == 0 then m else FileUnder(m[keys[0] := c], keys[1..], c)
  }

  /** A dictionary comprehension over the committees: a later committee overwrites an earlier key. */
  function IndexBy(cs: seq<Committee>, keys: KeysOf): (m: map<string, Committee>)
    decreases |cs|
  {
    if |cs| == 0 then map[]
    else FileUnder(IndexBy(cs[..|cs| - 1], keys), keys(cs[|cs| - 1]), cs[|cs| - 1])
  }

  /** The dictionary's keys are exactly the committees' keys, each filed under a committee that lists it. */
  lemma {:induction false} IndexByContents(cs: seq<Committee>, keys: KeysOf)
    ensures forall x :: x in IndexBy(cs, keys) <==> exists i :: 0 <= i < |cs| && x in keys(cs[i])
    ensures forall x :: x in IndexBy(cs, keys) ==>
      exists i :: 0 <= i < |cs| && cs[i] == IndexBy(cs, keys)[x] && x in keys(cs[i])
    decreases |cs|
  {
    if |cs| > 0 {
      var init := cs[..|cs| - 1];
      IndexByContents(init, keys);
      forall x | x in IndexBy(cs, keys)
        ensures exists i :: 0 <= i < |cs| && cs[i] == IndexBy(cs, keys)[x] && x in keys(cs[i])
      {
        if x !in keys(cs[|cs| - 1]) {
          var i :| 0 <= i < |init| && init[i] == IndexBy(init, keys)[x] && x in keys(init[i]);
          assert cs[i] == init[i];
        }
      }
      forall x | exists i :: 0 <= i < |cs| && x in keys(cs[i])
        ensures x in IndexBy(cs, keys)
      {
        var i :| 0 <= i < |cs| && x in keys(cs[i]);
        if i < |cs| - 1 {
          assert init[i] == cs[i];
        }
      }
    }
  }

  /** When no other committee lists a key, the dictionary files the key under the one that does. */
  lemma IndexByUniqueKey(cs: seq<Committee>, keys: KeysOf, i: int, x: string)
    requires 0 <= i < |cs| && x in keys(cs[i])
    requires forall j :: 0 <= j < |cs| && j != i ==> x !in keys(cs[j])
    ensures x in IndexBy(cs, keys) && IndexBy(cs, keys)[x] == cs[i]
  {
    IndexByContents(cs, keys);
    var j :| 0 <= j < |cs| && cs[j] == IndexBy(cs, keys)[x] && x in keys(cs[j]);
  }

  /** `dict.get` on a dictionary built by `IndexBy`: the committee filed under the key, or `None`. */
  function Lookup(cs: seq<Committee>, keys: KeysOf, x: string): (r: Option<Committee>)
    ensures r.Some? ==> r.value in cs && x in keys(r.value)
    ensures r.None? <==> forall i :: 0 <= i < |cs| ==> x !in keys(cs[i])
  {
    IndexByContents(cs, keys);
    var index := IndexBy(cs, keys);
    if x in index then Some(index[x]) else None
  }

  /** `get_committee_by_external_id`: an unknown id gives `None`. */
  function GetCommitteeByExternalId(id: string): Option<Committee> {
    Lookup(Committees, ExternalIdKeys, id)
  }

  /** `COMMITTEES_BY_CODE.get(code)`, with the dictionary the code intends. */
  function GetCommitteeByCode(code: string): Option<Committee> {
    Lookup(Committees, CodeKey, code)
  }

  // ---------------------------------------------------------------------
  // Facts about the rows, chunk by chunk
  //
  // The lemmas `Rows<k>...` and `Rows<j><k>...` below state one fact for one
  // chunk of eight rows, or for two chunks against each other. They state
  // nothing new about the catalog: they only keep each proof small, and
  // `RowsConsistentAll`, `RowIdsDistinct` and `RowCodesDistinct` combine them.

  /** The row's flags agree with its prefix. */
  predicate RowConsistent(r: Row) {
    && (r.isJoint <==> r.prefix == JOINT_CODE)
    && (r.isJoint ==> r.chamber.None?)
    && (r.prefix == SENATE_CODE ==> r.chamber == Some(SENATE))
    && (r.prefix == HOUSE_CODE ==> r.chamber == Some(HOUSE))
  }

  predicate RowsConsistent(rs: seq<Row>) {
    forall i :: 0 <= i < |rs| ==> RowConsistent(rs[i])
  }

  /** The row's code, as the pair of prefix and remainder. */
  function CodeParts(r: Row): (CodePrefix, string) {
    (r.prefix, r.rest)
  }

  function RowId(r: Row): string {
    r.id
  }

  /** No two rows share a key. */
  predicate Distinct<K(==)>(rs: seq<Row>, key: Row -> K) {
    forall i, j :: 0 <= i < j < |rs| ==> key(rs[i]) != key(rs[j])
  }

  /** No row of `a` shares a key with a row of `b`. */
  predicate Apart<K(==)>(a: seq<Row>, b: seq<Row>, key: Row -> K) {
    forall i, j :: 0 <= i < |a| && 0 <= j < |b| ==> key(a[i]) != key(b[j])
  }

  lemma DistinctAppend<K>(a: seq<Row>, b: seq<Row>, key: Row -> K)
    requires Distinct(a, key) && Distinct(b, key) && Apart(a, b, key)
    ensures Distinct(a + b, key)
  {
    forall i, j | 0 <= i < j < |a + b| ensures key((a + b)[i]) != key((a + b)[j]) {
      if j < |a| {
        assert (a + b)[i] == a[i] && (a + b)[j] == a[j];
      } else if i < |a| {
        assert (a + b)[i] == a[i] && (a + b)[j] == b[j - |a|];
      } else {
        assert (a + b)[i] == b[i - |a|] && (a + b)[j] == b[j - |a|];
      }
    }
  }

  lemma ApartAppend<K>(a: seq<Row>, b: seq<Row>, c: seq<Row>, key: Row -> K)
    requires Apart(a, c, key) && Apart(b, c, key)
    ensures Apart(a + b, c, key)
  {
    forall i, j | 0 <= i < |a + b| && 0 <= j < |c| ensures key((a + b)[i]) != key(c[j]) {
      if i < |a| {
        assert (a + b)[i] == a[i];
      } else {
        assert (a + b)[i] == b[i - |a|];
      }
    }
  }

  lemma ConsistentAppend(a: seq<Row>, b: seq<Row>)
    requires RowsConsistent(a) && RowsConsistent(b)
    ensures RowsConsistent(a + b)
  {
    forall i | 0 <= i < |a + b| ensures RowConsistent((a + b)[i]) {
      if i < |a| {
        assert (a + b)[i] == a[i];
      } else {
        assert (a + b)[i] == b[i - |a|];
      }
    }
  }

  // Splits the solver's work only: chunk 0 on its own.
  lemma Rows0Facts()
    ensures RowsConsistent(Rows0)
  {
  }

  // Splits the solver's work only: chunk 0 on its own.
  lemma Rows0IdsDistinct()
    ensures Distinct(Rows0, RowId)
  {
  }

  // Splits the solver's work only: chunk 0 on its own.
  lemma Rows0CodesDistinct()
    ensures Distinct(Rows0, CodeParts)
  {
  }

  // Splits the solver's work only: chunk 1 on its own.
  lemma Rows1Facts()
    ensures RowsConsistent(Rows1)
  {
  }

  // Splits the solver's work only: chunk 1 on its own.
  lemma Rows1IdsDistinct()
    ensures Distinct(Rows1, RowId)
  {
  }

  // Splits the solver's work only: chunk 1 on its own.
  lemma Rows1CodesDistinct()
    ensures Distinct(Rows1, CodeParts)
  {
  }

  // Splits the solver's work only: chunk 2 on its own.
  lemma Rows2Facts()
    ensures RowsConsistent(Rows2)
  {
  }

  // Splits the solver's work only: chunk 2 on its own.
  lemma Rows2IdsDistinct()
    ensures Distinct(Rows2, RowId)
  {
  }

  // Splits the solver's work only: chunk 2 on its own.
  lemma Rows2CodesDistinct()
    ensures Distinct(Rows2, CodeParts)
  {
  }

  // Splits the solver's work only: chunk 3 on its own.
  lemma Rows3Facts()
    ensures RowsConsistent(Rows3)
  {
  }

  // Splits the solver's work only: chunk 3 on its own.
  lemma Rows3IdsDistinct()
    ensures Distinct(Rows3, RowId)
  {
  }

  // Splits the solver's work only: chunk 3 on its own.
  lemma Rows3CodesDistinct()
    ensures Distinct(Rows3, CodeParts)
  {
  }

  // Splits the solver's work only: chunk 4 on its own.
  lemma Rows4Facts()
    ensures RowsConsistent(Rows4)
  {
  }

  // Splits the solver's work only: chunk 4 on its own.
  lemma Rows4IdsDistinct()
    ensures Distinct(Rows4, RowId)
  {
  }

  // Splits the solver's work only: chunk 4 on its own.
  lemma Rows4CodesDistinct()
    ensures Distinct(Rows4, CodeParts)
  {
  }

  // Splits the solver's work only: chunk 5 on its own.
  lemma Rows5Facts()
    ensures RowsConsistent(Rows5)
  {
  }

  // Splits the solver's work only: chunk 5 on its own.
  lemma Rows5IdsDistinct()
    ensures Distinct(Rows5, RowId)
  {
  }

  // Splits the solver's work only: chunk 5 on its own.
  lemma Rows5CodesDistinct()
    ensures Distinct(Rows5, CodeParts)
  {
  }

  // Splits the solver's work only: chunk 6 on its own.
  lemma Rows6Facts()
    ensures RowsConsistent(Rows6)
  {
  }

  // Splits the solver's work only: chunk 6 on its own.
  lemma Rows6IdsDistinct()
    ensures Distinct(Rows6, RowId)
  {
  }

  // Splits the solver's work only: chunk 6 on its own.
  lemma Rows6CodesDistinct()
    ensures Distinct(Rows6, CodeParts)
  {
  }

  // Splits the solver's work only: chunks 0 and 1 against each other.
  lemma Rows01IdsApart()
    ensures Apart(Rows0, Rows1, RowId)
  {
  }

  // Splits the solver's work only: chunks 0 and 1 against each other.
  lemma Rows01CodesApart()
    ensures Apart(Rows0, Rows1, CodeParts)
  {
  }

  // Splits the solver's work only: chunks 0 and 2 against each other.
  lemma Rows02IdsApart()
    ensures Apart(Rows0, Rows2, RowId)
  {
  }

  // Splits the solver's work only: chunks 0 and 2 against each other.
  lemma Rows02CodesApart()
    ensures Apart(Rows0, Rows2, CodeParts)
  {
  }

  // Splits the solver's work only: chunks 0 and 3 against each other.
  lemma Rows03IdsApart()
    ensures Apart(Rows0, Rows3, RowId)
  {
  }

  // Splits the solver's work only: chunks 0 and 3 against each other.
  lemma Rows03CodesApart()
    ensures Apart(Rows0, Rows3, CodeParts)
  {
  }

  // Splits the solver's work only: chunks 0 and 4 against each other.
  lemma Rows04IdsApart()
    ensures Apart(Rows0, Rows4, RowId)
  {
  }

  // Splits the solver's work only: chunks 0 and 4 against each other.
  lemma Rows04CodesApart()
    ensures Apart(Rows0, Rows4, CodeParts)
  {
  }

  // Splits the solver's work only: chunks 0 and 5 against each other.
  lemma Rows05IdsApart()
    ensures Apart(Rows0, Rows5, RowId)
  {
  }

  // Splits the solver's work only: chunks 0 and 5 against each other.
  lemma Rows05CodesApart()
    ensures Apart(Rows0, Rows5, CodeParts)
  {
  }

  // Splits the solver's work only: chunks 0 and 6 against each other.
  lemma Rows06IdsApart()
    ensures Apart(Rows0, Rows6, RowId)
  {
  }

  // Splits the solver's work only: chunks 0 and 6 against each other.
  lemma Rows06CodesApart()
    ensures Apart(Rows0, Rows6, CodeParts)
  {
  }

  // Splits the solver's work only: chunks 1 and 2 against each other.
  lemma Rows12IdsApart()
    ensures Apart(Rows1, Rows2, RowId)
  {
  }

  // Splits the solver's work only: chunks 1 and 2 against each other.
  lemma Rows12CodesApart()
    ensures Apart(Rows1, Rows2, CodeParts)
  {
  }

  // Splits the solver's work only: chunks 1 and 3 against each other.
  lemma Rows13IdsApart()
    ensures Apart(Rows1, Rows3, RowId)
  {
  }

  // Splits the solver's work only: chunks 1 and 3 against each other.
  lemma Rows13CodesApart()
    ensures Apart(Rows1, Rows3, CodeParts)
  {
  }

  // Splits the solver's work only: chunks 1 and 4 against each other.
  lemma Rows14IdsApart()
    ensures Apart(Rows1, Rows4, RowId)
  {
  }

  // Splits the solver's work only: chunks 1 and 4 against each other.
  lemma Rows14CodesApart()
    ensures Apart(Rows1, Rows4, CodeParts)
  {
  }

  // Splits the solver's work only: chunks 1 and 5 against each other.
  lemma Rows15IdsApart()
    ensures Apart(Rows1, Rows5, RowId)
  {
  }

  // Splits the solver's work only: chunks 1 and 5 against each other.
  lemma Rows15CodesApart()
    ensures Apart(Rows1, Rows5, CodeParts)
  {
  }

  // Splits the solver's work only: chunks 1 and 6 against each other.
  lemma Rows16IdsApart()
    ensures Apart(Rows1, Rows6, RowId)
  {
  }

  // Splits the solver's work only: chunks 1 and 6 against each other.
  lemma Rows16CodesApart()
    ensures Apart(Rows1, Rows6, CodeParts)
  {
  }

  // Splits the solver's work only: chunks 2 and 3 against each other.
  lemma Rows23IdsApart()
    ensures Apart(Rows2, Rows3, RowId)
  {
  }

  // Splits the solver's work only: chunks 2 and 3 against each other.
  lemma Rows23CodesApart()
    ensures Apart(Rows2, Rows3, CodeParts)
  {
  }

  // Splits the solver's work only: chunks 2 and 4 against each other.
  lemma Rows24IdsApart()
    ensures Apart(Rows2, Rows4, RowId)
  {
  }

  // Splits the solver's work only: chunks 2 and 4 against each other.
  lemma Rows24CodesApart()
    ensures Apart(Rows2, Rows4, CodeParts)
  {
  }

  // Splits the solver's work only: chunks 2 and 5 against each other.
  lemma Rows25IdsApart()
    ensures Apart(Rows2, Rows5, RowId)
  {
  }

  // Splits the solver's work only: chunks 2 and 5 against each other.
  lemma Rows25CodesApart()
    ensures Apart(Rows2, Rows5, CodeParts)
  {
  }

  // Splits the solver's work only: chunks 2 and 6 against each other.
  lemma Rows26IdsApart()
    ensures Apart(Rows2, Rows6, RowId)
  {
  }

  // Splits the solver's work only: chunks 2 and 6 against each other.
  lemma Rows26CodesApart()
    ensures Apart(Rows2, Rows6, CodeParts)
  {
  }

  // Splits the solver's work only: chunks 3 and 4 against each other.
  lemma Rows34IdsApart()
    ensures Apart(Rows3, Rows4, RowId)
  {
  }

  // Splits the solver's work only: chunks 3 and 4 against each other.
  lemma Rows34CodesApart()
    ensures Apart(Rows3, Rows4, CodeParts)
  {
  }

  // Splits the solver's work only: chunks 3 and 5 against each other.
  lemma Rows35IdsApart()
    ensures Apart(Rows3, Rows5, RowId)
  {
  }

  // Splits the solver's work only: chunks 3 and 5 against each other.
  lemma Rows35CodesApart()
    ensures Apart(Rows3, Rows5, CodeParts)
  {
  }

  // Splits the solver's work only: chunks 3 and 6 against each other.
  lemma Rows36IdsApart()
    ensures Apart(Rows3, Rows6, RowId)
  {
  }

  // Splits the solver's work only: chunks 3 and 6 against each other.
  lemma Rows36CodesApart()
    ensures Apart(Rows3, Rows6, CodeParts)
  {
  }

  // Splits the solver's work only: chunks 4 and 5 against each other.
  lemma Rows45IdsApart()
    ensures Apart(Rows4, Rows5, RowId)
  {
  }

  // Splits the solver's work only: chunks 4 and 5 against each other.
  lemma Rows45CodesApart()
    ensures Apart(Rows4, Rows5, CodeParts)
  {
  }

  // Splits the solver's work only: chunks 4 and 6 against each other.
  lemma Rows46IdsApart()
    ensures Apart(Rows4, Rows6, RowId)
  {
  }

  // Splits the solver's work only: chunks 4 and 6 against each other.
  lemma Rows46CodesApart()
    ensures Apart(Rows4, Rows6, CodeParts)
  {
  }

  // Splits the solver's work only: chunks 5 and 6 against each other.
  lemma Rows56IdsApart()
    ensures Apart(Rows5, Rows6, RowId)
  {
  }

  // Splits the solver's work only: chunks 5 and 6 against each other.
  lemma Rows56CodesApart()
    ensures Apart(Rows5, Rows6, CodeParts)
  {
  }

  lemma RowsConsistentAll()
    ensures |Rows| == 56 && RowsConsistent(Rows)
  {
    Rows0Facts();
    Rows1Facts();
    Rows2Facts();
    Rows3Facts();
    Rows4Facts();
    Rows5Facts();
    Rows6Facts();
    ConsistentAppend(Rows0, Rows1);
    ConsistentAppend(Rows0 + Rows1, Rows2);
    ConsistentAppend(Rows0 + Rows1 + Rows2, Rows3);
    ConsistentAppend(Rows0 + Rows1 + Rows2 + Rows3, Rows4);
    ConsistentAppend(Rows0 + Rows1 + Rows2 + Rows3 + Rows4, Rows5);
    ConsistentAppend(Rows0 + Rows1 + Rows2 + Rows3 + Rows4 + Rows5, Rows6);
  }

  lemma RowIdsDistinctFirstHalf()
    ensures Distinct(Rows0 + Rows1 + Rows2 + Rows3, RowId)
  {
    Rows0IdsDistinct();
    Rows1IdsDistinct();
    Rows2IdsDistinct();
    Rows3IdsDistinct();
    Rows01IdsApart();
    DistinctAppend(Rows0, Rows1, RowId);
    Rows02IdsApart();
    Rows12IdsApart();
    ApartAppend(Rows0, Rows1, Rows2, RowId);
    DistinctAppend(Rows0 + Rows1, Rows2, RowId);
    Rows03IdsApart();
    Rows13IdsApart();
    Rows23IdsApart();
    ApartAppend(Rows0, Rows1, Rows3, RowId);
    ApartAppend(Rows0 + Rows1, Rows2, Rows3, RowId);
    DistinctAppend(Rows0 + Rows1 + Rows2, Rows3, RowId);
  }

  lemma RowIdsDistinct()
    ensures Distinct(Rows, RowId)
  {
    RowIdsDistinctFirstHalf();
    Rows4IdsDistinct();
    Rows5IdsDistinct();
    Rows6IdsDistinct();
    Rows04IdsApart();
    Rows14IdsApart();
    Rows24IdsApart();
    Rows34IdsApart();
    ApartAppend(Rows0, Rows1, Rows4, RowId);
    ApartAppend(Rows0 + Rows1, Rows2, Rows4, RowId);
    ApartAppend(Rows0 + Rows1 + Rows2, Rows3, Rows4, RowId);
    DistinctAppend(Rows0 + Rows1 + Rows2 + Rows3, Rows4, RowId);
    Rows05IdsApart();
    Rows15IdsApart();
    Rows25IdsApart();
    Rows35IdsApart();
    Rows45IdsApart();
    ApartAppend(Rows0, Rows1, Rows5, RowId);
    ApartAppend(Rows0 + Rows1, Rows2, Rows5, RowId);
    ApartAppend(Rows0 + Rows1 + Rows2, Rows3, Rows5, RowId);
    ApartAppend(Rows0 + Rows1 + Rows2 + Rows3, Rows4, Rows5, RowId);
    DistinctAppend(Rows0 + Rows1 + Rows2 + Rows3 + Rows4, Rows5, RowId);
    Rows06IdsApart();
    Rows16IdsApart();
    Rows26IdsApart();
    Rows36IdsApart();
    Rows46IdsApart();
    Rows56IdsApart();
    ApartAppend(Rows0, Rows1, Rows6, RowId);
    ApartAppend(Rows0 + Rows1, Rows2, Rows6, RowId);
    ApartAppend(Rows0 + Rows1 + Rows2, Rows3, Rows6, RowId);
    ApartAppend(Rows0 + Rows1 + Rows2 + Rows3, Rows4, Rows6, RowId);
    ApartAppend(Rows0 + Rows1 + Rows2 + Rows3 + Rows4, Rows5, Rows6, RowId);
    DistinctAppend(Rows0 + Rows1 + Rows2 + Rows3 + Rows4 + Rows5, Rows6, RowId);
  }

  lemma RowCodesDistinctFirstHalf()
    ensures Distinct(Rows0 + Rows1 + Rows2 + Rows3, CodeParts)
  {
    Rows0CodesDistinct();
    Rows1CodesDistinct();
    Rows2CodesDistinct();
    Rows3CodesDistinct();
    Rows01CodesApart();
    DistinctAppend(Rows0, Rows1, CodeParts);
    Rows02CodesApart();
    Rows12CodesApart();
    ApartAppend(Rows0, Rows1, Rows2, CodeParts);
    DistinctAppend(Rows0 + Rows1, Rows2, CodeParts);
    Rows03CodesApart();
    Rows13CodesApart();
    Rows23CodesApart();
    ApartAppend(Rows0, Rows1, Rows3, CodeParts);
    ApartAppend(Rows0 + Rows1, Rows2, Rows3, CodeParts);
    DistinctAppend(Rows0 + Rows1 + Rows2, Rows3, CodeParts);
  }

  lemma RowCodesDistinct()
    ensures Distinct(Rows, CodeParts)
  {
    RowCodesDistinctFirstHalf();
    Rows4CodesDistinct();
    Rows5CodesDistinct();
    Rows6CodesDistinct();
    Rows04CodesApart();
    Rows14CodesApart();
    Rows24CodesApart();
    Rows34CodesApart();
    ApartAppend(Rows0, Rows1, Rows4, CodeParts);
    ApartAppend(Rows0 + Rows1, Rows2, Rows4, CodeParts);
    ApartAppend(Rows0 + Rows1 + Rows2, Rows3, Rows4, CodeParts);
    DistinctAppend(Rows0 + Rows1 + Rows2 + Rows3, Rows4, CodeParts);
    Rows05CodesApart();
    Rows15CodesApart();
    Rows25CodesApart();
    Rows35CodesApart();
    Rows45CodesApart();
    ApartAppend(Rows0, Rows1, Rows5, CodeParts);
    ApartAppend(Rows0 + Rows1, Rows2, Rows5, CodeParts);
    ApartAppend(Rows0 + Rows1 + Rows2, Rows3, Rows5, CodeParts);
    ApartAppend(Rows0 + Rows1 + Rows2 + Rows3, Rows4, Rows5, CodeParts);
    DistinctAppend(Rows0 + Rows1 + Rows2 + Rows3 + Rows4, Rows5, CodeParts);
    Rows06CodesApart();
    Rows16CodesApart();
    Rows26CodesApart();
    Rows36CodesApart();
    Rows46CodesApart();
    Rows56CodesApart();
    ApartAppend(Rows0, Rows1, Rows6, CodeParts);
    ApartAppend(Rows0 + Rows1, Rows2, Rows6, CodeParts);
    ApartAppend(Rows0 + Rows1 + Rows2, Rows3, Rows6, CodeParts);
    ApartAppend(Rows0 + Rows1 + Rows2 + Rows3, Rows4, Rows6, CodeParts);
    ApartAppend(Rows0 + Rows1 + Rows2 + Rows3 + Rows4, Rows5, Rows6, CodeParts);
    DistinctAppend(Rows0 + Rows1 + Rows2 + Rows3 + Rows4 + Rows5, Rows6, CodeParts);
  }

  // ---------------------------------------------------------------------
  // From rows to committees

  /** A committee's code starts with exactly one of the four prefixes: its row's. */
  lemma CodePrefixOf(r: Row, q: CodePrefix)
    ensures StartsWith(ToCommittee(r).code, PrefixText(q)) <==> r.prefix == q
  {
    var code := ToCommittee(r).code;
    var p := PrefixText(r.prefix);
    assert code[..|p|] == p;
    if r.prefix != q && |PrefixText(q)| <= |code| {
      assert code[0] == p[0] != PrefixText(q)[0];
      assert code[..|PrefixText(q)|][0] == code[0];
    }
  }

  /** Different rows' codes differ: the prefix and the remainder determine the code. */
  lemma CodeDeterminesParts(r: Row, s: Row)
    requires ToCommittee(r).code == ToCommittee(s).code
    ensures CodeParts(r) == CodeParts(s)
  {
    CodePrefixOf(r, s.prefix);
    CodePrefixOf(s, s.prefix);
    var p := PrefixText(r.prefix);
    assert ToCommittee(r).code[|p|..] == r.rest;
    assert ToCommittee(s).code[|p|..] == s.rest;
  }

  lemma CommitteeAt(i: int)
    requires 0 <= i < |Committees|
    ensures |Committees| == |Rows| && Committees[i] == ToCommittee(Rows[i])
  {
  }

  // ---------------------------------------------------------------------
  // The catalog's promises

  /** The catalog has 56 committees and no two share a code. */
  lemma CatalogCodesDistinct()
    ensures |Committees| == 56
    ensures forall i, j :: 0 <= i < j < |Committees| ==> Committees[i].code != Committees[j].code
  {
    RowsConsistentAll();
    RowCodesDistinct();
    forall i, j | 0 <= i < j < |Committees| ensures Committees[i].code != Committees[j].code {
      CommitteeAt(i);
      CommitteeAt(j);
      if Committees[i].code == Committees[j].code {
        CodeDeterminesParts(Rows[i], Rows[j]);
        assert false;
      }
    }
  }

  /**
    Each committee lists exactly one external id, no two committees list
    the same one, and looking a committee's id up finds that committee: the
    id dictionary is a bijection onto the catalog.
   */
  lemma CatalogIdsBijective()
    ensures forall i :: 0 <= i < |Committees| ==> |Committees[i].externalIds| == 1
    ensures forall i, j :: 0 <= i < j < |Committees| ==>
      Committees[i].externalIds[0] != Committees[j].externalIds[0]
    ensures forall i :: 0 <= i < |Committees| ==>
      GetCommitteeByExternalId(Committees[i].externalIds[0]) == Some(Committees[i])
  {
    RowsConsistentAll();
    RowIdsDistinct();
    forall i | 0 <= i < |Committees|
      ensures GetCommitteeByExternalId(Committees[i].externalIds[0]) == Some(Committees[i])
    {
      CommitteeAt(i);
      var x := Rows[i].id;
      forall j | 0 <= j < |Committees| && j != i ensures x !in ExternalIdKeys(Committees[j]) {
        CommitteeAt(j);
      }
      IndexByUniqueKey(Committees, ExternalIdKeys, i, x);
    }
  }

  /** Looking a committee's code up in the intended code dictionary finds that committee. */
  lemma CatalogCodeLookup(i: int)
    requires 0 <= i < |Committees|
    ensures GetCommitteeByCode(Committees[i].code) == Some(Committees[i])
  {
    CatalogCodesDistinct();
    var x := Committees[i].code;
    forall j | 0 <= j < |Committees| && j != i ensures x !in CodeKey(Committees[j]) {
    }
    IndexByUniqueKey(Committees, CodeKey, i, x);
  }

  /**
    `is_joint` holds exactly for the `JOINT_` codes, which have no primary
    chamber; `SENATE_` codes are the Senate's and `HOUSE_` codes the
    House's; every code has one of the four prefixes.
   */
  lemma CatalogFlags()
    ensures forall i :: 0 <= i < |Committees| ==>
      var c := Committees[i];
      && (c.isJoint <==> StartsWith(c.code, JointPrefix))
      && (c.isJoint ==> c.primaryChamber.None?)
      && (StartsWith(c.code, SenatePrefix) ==> c.primaryChamber == Some(SENATE))
      && (StartsWith(c.code, HousePrefix) ==> c.primaryChamber == Some(HOUSE))
      && (StartsWith(c.code, JointPrefix) || StartsWith(c.code, SenatePrefix)
          || StartsWith(c.code, HousePrefix) || StartsWith(c.code, SubcommitteePrefix))
  {
    RowsConsistentAll();
    forall i | 0 <= i < |Committees| ensures
      var c := Committees[i];
      && (c.isJoint <==> StartsWith(c.code, JointPrefix))
      && (c.isJoint ==> c.primaryChamber.None?)
      && (StartsWith(c.code, SenatePrefix) ==> c.primaryChamber == Some(SENATE))
      && (StartsWith(c.code, HousePrefix) ==> c.primaryChamber == Some(HOUSE))
      && (StartsWith(c.code, JointPrefix) || StartsWith(c.code, SenatePrefix)
          || StartsWith(c.code, HousePrefix) || StartsWith(c.code, SubcommitteePrefix))
    {
      CommitteeAt(i);
      var r := Rows[i];
      assert RowConsistent(r);
      CodePrefixOf(r, JOINT_CODE);
      CodePrefixOf(r, SENATE_CODE);
      CodePrefixOf(r, HOUSE_CODE);
      CodePrefixOf(r, COMMITTEE_CODE);
      CodePrefixOf(r, r.prefix);
    }
  }

  /** A committee code of the catalog's form: one of the four prefixes. */
  predicate HasCatalogPrefix(s: string) {
    StartsWith(s, JointPrefix) || StartsWith(s, SenatePrefix)
    || StartsWith(s, HousePrefix) || StartsWith(s, SubcommitteePrefix)
  }

  /** Whatever the id dictionary returns has a code of the catalog's form. */
  lemma LookupHasCatalogPrefix(id: string)
    ensures GetCommitteeByExternalId(id).Some? ==> HasCatalogPrefix(GetCommitteeByExternalId(id).value.code)
  {
    var c := GetCommitteeByExternalId(id);
    if c.Some? {
      CatalogEntryHasPrefix(c.value);
    }
  }

  /** Every catalogued committee's code has the catalog's form. */
  lemma CatalogEntryHasPrefix(c: Committee)
    requires c in Committees
    ensures HasCatalogPrefix(c.code)
  {
    var i :| 0 <= i < |Committees| && Committees[i] == c;
    CommitteeAt(i);
    RowHasCatalogPrefix(Rows[i]);
  }

  lemma RowHasCatalogPrefix(r: Row)
    ensures HasCatalogPrefix(ToCommittee(r).code)
  {
    CodePrefixOf(r, r.prefix);
  }

  /** The catalog's chunks, eight entries each. */
  lemma ChunkLengths()
    ensures |Rows0| == 8 && |Rows1| == 8 && |Rows2| == 8 && |Rows3| == 8
    ensures |Rows4| == 8 && |Rows5| == 8 && |Rows6| == 8
  {
    assert |Rows0| == 8;
    assert |Rows1| == 8;
    assert |Rows2| == 8;
    assert |Rows3| == 8;
    assert |Rows4| == 8;
    assert |Rows5| == 8;
  }

  /** The last entry of the catalog is the last of the final chunk. */
  lemma LastEntry()
    ensures |Committees| == 56 && Committees[55] == ToCommittee(Rows6[7])
  {
    ChunkLengths();
    assert Rows[55] == Rows6[7];
  }

  /** The House Committee on Ways and Means, id H34. */
  lemma HouseWaysAndMeansRow()
    ensures ToCommittee(Rows6[7]).code == "HOUSE_WAYS_AND_MEANS"
    ensures ToCommittee(Rows6[7]).externalIds == ["H34"]
  {
  }

  /** Id H34 finds the House Committee on Ways and Means. */
  lemma HouseWaysAndMeansLookup(id: string)
    requires id == "H34"
    ensures GetCommitteeByExternalId(id).Some?
    ensures GetCommitteeByExternalId(id).value.code == "HOUSE_WAYS_AND_MEANS"
  {
    LastEntry();
    HouseWaysAndMeansRow();
    CatalogIdsBijective();
    assert GetCommitteeByExternalId(Committees[55].externalIds[0]) == Some(Committees[55]);
  }
}
