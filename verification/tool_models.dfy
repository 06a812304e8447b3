/**
  The export records of tools/models.py and their `to_dict` methods. A
  dictionary is a sequence of (key, value) pairs in field order, which is
  the order `dataclasses.asdict` produces; values are JSON values. Each
  `to_dict` is paired with a reader that takes the dictionary back, and the
  round trip shows what the dictionary keeps and what it drops.
 */
module ToolModels {
  import opened Wrappers
  import opened Provenance

  datatype Json =
    | JNull
    | JBool(b: bool)
    | JInt(i: int)
    | JReal(x: real)
    | JStr(s: string)
    | JList(items: seq<Json>)
    | JObj(fields: seq<(string, Json)>)

  type Dict = seq<(string, Json)>

  function Keys(d: Dict): (r: seq<string>)
    ensures |r| == |d|
    ensures forall k | 0 <= k < |d| :: r[k] == d[k].0
  {
    seq(|d|, k requires 0 <= k < |d| => d[k].0)
  }

  /** `d.get(key)`: the value of the first pair with that key. */
  function Lookup(d: Dict, key: string): Option<Json> {
    if |d| == 0 then None
    else if d[0].0 == key then Some(d[0].1)
    else Lookup(d[1..], key)
  }

  /** No value of the dictionary is `null`. */
  predicate NoNulls(d: Dict) {
    forall k | 0 <= k < |d| :: d[k].1 != JNull
  }

  function StrList(xs: seq<string>): (r: Json)
    ensures r.JList? && |r.items| == |xs|
  {
    JList(seq(|xs|, k requires 0 <= k < |xs| => JStr(xs[k])))
  }

  /** Reads back a list of strings; anything else is `None`. */
  function StrsOf(items: seq<Json>): (r: Option<seq<string>>)
    ensures r.Some? ==> |r.value| == |items|
  {
    if |items| == 0 then Some([])
    else if !items[0].JStr? then None
    else match StrsOf(items[1..])
      case None => None
      case Some(rest) => Some([items[0].s] + rest)
  }

  lemma {:induction false} StrsOfStrList(xs: seq<string>)
    ensures StrsOf(StrList(xs).items) == Some(xs)
    decreases |xs|
  {
    if |xs| > 0 {
      assert StrList(xs).items[1..] == StrList(xs[1..]).items;
      StrsOfStrList(xs[1..]);
      assert xs == [xs[0]] + xs[1..];
    }
  }

  // ---------------------------------------------------------------------
  // ProvenanceInfo

  datatype ProvenanceInfo = ProvenanceInfo(
    sourceId: string,
    labelText: string,
    kind: string,
    url: Option<string>,
    details: Option<seq<string>>)

  /** `ProvenanceInfo.from_source_ref`: an empty detail set becomes `None`. */
  function FromSourceRef(source: SourceRef): (r: ProvenanceInfo)
    ensures r.sourceId == source.id && r.labelText == source.labelText && r.url == source.url
    ensures r.details.None? <==> |source.details| == 0
    ensures r.details.Some? ==> |r.details.value| > 0
  {
    ProvenanceInfo(source.id, source.labelText, KindName(source.kind), source.url,
                   if |source.details| > 0 then Some(source.details) else None)
  }

  /** `SourceKind[name]`. */
  function KindOfName(name: string): (r: Option<SourceKind>)
    ensures r.Some? ==> KindName(r.value) == name
  {
    match name
    case "STATUTE" => Some(STATUTE)
    case "OFFICIAL_WEBSITE" => Some(OFFICIAL_WEBSITE)
    case "ECONOMIC_SERIES" => Some(ECONOMIC_SERIES)
    case "DATA_FILE" => Some(DATA_FILE)
    case "CALCULATION" => Some(CALCULATION)
    case "MANUAL_OVERRIDE" => Some(MANUAL_OVERRIDE)
    case _ => None
  }

  /** The citation an export entry describes. */
  function SourceRefOf(p: ProvenanceInfo): (r: Option<SourceRef>)
    ensures r.Some? ==> r.value.id == p.sourceId && KindName(r.value.kind) == p.kind
  {
    match KindOfName(p.kind)
    case None => None
    case Some(kind) => Some(SourceRef(p.sourceId, p.labelText, kind, p.url,
                                      if p.details.Some? then p.details.value else []))
  }

  /** Nothing of a citation is lost in the export: the kind's name and the details read back. */
  lemma FromSourceRefRoundTrip(source: SourceRef)
    ensures SourceRefOf(FromSourceRef(source)) == Some(source)
  {
    match source.kind
    case STATUTE =>
    case OFFICIAL_WEBSITE =>
    case ECONOMIC_SERIES =>
    case DATA_FILE =>
    case CALCULATION =>
    case MANUAL_OVERRIDE =>
  }

  /** `ProvenanceInfo.to_dict`: the fields in order, leaving out those that are `None`. */
  function ProvenanceToDict(p: ProvenanceInfo): (r: Dict)
    ensures NoNulls(r)
    ensures |r| == 3 + (if p.url.Some? then 1 else 0) + (if p.details.Some? then 1 else 0)
  {
    [("source_id", JStr(p.sourceId)), ("label", JStr(p.labelText)), ("kind", JStr(p.kind))]
      + (if p.url.Some? then [("url", JStr(p.url.value))] else [])
      + (if p.details.Some? then [("details", StrList(p.details.value))] else [])
  }

  /** The value of the first pair with a key is what `Lookup` finds. */
  lemma {:induction false} LookupFirst(d: Dict, i: nat, key: string)
    requires i < |d| && d[i].0 == key
    requires forall j | 0 <= j < i :: d[j].0 != key
    ensures Lookup(d, key) == Some(d[i].1)
    decreases i
  {
    if i > 0 {
      LookupFirst(d[1..], i - 1, key);
    }
  }

  lemma {:induction false} LookupAbsent(d: Dict, key: string)
    requires forall j | 0 <= j < |d| :: d[j].0 != key
    ensures Lookup(d, key) == None
    decreases |d|
  {
    if |d| > 0 {
      LookupAbsent(d[1..], key);
    }
  }

  /** Exactly the fields that are set appear as keys, each with its value. */
  lemma ProvenanceDictKeys(p: ProvenanceInfo)
    ensures var d := ProvenanceToDict(p);
      && Lookup(d, "source_id") == Some(JStr(p.sourceId))
      && Lookup(d, "label") == Some(JStr(p.labelText))
      && Lookup(d, "kind") == Some(JStr(p.kind))
      && Lookup(d, "url") == (if p.url.Some? then Some(JStr(p.url.value)) else None)
      && Lookup(d, "details") == (if p.details.Some? then Some(StrList(p.details.value)) else None)
  {
    var d := ProvenanceToDict(p);
    LookupFirst(d, 0, "source_id");
    LookupFirst(d, 1, "label");
    LookupFirst(d, 2, "kind");
    if p.url.Some? {
      LookupFirst(d, 3, "url");
      if p.details.Some? {
        LookupFirst(d, 4, "details");
      } else {
        LookupAbsent(d, "details");
      }
    } else {
      LookupAbsent(d, "url");
      if p.details.Some? {
        LookupFirst(d, 3, "details");
      } else {
        LookupAbsent(d, "details");
      }
    }
  }

  function StrField(d: Dict, key: string): (r: Option<string>)
    ensures r.Some? ==> Lookup(d, key) == Some(JStr(r.value))
  {
    match Lookup(d, key)
    case Some(JStr(s)) => Some(s)
    case _ => None
  }

  /** Reads a provenance entry back; a missing optional key reads as `None`. */
  function ProvenanceFromDict(d: Dict): (r: Option<ProvenanceInfo>)
    ensures r.Some? ==> Lookup(d, "source_id") == Some(JStr(r.value.sourceId))
    ensures r.Some? ==> Lookup(d, "kind") == Some(JStr(r.value.kind))
  {
    match (StrField(d, "source_id"), StrField(d, "label"), StrField(d, "kind"))
    case (Some(id), Some(l), Some(k)) =>
      var url := StrField(d, "url");
      var details := match Lookup(d, "details")
        case Some(JList(items)) => StrsOf(items)
        case _ => None;
      Some(ProvenanceInfo(id, l, k, url, details))
    case _ => None
  }

  /** The dictionary keeps every field that is set: reading it back gives the entry. */
  lemma ProvenanceDictRoundTrip(p: ProvenanceInfo)
    ensures ProvenanceFromDict(ProvenanceToDict(p)) == Some(p)
  {
    ProvenanceDictKeys(p);
    if p.details.Some? {
      StrsOfStrList(p.details.value);
    }
  }

  // ---------------------------------------------------------------------
  // RoleStipendInfo

  datatype RoleStipendInfo = RoleStipendInfo(
    roleCode: string,
    roleTitle: string,
    tierId: Option<string>,
    baseAmount: int,
    adjustedAmount: int,
    adjustmentFactor: real,
    paid: bool,
    reason: string,
    provenance: seq<Dict>)

  const RoleStipendKeys: seq<string> := ["role_code", "role_title", "tier_id", "base_amount", "adjusted_amount",
                                         "adjustment_factor", "paid", "reason", "provenance"]

  function OptStr(o: Option<string>): Json {
    if o.Some? then JStr(o.value) else JNull
  }

  function DictList(ds: seq<Dict>): (r: Json)
    ensures r.JList? && |r.items| == |ds|
  {
    JList(seq(|ds|, k requires 0 <= k < |ds| => JObj(ds[k])))
  }

  /** `RoleStipendInfo.to_dict`: every field, a missing tier as `null`. */
  function RoleStipendToDict(info: RoleStipendInfo): (r: Dict)
    ensures Keys(r) == RoleStipendKeys
    ensures r[2].1 == JNull <==> info.tierId.None?
  {
    [("role_code", JStr(info.roleCode)), ("role_title", JStr(info.roleTitle)),
     ("tier_id", OptStr(info.tierId)), ("base_amount", JInt(info.baseAmount)),
     ("adjusted_amount", JInt(info.adjustedAmount)), ("adjustment_factor", JReal(info.adjustmentFactor)),
     ("paid", JBool(info.paid)), ("reason", JStr(info.reason)),
     ("provenance", DictList(info.provenance))]
  }

  lemma DictListInjective(a: seq<Dict>, b: seq<Dict>)
    requires DictList(a) == DictList(b)
    ensures a == b
  {
    assert |a| == |b|;
    forall k | 0 <= k < |a|
      ensures a[k] == b[k]
    {
      assert DictList(a).items[k] == JObj(a[k]);
      assert DictList(b).items[k] == JObj(b[k]);
    }
  }

  /** Every field is kept: two entries with the same dictionary are the same entry. */
  lemma RoleStipendDictInjective(a: RoleStipendInfo, b: RoleStipendInfo)
    requires RoleStipendToDict(a) == RoleStipendToDict(b)
    ensures a == b
  {
    var da := RoleStipendToDict(a);
    var db := RoleStipendToDict(b);
    assert da[2] == db[2];
    assert a.tierId == b.tierId by {
      if a.tierId.Some? { assert OptStr(a.tierId) == JStr(a.tierId.value); }
    }
    assert da[8] == db[8];
    DictListInjective(a.provenance, b.provenance);
  }

  // ---------------------------------------------------------------------
  // CompensationComponent

  datatype CompensationComponent = CompensationComponent(
    labelText: string,
    amount: int,
    provenance: seq<Dict>,
    details: Option<Dict>)

  /** `CompensationComponent.to_dict`: `details` is left out when it is `None`, every other field kept. */
  function ComponentToDict(c: CompensationComponent): (r: Dict)
    ensures NoNulls(r)
    ensures |r| >= 3 && Keys(r)[..3] == ["label", "amount", "provenance"]
    ensures |r| == 3 <==> c.details.None?
    ensures c.details.Some? ==> |r| == 4 && r[3] == ("details", JObj(c.details.value))
  {
    var d := [("label", JStr(c.labelText)), ("amount", JInt(c.amount)), ("provenance", DictList(c.provenance))]
      + (if c.details.Some? then [("details", JObj(c.details.value))] else []);
    assert Keys(d)[..3] == ["label", "amount", "provenance"];
    d
  }

  function DictsOf(items: seq<Json>): (r: Option<seq<Dict>>)
    ensures r.Some? ==> |r.value| == |items|
  {
    if |items| == 0 then Some([])
    else if !items[0].JObj? then None
    else match DictsOf(items[1..])
      case None => None
      case Some(rest) => Some([items[0].fields] + rest)
  }

  lemma {:induction false} DictsOfDictList(ds: seq<Dict>)
    ensures DictsOf(DictList(ds).items) == Some(ds)
    decreases |ds|
  {
    if |ds| > 0 {
      assert DictList(ds).items[1..] == DictList(ds[1..]).items;
      DictsOfDictList(ds[1..]);
      assert ds == [ds[0]] + ds[1..];
    }
  }

  /** Reads a component back; a missing `details` reads as `None`. */
  function ComponentFromDict(d: Dict): (r: Option<CompensationComponent>)
    ensures r.Some? ==> Lookup(d, "amount") == Some(JInt(r.value.amount))
  {
    match (StrField(d, "label"), Lookup(d, "amount"), Lookup(d, "provenance"))
    case (Some(l), Some(JInt(a)), Some(JList(items))) =>
      (match DictsOf(items)
       case None => None
       case Some(prov) =>
         var details := match Lookup(d, "details")
           case Some(JObj(fields)) => Some(fields)
           case _ => None;
         Some(CompensationComponent(l, a, prov, details)))
    case _ => None
  }

  lemma ComponentDictRoundTrip(c: CompensationComponent)
    ensures ComponentFromDict(ComponentToDict(c)) == Some(c)
  {
    var d := ComponentToDict(c);
    LookupFirst(d, 0, "label");
    LookupFirst(d, 1, "amount");
    LookupFirst(d, 2, "provenance");
    DictsOfDictList(c.provenance);
    if c.details.Some? {
      LookupFirst(d, 3, "details");
    } else {
      LookupAbsent(d, "details");
    }
  }

  // ---------------------------------------------------------------------
  // MemberProfile

  datatype MemberProfile = MemberProfile(
    memberId: string,
    name: string,
    chamber: string,
    party: string,
    district: Option<string>,
    distanceFromStateHouse: Option<real>,
    sessionId: string,
    compensation: Dict,
    validationIssues: seq<Dict>,
    rawDataSources: seq<(string, string)>)

  const MemberProfileKeys: seq<string> := ["member_id", "name", "chamber", "party", "district",
                                           "distance_from_state_house", "session_id", "compensation",
                                           "validation_issues", "raw_data_sources"]

  function StrDict(d: seq<(string, string)>): (r: Dict)
    ensures |r| == |d|
  {
    seq(|d|, k requires 0 <= k < |d| => (d[k].0, JStr(d[k].1)))
  }

  /** `MemberProfile.to_dict`: every field, a missing district or distance as `null`. */
  function MemberProfileToDict(p: MemberProfile): (r: Dict)
    ensures Keys(r) == MemberProfileKeys
    ensures r[4].1 == JNull <==> p.district.None?
    ensures r[5].1 == JNull <==> p.distanceFromStateHouse.None?
  {
    [("member_id", JStr(p.memberId)), ("name", JStr(p.name)), ("chamber", JStr(p.chamber)),
     ("party", JStr(p.party)), ("district", OptStr(p.district)),
     ("distance_from_state_house",
      if p.distanceFromStateHouse.Some? then JReal(p.distanceFromStateHouse.value) else JNull),
     ("session_id", JStr(p.sessionId)), ("compensation", JObj(p.compensation)),
     ("validation_issues", DictList(p.validationIssues)),
     ("raw_data_sources", JObj(StrDict(p.rawDataSources)))]
  }

  /** Every field is kept: two profiles with the same dictionary are the same profile. */
  lemma MemberProfileDictInjective(a: MemberProfile, b: MemberProfile)
    requires MemberProfileToDict(a) == MemberProfileToDict(b)
    ensures a == b
  {
    var da := MemberProfileToDict(a);
    var db := MemberProfileToDict(b);
    assert da[4] == db[4] && da[5] == db[5];
    assert a.district == b.district by {
      if a.district.Some? { assert OptStr(a.district) == JStr(a.district.value); }
    }
    assert da[8] == db[8];
    DictListInjective(a.validationIssues, b.validationIssues);
    assert da[9] == db[9];
    var sa := StrDict(a.rawDataSources);
    var sb := StrDict(b.rawDataSources);
    assert sa == sb;
    assert |a.rawDataSources| == |b.rawDataSources|;
    forall k | 0 <= k < |a.rawDataSources|
      ensures a.rawDataSources[k] == b.rawDataSources[k]
    {
      assert sa[k] == sb[k];
    }
  }
}
