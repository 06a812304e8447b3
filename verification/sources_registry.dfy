/**
  The citation registry of audit/sources_registry.py: four statutory and
  economic sources and a lookup by id that fails on an unknown id.
 */
module SourcesRegistry {
  import opened Wrappers
  import opened Provenance

  const MGL_3_9B: SourceRef := SourceRef(
    "MGL_3_9B",
    "Mass. Gen. Laws c.3 S9B",
    STATUTE,
    Some("https://malegislature.gov/Laws/GeneralLaws/PartI/TitleI/Chapter3/Section9B"),
    [])

  const MGL_3_9C: SourceRef := SourceRef(
    "MGL_3_9C",
    "Mass. Gen. Laws c.3 S9C",
    STATUTE,
    Some("https://malegislature.gov/Laws/GeneralLaws/PartI/TitleI/Chapter3/Section9C"),
    [])

  const ARTICLE_CXVIII_BASE: SourceRef := SourceRef(
    "MGL_ART_CXVIII",
    "Mass. Const. amend. Art. CXVIII (legislator base salary)",
    STATUTE,
    None,
    [])

  const BEA_WAGE_SERIES: SourceRef := SourceRef(
    "BEA_WAGE_SERIES",
    "BEA Massachusetts wages and salaries series (8-quarter adjustment)",
    ECONOMIC_SERIES,
    Some("https://bea.gov/"),
    [])

  /** The registered sources, in the order the registry lists them. */
  const RegisteredSources: seq<SourceRef> := [MGL_3_9B, MGL_3_9C, ARTICLE_CXVIII_BASE, BEA_WAGE_SERIES]

  /**
    The dictionary comprehension `{s.id: s for s in sources}`: entries are
    inserted in order, so a later source replaces an earlier one with the
    same id.
   */
  function IndexById(sources: seq<SourceRef>): (m: map<string, SourceRef>)
    ensures forall k :: k in m ==> m[k].id == k && m[k] in sources
    ensures forall s :: s in sources ==> s.id in m
    decreases |sources|
  {
    if |sources| == 0 then map[]
    else
      var init := sources[..|sources| - 1];
      var last := sources[|sources| - 1];
      assert forall s :: s in init ==> s in sources;
      IndexById(init)[last.id := last]
  }

  /** `_ALL_SOURCES`. */
  function Registry(): map<string, SourceRef> {
    IndexById(RegisteredSources)
  }

  /** `get_source(id)`: the registered source with that id, or `KeyError`. */
  function GetSource(id: string): (r: Result<SourceRef>)
    ensures r.Ok? <==> exists s :: s in RegisteredSources && s.id == id
    ensures r.Ok? ==> r.value.id == id && r.value in RegisteredSources
    ensures r.Err? ==> r == Err(KeyError(id))
  {
    if id in Registry() then Ok(Registry()[id]) else Err(KeyError(id))
  }

  /** The four ids are distinct, so each source is stored under its own id. */
  lemma RegisteredIdsDistinct()
    ensures forall i, j :: 0 <= i < j < |RegisteredSources| ==>
      RegisteredSources[i].id != RegisteredSources[j].id
  {
  }

  /** Looking up any registered source's id gives that very source back. */
  lemma GetSourceRoundTrip(s: SourceRef)
    requires s in RegisteredSources
    ensures GetSource(s.id) == Ok(s)
  {
    RegisteredIdsDistinct();
    var r := GetSource(s.id);
    assert r.value in RegisteredSources && r.value.id == s.id;
  }

  /** The registry holds exactly the four ids, each mapped to its source. */
  lemma RegistryContents()
    ensures Registry().Keys == {"MGL_3_9B", "MGL_3_9C", "MGL_ART_CXVIII", "BEA_WAGE_SERIES"}
    ensures forall k :: k in Registry() ==> Registry()[k].id == k
  {
    var m := Registry();
    forall k | k in m ensures k in {"MGL_3_9B", "MGL_3_9C", "MGL_ART_CXVIII", "BEA_WAGE_SERIES"} {
      assert m[k] in RegisteredSources;
    }
  }

  /** Statute citations and the economic series are classified as the source declares. */
  lemma SourceKinds()
    ensures MGL_3_9B.kind == STATUTE && MGL_3_9C.kind == STATUTE
    ensures ARTICLE_CXVIII_BASE.kind == STATUTE
    ensures BEA_WAGE_SERIES.kind == ECONOMIC_SERIES
    ensures ARTICLE_CXVIII_BASE.url.None?
  {
  }

  /** An id that is not registered is not answered with a default. */
  lemma GetSourceUnknown(id: string)
    requires id !in {"MGL_3_9B", "MGL_3_9C", "MGL_ART_CXVIII", "BEA_WAGE_SERIES"}
    ensures GetSource(id) == Err(KeyError(id))
  {
  }
}
