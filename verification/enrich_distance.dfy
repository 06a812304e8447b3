/**
  The string side of data/enrich_distance.py: the ordinal-word table, the
  House centroid-prefix table and its inverse, the parser for House
  centroid keys such as "MIDDLE02", the parser for House district names
  such as "11th Suffolk", and the Senate district-name normaliser.

  The regular expressions are written out as functions over ASCII text;
  `\d`, `\w` and `\s` are their ASCII readings.
 */
module EnrichDistance {
  import opened Wrappers
  import opened Strings

  // ---------------------------------------------------------------------
  // Tables as ordered entries, and the dictionaries built from them

  /** The keys of some entries. */
  function EntryKeys<V>(entries: seq<(string, V)>): set<string> {
    set i | 0 <= i < |entries| :: entries[i].0
  }

  lemma EntryKeysSnoc<V>(entries: seq<(string, V)>)
    requires |entries| > 0
    ensures EntryKeys(entries) == EntryKeys(entries[..|entries| - 1]) + {entries[|entries| - 1].0}
  {
    var init := entries[..|entries| - 1];
    forall x | x in EntryKeys(entries) ensures x in EntryKeys(init) + {entries[|entries| - 1].0} {
      var i :| 0 <= i < |entries| && entries[i].0 == x;
      if i < |init| {
        assert init[i] == entries[i];
      }
    }
  }

  /** A dictionary display or comprehension: entries in order, a later key replacing an earlier one. */
  function ToMap<V>(entries: seq<(string, V)>): (m: map<string, V>)
    ensures m.Keys == EntryKeys(entries)
    decreases |entries|
  {
    if |entries| == 0 then map[]
    else
      var last := entries[|entries| - 1];
      EntryKeysSnoc(entries);
      ToMap(entries[..|entries| - 1])[last.0 := last.1]
  }

  predicate KeysDistinct<V>(entries: seq<(string, V)>) {
    forall i, j :: 0 <= i < j < |entries| ==> entries[i].0 != entries[j].0
  }

  /** With distinct keys, every entry survives into the dictionary. */
  lemma {:induction false} ToMapLookup<V>(entries: seq<(string, V)>, i: nat)
    requires KeysDistinct(entries) && i < |entries|
    ensures entries[i].0 in ToMap(entries) && ToMap(entries)[entries[i].0] == entries[i].1
    decreases |entries|
  {
    var init := entries[..|entries| - 1];
    if i < |init| {
      assert init[i] == entries[i];
      ToMapLookup(init, i);
    }
  }

  /** The entries with key and value exchanged, as `{v: k for k, v in d.items()}` iterates them. */
  function Swapped(entries: seq<(string, string)>): (r: seq<(string, string)>)
    ensures |r| == |entries|
    ensures forall i :: 0 <= i < |entries| ==> r[i] == (entries[i].1, entries[i].0)
  {
    seq(|entries|, i requires 0 <= i < |entries| => (entries[i].1, entries[i].0))
  }

  /**
    With distinct keys and distinct values, the swapped dictionary is the
    exact inverse of the original one.
   */
  lemma SwappedIsInverse(entries: seq<(string, string)>)
    requires KeysDistinct(entries) && KeysDistinct(Swapped(entries))
    ensures ToMap(Swapped(entries)).Keys == ToMap(entries).Values
    ensures forall k :: k in ToMap(entries) ==> ToMap(Swapped(entries))[ToMap(entries)[k]] == k
    ensures forall v :: v in ToMap(Swapped(entries)) ==> ToMap(entries)[ToMap(Swapped(entries))[v]] == v
  {
    var m, w := ToMap(entries), ToMap(Swapped(entries));
    forall k | k in m ensures m[k] in w && w[m[k]] == k {
      var i :| 0 <= i < |entries| && entries[i].0 == k;
      ToMapLookup(entries, i);
      ToMapLookup(Swapped(entries), i);
    }
    forall v | v in w ensures w[v] in m && m[w[v]] == v {
      var i :| 0 <= i < |entries| && Swapped(entries)[i].0 == v;
      ToMapLookup(entries, i);
      ToMapLookup(Swapped(entries), i);
    }
  }

  // ---------------------------------------------------------------------
  // ORDINAL_WORDS

  const OrdinalEntries: seq<(string, int)> := [
    ("first", 1), ("second", 2), ("third", 3), ("fourth", 4), ("fifth", 5),
    ("sixth", 6), ("seventh", 7), ("eighth", 8), ("ninth", 9), ("tenth", 10),
    ("eleventh", 11), ("twelfth", 12), ("thirteenth", 13), ("fourteenth", 14), ("fifteenth", 15),
    ("sixteenth", 16), ("seventeenth", 17), ("eighteenth", 18), ("nineteenth", 19), ("twentieth", 20)
  ]

  /** `ORDINAL_WORDS`. */
  function OrdinalWords(): map<string, int> {
    ToMap(OrdinalEntries)
  }

  lemma OrdinalEntriesDistinctA()
    ensures forall i, j :: 0 <= i < j < 10 ==> OrdinalEntries[i].0 != OrdinalEntries[j].0
  {
  }

  lemma OrdinalEntriesDistinctB()
    ensures forall i, j :: 10 <= i < j < 20 ==> OrdinalEntries[i].0 != OrdinalEntries[j].0
  {
  }

  lemma OrdinalEntriesDistinctC()
    ensures forall i, j :: 0 <= i < 10 <= j < 20 ==> OrdinalEntries[i].0 != OrdinalEntries[j].0
  {
  }

  lemma OrdinalEntriesDistinct()
    ensures KeysDistinct(OrdinalEntries)
  {
    OrdinalEntriesDistinctA();
    OrdinalEntriesDistinctB();
    OrdinalEntriesDistinctC();
  }

  lemma OrdinalEntriesNumbered()
    ensures |OrdinalEntries| == 20
    ensures forall i :: 0 <= i < 20 ==> OrdinalEntries[i].1 == i + 1
  {
  }

  /** The table names the numbers 1 to 20, the word of entry i naming i + 1. */
  lemma OrdinalWordsTable()
    ensures |OrdinalEntries| == 20
    ensures forall i :: 0 <= i < 20 ==>
      OrdinalEntries[i].0 in OrdinalWords() && OrdinalWords()[OrdinalEntries[i].0] == i + 1
    ensures forall w :: w in OrdinalWords() ==> 1 <= OrdinalWords()[w] <= 20
  {
    OrdinalEntriesDistinct();
    OrdinalEntriesNumbered();
    forall i | 0 <= i < 20
      ensures OrdinalEntries[i].0 in OrdinalWords() && OrdinalWords()[OrdinalEntries[i].0] == i + 1
    {
      ToMapLookup(OrdinalEntries, i);
    }
    forall w | w in OrdinalWords() ensures 1 <= OrdinalWords()[w] <= 20 {
      var i :| 0 <= i < |OrdinalEntries| && OrdinalEntries[i].0 == w;
      ToMapLookup(OrdinalEntries, i);
    }
  }

  // ---------------------------------------------------------------------
  // HOUSE_PREFIX_TO_COUNTY and COUNTY_TO_PREFIX

  const BdnCounty := "barnstable dukes and nantucket"

  const PrefixEntries: seq<(string, string)> := [
    ("BARN", "barnstable"),
    ("BDN", BdnCounty),
    ("BERK", "berkshire"),
    ("BRISTOL", "bristol"),
    ("ESSEX", "essex"),
    ("FRANK", "franklin"),
    ("HAMPDEN", "hampden"),
    ("HAMPSHIRE", "hampshire"),
    ("MIDDLE", "middlesex"),
    ("NORFOLK", "norfolk"),
    ("PLY", "plymouth"),
    ("SUFFOLK", "suffolk"),
    ("WOR", "worcester")
  ]

  /** `HOUSE_PREFIX_TO_COUNTY`. */
  function HousePrefixToCounty(): map<string, string> {
    ToMap(PrefixEntries)
  }

  /** `COUNTY_TO_PREFIX`, the comprehension over the items of the dictionary above. */
  function CountyToPrefix(): map<string, string> {
    ToMap(Swapped(PrefixEntries))
  }

  lemma PrefixesDistinct()
    ensures KeysDistinct(PrefixEntries)
  {
  }

  lemma CountiesDistinct()
    ensures KeysDistinct(Swapped(PrefixEntries))
  {
  }

  /** `COUNTY_TO_PREFIX` is the exact inverse of `HOUSE_PREFIX_TO_COUNTY`. */
  lemma CountyToPrefixIsInverse()
    ensures CountyToPrefix().Keys == HousePrefixToCounty().Values
    ensures forall p :: p in HousePrefixToCounty() ==> CountyToPrefix()[HousePrefixToCounty()[p]] == p
    ensures forall c :: c in CountyToPrefix() ==> HousePrefixToCounty()[CountyToPrefix()[c]] == c
  {
    PrefixesDistinct();
    CountiesDistinct();
    SwappedIsInverse(PrefixEntries);
  }

  // ---------------------------------------------------------------------
  // parse_house_centroid_key

  /** Length of the leading run of capital letters: the `[A-Z]+` group. */
  function CapitalsLength(s: string): (n: nat)
    ensures n <= |s|
    ensures forall k | 0 <= k < n :: IsUpper(s[k])
    ensures n == |s| || !IsUpper(s[n])
  {
    if |s| == 0 || !IsUpper(s[0]) then 0 else 1 + CapitalsLength(s[1..])
  }

  lemma {:induction false} CapitalsLengthOf(p: string, rest: string)
    requires forall k | 0 <= k < |p| :: IsUpper(p[k])
    requires rest == [] || !IsUpper(rest[0])
    ensures CapitalsLength(p + rest) == |p|
    decreases |p|
  {
    if |p| > 0 {
      assert (p + rest)[1..] == p[1..] + rest;
      CapitalsLengthOf(p[1..], rest);
    } else {
      assert p + rest == rest;
    }
  }

  /** The text `$` lets a match end on: all of `s`, or all but one final newline. */
  function BeforeFinalNewline(s: string): string {
    if |s| > 0 && s[|s| - 1] == '\n' then s[..|s| - 1] else s
  }

  /**
    `parse_house_centroid_key`: "BDN" alone is the Barnstable, Dukes and
    Nantucket district 1; otherwise the key must be capitals then digits
    (`^([A-Z]+)(\d+)$`), and the capitals must be a known prefix.
   */
  function ParseHouseCentroidKey(key: string): (r: Result<(string, int)>)
    ensures key == "BDN" ==> r == Ok((BdnCounty, 1))
    ensures key != "BDN" && r.Ok? ==>
      var n := CapitalsLength(key);
      && n > 0
      && IsDigits(BeforeFinalNewline(key[n..]))
      && key[..n] in HousePrefixToCounty()
      && r.value == (HousePrefixToCounty()[key[..n]], DigitsValue(BeforeFinalNewline(key[n..])))
    ensures (key == "BDN" || (CapitalsLength(key) > 0 && IsDigits(BeforeFinalNewline(key[CapitalsLength(key)..]))
      && key[..CapitalsLength(key)] in HousePrefixToCounty())) ==> r.Ok?
    ensures r.Err? ==> r.error.ValueError?
  {
    if key == "BDN" then Ok((BdnCounty, 1))
    else
      var n := CapitalsLength(key);
      var digits := BeforeFinalNewline(key[n..]);
      if n == 0 || !IsDigits(digits) then Err(ValueError("Unexpected House centroid key: " + key))
      else if key[..n] !in HousePrefixToCounty() then
        Err(ValueError("Unknown House centroid prefix: " + key[..n] + " in key " + key))
      else Ok((HousePrefixToCounty()[key[..n]], DigitsValue(digits)))
  }

  /** A known prefix followed by digits parses to the prefix's county and the digits' value. */
  lemma CentroidKeyRoundTrip(prefix: string, digits: string)
    requires prefix in HousePrefixToCounty()
    requires |prefix| > 0 && forall k | 0 <= k < |prefix| :: IsUpper(prefix[k])
    requires IsDigits(digits)
    ensures ParseHouseCentroidKey(prefix + digits) == Ok((HousePrefixToCounty()[prefix], DigitsValue(digits)))
  {
    var key := prefix + digits;
    assert key != "BDN" by {
      assert IsDigit(key[|key| - 1]);
    }
    CapitalsLengthOf(prefix, digits);
    assert key[..|prefix|] == prefix;
    assert key[|prefix|..] == digits;
  }

  lemma MiddlesexEntry()
    ensures "MIDDLE" in HousePrefixToCounty() && HousePrefixToCounty()["MIDDLE"] == "middlesex"
  {
    PrefixesDistinct();
    ToMapLookup(PrefixEntries, 8);
  }

  /** "MIDDLE02" is the second Middlesex district. */
  lemma MiddlesexExample()
    ensures ParseHouseCentroidKey("MIDDLE02") == Ok(("middlesex", 2))
  {
    MiddlesexEntry();
    assert "MIDDLE02" == "MIDDLE" + "02";
    CentroidKeyRoundTrip("MIDDLE", "02");
    assert DigitsValue("02") == 2 by {
      assert "02"[..1] == "0";
      assert "0"[..0] == "";
    }
  }

  // ---------------------------------------------------------------------
  // parse_house_district_name

  const BdnName := "barnstable, dukes and nantucket"

  /** `\bdistrict\b` under IGNORECASE matches at position i of `s`. */
  predicate DistrictAt(s: string, i: nat) {
    && i + 8 <= |s|
    && Lower(s[i..i + 8]) == "district"
    && (i == 0 || !IsWordChar(s[i - 1]))
    && (i + 8 == |s| || !IsWordChar(s[i + 8]))
  }

  /** `re.sub(r"\bdistrict\b", "", s[i:], flags=re.IGNORECASE)`, scanning left to right. */
  function RemoveDistrict(s: string, i: nat): string
    requires i <= |s|
    decreases |s| - i
  {
    if i == |s| then ""
    else if DistrictAt(s, i) then RemoveDistrict(s, i + 8)
    else [s[i]] + RemoveDistrict(s, i + 1)
  }

  lemma {:induction false} RemoveDistrictNoop(s: string, i: nat)
    requires i <= |s|
    requires !Contains(Lower(s), "district")
    ensures RemoveDistrict(s, i) == s[i..]
    decreases |s| - i
  {
    if i < |s| {
      if DistrictAt(s, i) {
        assert Lower(s)[i..i + 8] == Lower(s[i..i + 8]);
        ContainsAt(Lower(s), "district", i);
      }
      RemoveDistrictNoop(s, i + 1);
      assert s[i..] == [s[i]] + s[i + 1..];
    }
  }

  lemma ContainsSelf(s: string)
    ensures Contains(s, s)
  {
    assert s[..|s|] == s;
  }

  /** Length of the leading run of digits: the `(\d+)` group. */
  function DigitsLength(s: string): (n: nat)
    ensures n <= |s|
    ensures forall k | 0 <= k < n :: IsDigit(s[k])
    ensures n == |s| || !IsDigit(s[n])
  {
    if |s| == 0 || !IsDigit(s[0]) then 0 else 1 + DigitsLength(s[1..])
  }

  lemma {:induction false} DigitsLengthOf(d: string, rest: string)
    requires AllDigits(d)
    requires rest == [] || !IsDigit(rest[0])
    ensures DigitsLength(d + rest) == |d|
    decreases |d|
  {
    if |d| > 0 {
      assert (d + rest)[1..] == d[1..] + rest;
      DigitsLengthOf(d[1..], rest);
    } else {
      assert d + rest == rest;
    }
  }

  /**
    The number a district name's first token stands for: digits with an
    optional "st", "nd", "rd" or "th" (`(\d+)(st|nd|rd|th)?$` on the
    lower-cased token), else an ordinal word of the table.
   */
  function OrdinalNumber(token: string): (r: Option<int>)
    ensures r.Some? ==> r.value >= 0
  {
    var t := Lower(token);
    var n := DigitsLength(t);
    if n > 0 && t[n..] in ["", "st", "nd", "rd", "th"] then Some(DigitsValue(t[..n]))
    else if t in OrdinalWords() && OrdinalWords()[t] >= 0 then Some(OrdinalWords()[t])
    else None
  }

  /** The tokens `parse_house_district_name` reads: the name, stripped, without the word "district", split on whitespace. */
  function DistrictTokens(name: string): seq<string> {
    var raw := Strip(name);
    Words(Strip(RemoveDistrict(raw, 0)))
  }

  /**
    `parse_house_district_name`: a name mentioning
    "barnstable, dukes and nantucket" is that district, number 1; otherwise
    at least two tokens must remain, the first giving the number and the
    last, lower-cased, the county.
   */
  function ParseHouseDistrictName(name: string): (r: Result<(string, int)>)
    ensures Contains(Lower(Strip(name)), BdnName) ==> r == Ok((BdnCounty, 1))
    ensures !Contains(Lower(Strip(name)), BdnName) ==>
      var parts := DistrictTokens(name);
      && (r.Ok? <==> |parts| >= 2 && OrdinalNumber(parts[0]).Some?)
      && (r.Ok? ==> r.value == (Lower(parts[|parts| - 1]), OrdinalNumber(parts[0]).value))
    ensures r.Err? ==> r.error.ValueError?
  {
    var raw := Strip(name);
    var lower := Lower(raw);
    ContainsSelf(lower);
    if lower == BdnName || Contains(lower, BdnName) then Ok((BdnCounty, 1))
    else
      var parts := DistrictTokens(name);
      if |parts| < 2 then Err(ValueError("Unexpected house district name format: " + StrRepr(name)))
      else match OrdinalNumber(parts[0])
        case None => Err(ValueError("Unknown ordinal in House district name: " + StrRepr(name)))
        case Some(num) => Ok((Lower(parts[|parts| - 1]), num))
  }

  /** Text of lower-case letters, digits and spaces other than a comma. */
  predicate PlainLower(s: string) {
    forall k | 0 <= k < |s| :: !IsUpper(s[k]) && s[k] != ','
  }

  lemma PlainLowerFacts(s: string)
    requires PlainLower(s)
    ensures Lower(s) == s
    ensures !Contains(s, BdnName)
  {
    assert BdnName[10] == ',';
    NotContainsMissingChar(s, BdnName, 10);
  }

  /** The common part of the two round trips: a plain two-token name parses to its tokens. */
  lemma TwoTokenName(first: string, county: string)
    requires IsWord(first) && IsWord(county) && PlainLower(first) && PlainLower(county)
    requires !Contains(first + " " + county, "district")
    ensures var name := first + " " + county;
      !Contains(Lower(Strip(name)), BdnName) && DistrictTokens(name) == [first, county]
  {
    var name := first + " " + county;
    TwoTokenPlain(first, county);
    TwoTokenStripped(first, county);
    PlainLowerFacts(name);
    TwoTokenWords(first, county, name);
  }

  lemma TwoTokenWords(first: string, county: string, name: string)
    requires IsWord(first) && IsWord(county)
    requires name == first + " " + county && Strip(name) == name
    requires Lower(name) == name && !Contains(name, "district")
    ensures DistrictTokens(name) == [first, county]
  {
    RemoveDistrictNoop(name, 0);
    assert name[0..] == name;
    assert RemoveDistrict(Strip(name), 0) == name;
    TwoWordsSplit(first, county);
  }

  lemma TwoWordsSplit(first: string, county: string)
    requires IsWord(first) && IsWord(county)
    ensures Words(first + " " + county) == [first, county]
  {
    var ws := [first, county];
    assert forall k | 0 <= k < |ws| :: IsWord(ws[k]);
    TwoTokenJoin(first, county);
    WordsJoin(ws);
  }

  lemma TwoTokenPlain(first: string, county: string)
    requires PlainLower(first) && PlainLower(county)
    ensures PlainLower(first + " " + county)
  {
    var name := first + " " + county;
    forall k | 0 <= k < |name| ensures !IsUpper(name[k]) && name[k] != ',' {
      if k < |first| {
        assert name[k] == first[k];
      } else if k > |first| {
        assert name[k] == county[k - |first| - 1];
      }
    }
  }

  lemma TwoTokenStripped(first: string, county: string)
    requires IsWord(first) && IsWord(county)
    ensures Strip(first + " " + county) == first + " " + county
  {
    var name := first + " " + county;
    assert name[0] == first[0] && !IsSpace(first[0]);
    TrimStartByNoop(name, IsSpace);
    assert name[|name| - 1] == county[|county| - 1] && !IsSpace(county[|county| - 1]);
    TrimEndByNoop(name, IsSpace);
  }

  lemma TwoTokenJoin(first: string, county: string)
    ensures Join([first, county], ' ') == first + " " + county
  {
    var ws := [first, county];
    assert ws[1..] == [county];
    assert Join(ws[1..], ' ') == county;
  }

  lemma DigitsTokenFacts(n: nat, suffix: string)
    requires suffix in ["", "st", "nd", "rd", "th"]
    ensures var first := NatToDigits(n) + suffix;
      PlainLower(first) && IsWord(first)
  {
    var d := NatToDigits(n);
    var first := d + suffix;
    forall k | 0 <= k < |first| ensures !IsUpper(first[k]) && first[k] != ',' && !IsSpace(first[k]) {
      if k < |d| {
        assert first[k] == d[k];
      } else {
        assert first[k] == suffix[k - |d|];
      }
    }
  }

  /** Digits with an optional suffix stand for the digits' value. */
  lemma OrdinalNumberDigits(n: nat, suffix: string)
    requires suffix in ["", "st", "nd", "rd", "th"]
    ensures OrdinalNumber(NatToDigits(n) + suffix) == Some(n)
  {
    var d := NatToDigits(n);
    var first := d + suffix;
    DigitsTokenFacts(n, suffix);
    PlainLowerFacts(first);
    DigitsLengthOf(d, suffix);
    assert first[..|d|] == d && first[|d|..] == suffix;
    DigitsRoundTrip(n);
  }

  /** A number spelled in digits, with or without a suffix, before a county parses back to both. */
  lemma DistrictNameDigitsRoundTrip(n: nat, suffix: string, county: string)
    requires suffix in ["", "st", "nd", "rd", "th"]
    requires IsWord(county) && PlainLower(county)
    requires !Contains(NatToDigits(n) + suffix + " " + county, "district")
    ensures ParseHouseDistrictName(NatToDigits(n) + suffix + " " + county) == Ok((county, n))
  {
    var first := NatToDigits(n) + suffix;
    DigitsTokenFacts(n, suffix);
    TwoTokenName(first, county);
    PlainLowerFacts(county);
    OrdinalNumberDigits(n, suffix);
  }

  lemma OrdinalWordsLowerA()
    ensures forall i, k :: 0 <= i < 10 && 0 <= k < |OrdinalEntries[i].0| ==> IsLower(OrdinalEntries[i].0[k])
  {
  }

  lemma OrdinalWordsLowerB()
    ensures forall i, k :: 10 <= i < 20 && 0 <= k < |OrdinalEntries[i].0| ==> IsLower(OrdinalEntries[i].0[k])
  {
  }

  lemma OrdinalWordFacts(i: nat)
    requires i < 20
    ensures var w := OrdinalEntries[i].0;
      IsWord(w) && PlainLower(w) && !IsDigit(w[0])
  {
    OrdinalWordsLowerA();
    OrdinalWordsLowerB();
    OrdinalEntriesNumbered();
    var w := OrdinalEntries[i].0;
    assert |w| > 0;
  }

  /** An ordinal word of the table stands for its number. */
  lemma OrdinalNumberWord(i: nat)
    requires i < 20
    ensures OrdinalNumber(OrdinalEntries[i].0) == Some(i + 1)
  {
    var w := OrdinalEntries[i].0;
    OrdinalWordFacts(i);
    PlainLowerFacts(w);
    OrdinalWordsTable();
    assert DigitsLength(w) == 0;
  }

  /** An ordinal word of the table before a county parses to the word's number and the county. */
  lemma DistrictNameWordRoundTrip(i: nat, county: string)
    requires i < 20
    requires IsWord(county) && PlainLower(county)
    requires !Contains(OrdinalEntries[i].0 + " " + county, "district")
    ensures ParseHouseDistrictName(OrdinalEntries[i].0 + " " + county) == Ok((county, i + 1))
  {
    OrdinalWordFacts(i);
    TwoTokenName(OrdinalEntries[i].0, county);
    PlainLowerFacts(county);
    OrdinalNumberWord(i);
  }

  // ---------------------------------------------------------------------
  // norm_senate_name

  /** The class `[,\s]`. */
  predicate IsSep(c: char) {
    c == ',' || IsSpace(c)
  }

  /** Every separator is a single space and no two spaces are adjacent. */
  predicate Collapsed(s: string) {
    && (forall k | 0 <= k < |s| :: IsSep(s[k]) ==> s[k] == ' ')
    && (forall k | 0 <= k < |s| - 1 :: !(s[k] == ' ' && s[k + 1] == ' '))
  }

  predicate NoCapitals(s: string) {
    forall k | 0 <= k < |s| :: !IsUpper(s[k])
  }

  /** `re.sub(r"[,\s]+", " ", s)`: every run of commas and whitespace becomes one space. */
  function CollapseSeps(s: string): (r: string)
    ensures |s| > 0 && !IsSep(s[0]) ==> |r| > 0 && r[0] == s[0]
    ensures |s| > 0 && IsSep(s[0]) ==> |r| > 0 && r[0] == ' '
    decreases |s|
  {
    if |s| == 0 then ""
    else if IsSep(s[0]) then " " + CollapseSeps(TrimStartBy(s[1..], IsSep))
    else [s[0]] + CollapseSeps(s[1..])
  }

  /** One step of the substitution: a separator run becomes a space, any other character is copied. */
  lemma CollapseStep(s: string)
    requires |s| > 0
    ensures IsSep(s[0]) ==> CollapseSeps(s) == " " + CollapseSeps(TrimStartBy(s[1..], IsSep))
    ensures !IsSep(s[0]) ==> CollapseSeps(s) == [s[0]] + CollapseSeps(s[1..])
  {
  }

  /** What is left after a separator run, as a suffix of the whole string. */
  lemma AfterRun(s: string) returns (a: nat)
    requires |s| > 0
    ensures 1 <= a <= |s| && TrimStartBy(s[1..], IsSep) == s[a..]
  {
    var t := TrimStartBy(s[1..], IsSep);
    a := |s| - |t|;
    assert t == s[1..][|s| - 1 - |t|..];
  }

  lemma ConsCollapsed(c: char, rest: string)
    requires Collapsed(rest)
    requires IsSep(c) ==> c == ' '
    requires c == ' ' ==> rest == [] || rest[0] != ' '
    ensures Collapsed([c] + rest)
  {
    var r := [c] + rest;
    assert forall k | 1 <= k < |r| :: r[k] == rest[k - 1];
  }

  lemma ConsNoCapitals(c: char, rest: string)
    requires NoCapitals(rest) && !IsUpper(c)
    ensures NoCapitals([c] + rest)
  {
    var r := [c] + rest;
    assert forall k | 1 <= k < |r| :: r[k] == rest[k - 1];
  }

  /** The result has every separator run reduced to one space. */
  lemma {:induction false} CollapseSepsCollapsed(s: string)
    ensures Collapsed(CollapseSeps(s))
    decreases |s|
  {
    if |s| > 0 {
      CollapseStep(s);
      if IsSep(s[0]) {
        var t := TrimStartBy(s[1..], IsSep);
        CollapseSepsCollapsed(t);
        ConsCollapsed(' ', CollapseSeps(t));
      } else {
        CollapseSepsCollapsed(s[1..]);
        ConsCollapsed(s[0], CollapseSeps(s[1..]));
      }
    }
  }

  /** Collapsing brings in no letters: every character of the result is a space or one of the input's. */
  lemma {:induction false} CollapseKeepsNoCapitals(s: string)
    requires NoCapitals(s)
    ensures NoCapitals(CollapseSeps(s))
    decreases |s|
  {
    if |s| > 0 {
      CollapseStep(s);
      if IsSep(s[0]) {
        var a := AfterRun(s);
        SliceKeepsClass(s, a, |s|);
        CollapseKeepsNoCapitals(s[a..]);
        ConsNoCapitals(' ', CollapseSeps(s[a..]));
      } else {
        SliceKeepsClass(s, 1, |s|);
        CollapseKeepsNoCapitals(s[1..]);
        ConsNoCapitals(s[0], CollapseSeps(s[1..]));
      }
    }
  }

  /** A string ending in a non-separator collapses to one ending in the same character. */
  lemma {:induction false} CollapseEnds(s: string)
    requires |s| > 0 && !IsSep(s[|s| - 1])
    ensures |CollapseSeps(s)| > 0 && CollapseSeps(s)[|CollapseSeps(s)| - 1] == s[|s| - 1]
    decreases |s|
  {
    CollapseStep(s);
    if IsSep(s[0]) {
      var a := AfterRun(s);
      assert a < |s|;
      assert s[a..][|s| - a - 1] == s[|s| - 1];
      CollapseEnds(s[a..]);
    } else if |s| > 1 {
      assert s[1..][|s| - 2] == s[|s| - 1];
      CollapseEnds(s[1..]);
    }
  }

  /** A string that is already collapsed is left as it is. */
  lemma {:induction false} CollapseCollapsed(s: string)
    requires Collapsed(s)
    ensures CollapseSeps(s) == s
    decreases |s|
  {
    if |s| > 0 {
      SliceKeepsClass(s, 1, |s|);
      CollapseCollapsed(s[1..]);
      CollapseStep(s);
      if IsSep(s[0]) {
        if |s| > 1 {
          assert s[1..][0] == s[1] && !IsSep(s[1]);
        }
        TrimStartByNoop(s[1..], IsSep);
      }
    }
  }

  /** A separator-free word is copied through, and whatever follows is collapsed on its own. */
  lemma {:induction false} CollapseWord(w: string, tail: string)
    requires forall k | 0 <= k < |w| :: !IsSep(w[k])
    ensures CollapseSeps(w + tail) == w + CollapseSeps(tail)
    decreases |w|
  {
    if |w| == 0 {
      assert w + tail == tail;
    } else {
      var w' := w[1..];
      ConcatHead(w, tail);
      NoSepTail(w);
      CollapseStep(w + tail);
      CollapseWord(w', tail);
      ConsConcat(w[0], w', CollapseSeps(tail));
      SplitHead(w);
    }
  }

  lemma NoSepTail(w: string)
    requires |w| > 0 && forall k | 0 <= k < |w| :: !IsSep(w[k])
    ensures !IsSep(w[0]) && forall k | 0 <= k < |w[1..]| :: !IsSep(w[1..][k])
  {
    assert forall k | 0 <= k < |w[1..]| :: w[1..][k] == w[k + 1];
  }

  /** `norm_senate_name` as written: lower-case, strip, then collapse separator runs. */
  function NormSenateName(name: string): string {
    CollapseSeps(LowerStrip(name))
  }

  /** The as-written key has no capitals and no separator other than single spaces. */
  lemma NormSenateNameClass(name: string)
    ensures Collapsed(NormSenateName(name)) && NoCapitals(NormSenateName(name))
  {
    var l := LowerStrip(name);
    assert NoCapitals(l) by {
      LowerNoCapitals(name);
      var a := StripIsSlice(Lower(name));
      SliceKeepsClass(Lower(name), a, a + |l|);
    }
    CollapseKeepsNoCapitals(l);
    CollapseSepsCollapsed(l);
  }

  /** The key depends on the name only through its lower-cased form. */
  lemma NormSenateNameOfLower(a: string, b: string)
    requires Lower(a) == Lower(b)
    ensures NormSenateName(a) == NormSenateName(b)
  {
  }

  /** A lower-case word without separators, as the words of a district name are. */
  predicate PlainWord(w: string) {
    |w| > 0 && forall k | 0 <= k < |w| :: !IsSep(w[k]) && !IsUpper(w[k])
  }

  /**
    As written, the comma after a word survives the strip and then becomes a
    trailing space: "suffolk," is keyed as "suffolk ", not as "suffolk", and
    normalising that key a second time gives yet another key.
   */
  lemma NormSenateNameTrailingComma(w: string)
    requires PlainWord(w)
    ensures NormSenateName(w + ",") == w + " "
    ensures NormSenateName(w) == w
    ensures NormSenateName(w + " ") == w
    ensures NormSenateName(w + ",") != NormSenateName(w)
    ensures NormSenateName(NormSenateName(w + ",")) != NormSenateName(w + ",")
  {
    NormCommaWord(w);
    NormPlainWord(w);
    NormSpaceWord(w);
    assert |w + " "| != |w|;
  }

  lemma NormPlainWord(w: string)
    requires PlainWord(w)
    ensures NormSenateName(w) == w
  {
    LowerStripNoop(w);
    CollapseWord(w, "");
    assert w + "" == w;
  }

  lemma NormCommaWord(w: string)
    requires PlainWord(w)
    ensures NormSenateName(w + ",") == w + " "
  {
    var wc := w + ",";
    assert forall k | 0 <= k < |wc| :: !IsUpper(wc[k]) by {
      assert forall k | 0 <= k < |w| :: wc[k] == w[k];
    }
    assert wc[0] == w[0] && wc[|wc| - 1] == ',';
    LowerStripNoop(wc);
    CollapseWord(w, ",");
    var comma := ",";
    CollapseStep(comma);
    assert comma[1..] == "";
    assert TrimStartBy(comma[1..], IsSep) == "";
    assert CollapseSeps(comma) == " ";
  }

  lemma NormSpaceWord(w: string)
    requires PlainWord(w)
    ensures NormSenateName(w + " ") == w
  {
    var ws := w + " ";
    assert Lower(ws) == ws by {
      assert forall k | 0 <= k < |ws| :: ws[k] == if k < |w| then w[k] else ' ';
    }
    assert ws[0] == w[0];
    TrimStartByNoop(ws, IsSpace);
    assert ws[..|ws| - 1] == w;
    TrimEndByNoop(w, IsSpace);
    assert TrimEndBy(ws, IsSpace) == w;
    assert LowerStrip(ws) == w;
    NormPlainWord(w);
    LowerStripNoop(w);
  }

  /** A concrete instance: "Suffolk," and "Suffolk" get different keys. */
  lemma SuffolkTrailingComma(withComma: string, plain: string)
    requires withComma == "Suffolk," && plain == "Suffolk"
    ensures NormSenateName(withComma) == "suffolk "
    ensures NormSenateName(plain) == "suffolk"
  {
    SuffolkLower(withComma, plain);
    var w := Lower(plain);
    SuffolkWord(w);
    LowerIdempotent(withComma);
    LowerIdempotent(plain);
    NormSenateNameOfLower(withComma, w + ",");
    NormSenateNameOfLower(plain, w);
  }

  lemma SuffolkLower(withComma: string, plain: string)
    requires withComma == "Suffolk," && plain == "Suffolk"
    ensures Lower(plain) == "suffolk" && Lower(withComma) == Lower(plain) + ","
  {
    var tail := "uffolk";
    assert plain == ['S'] + tail;
    LowerCapitalised('S', tail);
    assert withComma == ['S'] + (tail + ",");
    LowerCapitalised('S', tail + ",");
  }

  lemma SuffolkWord(w: string)
    requires w == "suffolk"
    ensures NormSenateName(w + ",") == "suffolk " && NormSenateName(w) == "suffolk"
  {
    NormSenateNameTrailingComma(w);
  }

  /**
    The evidently intended canonical key: lower-case, collapse separator
    runs, then strip, so that a leading or trailing comma cannot leave a
    space at either end.
   */
  function NormSenateNameCanonical(name: string): string {
    Strip(CollapseSeps(Lower(name)))
  }

  /** The corrected key is collapsed, has no capitals and no space at either end. */
  lemma NormSenateNameCanonicalClass(name: string)
    ensures var r := NormSenateNameCanonical(name);
      Collapsed(r) && NoCapitals(r) && (|r| > 0 ==> r[0] != ' ' && r[|r| - 1] != ' ')
  {
    var c := CollapseSeps(Lower(name));
    LowerNoCapitals(name);
    CollapseKeepsNoCapitals(Lower(name));
    CollapseSepsCollapsed(Lower(name));
    StripKeepsClass(c);
  }

  /** The corrected key is a fixed point: normalising a key again gives the same key. */
  lemma NormSenateNameCanonicalIdempotent(name: string)
    ensures NormSenateNameCanonical(NormSenateNameCanonical(name)) == NormSenateNameCanonical(name)
  {
    var r := NormSenateNameCanonical(name);
    NormSenateNameCanonicalClass(name);
    assert Lower(r) == r;
    CollapseCollapsed(r);
    TrimStartByNoop(r, IsSpace);
    TrimEndByNoop(r, IsSpace);
  }

  /** On a name with no separator at either end the corrected key and the as-written key agree. */
  lemma NormSenateNameAgrees(name: string)
    requires |name| > 0 ==> !IsSep(name[0]) && !IsSep(name[|name| - 1])
    ensures NormSenateNameCanonical(name) == NormSenateName(name)
  {
    var l := Lower(name);
    assert |l| > 0 ==> !IsSep(l[0]) && !IsSep(l[|l| - 1]);
    TrimStartByNoop(l, IsSpace);
    TrimEndByNoop(l, IsSpace);
    assert LowerStrip(name) == l;
    var c := CollapseSeps(l);
    if |l| > 0 {
      CollapseEnds(l);
    }
    TrimStartByNoop(c, IsSpace);
    TrimEndByNoop(c, IsSpace);
  }

  lemma LowerNoCapitals(s: string)
    ensures NoCapitals(Lower(s))
  {
    var l := Lower(s);
    assert forall k | 0 <= k < |l| :: l[k] == LowerChar(s[k]);
  }

  lemma SliceKeepsClass(s: string, a: nat, b: nat)
    requires a <= b <= |s|
    ensures Collapsed(s) ==> Collapsed(s[a..b])
    ensures NoCapitals(s) ==> NoCapitals(s[a..b])
  {
    var r := s[a..b];
    assert forall k | 0 <= k < |r| :: r[k] == s[a + k];
  }

  lemma StripIsSlice(s: string) returns (a: nat)
    ensures a + |Strip(s)| <= |s| && Strip(s) == s[a..a + |Strip(s)|]
  {
    var t := TrimStartBy(s, IsSpace);
    var r := TrimEndBy(t, IsSpace);
    a := |s| - |t|;
    assert t == s[a..];
    assert r == t[..|r|];
    SliceOfSlice(s, a, |r|);
  }

  lemma SliceOfSlice(s: string, a: nat, n: nat)
    requires a + n <= |s|
    ensures s[a..][..n] == s[a..a + n]
  {
  }

  lemma StripEnds(s: string)
    ensures var r := Strip(s); |r| > 0 ==> !IsSpace(r[0]) && !IsSpace(r[|r| - 1])
  {
    var t := TrimStartBy(s, IsSpace);
    var r := TrimEndBy(t, IsSpace);
    if |r| > 0 {
      assert r[0] == t[0];
    }
  }

  lemma StripKeepsClass(s: string)
    ensures Collapsed(s) ==> Collapsed(Strip(s))
    ensures NoCapitals(s) ==> NoCapitals(Strip(s))
    ensures var r := Strip(s); |r| > 0 ==> !IsSpace(r[0]) && !IsSpace(r[|r| - 1])
  {
    var a := StripIsSlice(s);
    SliceIsKept(s, a, Strip(s));
    StripEnds(s);
  }

  lemma SliceIsKept(s: string, a: nat, r: string)
    requires a + |r| <= |s| && r == s[a..a + |r|]
    ensures Collapsed(s) ==> Collapsed(r)
    ensures NoCapitals(s) ==> NoCapitals(r)
  {
    SliceKeepsClass(s, a, a + |r|);
  }
}
