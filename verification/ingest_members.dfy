/**
  The string-level part of the member and leadership scrapers
  (ingest/members.py): party text to party code, a section header to a
  chamber, the member id inside a profile link, and the member name. The
  HTML traversal itself is outside the model: a table row is given as its
  cell texts and the link found in it.
 */
module IngestMembers {
  import opened Wrappers
  import opened Strings
  import opened Core
  import SessionLoader

  // ---------------------------------------------------------------------
  // Party

  /** `_party_to_code`: the trimmed, lower-cased text starts with "democrat" or "republican". */
  function PartyToCode(text: string): (r: Option<string>)
    ensures r == Some("D") <==> StartsWith(LowerStrip(text), "democrat")
    ensures r == Some("R") <==> StartsWith(LowerStrip(text), "republican")
    ensures r.None? <==> !StartsWith(LowerStrip(text), "democrat") && !StartsWith(LowerStrip(text), "republican")
  {
    var t := LowerStrip(text);
    PrefixesExclusive(t);
    if StartsWith(t, "democrat") then Some("D")
    else if StartsWith(t, "republican") then Some("R")
    else None
  }

  lemma PrefixesExclusive(t: string)
    ensures !(StartsWith(t, "democrat") && StartsWith(t, "republican"))
  {
    if StartsWith(t, "democrat") {
      assert t[..8][0] == t[0];
      assert |t| < 10 || t[..10][0] == t[0];
    }
  }

  /** Surrounding whitespace and letter case do not change the code. */
  lemma PartyIgnoresCaseAndPadding(pre: string, text: string, post: string, text': string)
    requires forall k | 0 <= k < |pre| :: IsSpace(pre[k])
    requires forall k | 0 <= k < |post| :: IsSpace(post[k])
    requires Lower(text) == Lower(text')
    ensures PartyToCode(pre + text + post) == PartyToCode(text')
  {
    LowerStripPadded(pre, text, post);
  }

  /**
    A scraped party code is one the session loader accepts: "D" loads as a
    Democrat, "R" as a Republican, and a missing code (stored as null) as
    Other.
   */
  lemma PartyCodeLoads(text: string)
    ensures SessionLoader.ParseParty(PartyToCode(text)).Ok?
    ensures var t := LowerStrip(text);
      SessionLoader.ParseParty(PartyToCode(text)).value
        == if StartsWith(t, "democrat") then DEMOCRAT
           else if StartsWith(t, "republican") then REPUBLICAN
           else OTHER
  {
    assert Lower("D") == "d";
    assert Lower("R") == "r";
  }

  /** The party code of text whose lowered form `l` is already stripped. */
  lemma PartyOfLowered(text: string, l: string)
    requires Lower(text) == l
    requires |l| > 0 && !IsSpace(l[0]) && !IsSpace(l[|l| - 1])
    ensures LowerStrip(text) == l
  {
    LowerIdempotent(text);
    LowerStripNoop(l);
  }

  /** "Democrat" as it appears on the member pages. */
  lemma DemocratExample(text: string)
    requires text == "Democrat"
    ensures PartyToCode(text) == Some("D")
  {
    var w := "emocrat";
    var l := ['d'] + w;
    assert text == ['D'] + w;
    LowerCapitalised('D', w);
    PartyOfLowered(text, l);
    assert l[..8] == "democrat";
  }

  /** "Republican" as it appears on the member pages. */
  lemma RepublicanExample(text: string)
    requires text == "Republican"
    ensures PartyToCode(text) == Some("R")
  {
    var w := "epublican";
    var l := ['r'] + w;
    assert text == ['R'] + w;
    LowerCapitalised('R', w);
    PartyOfLowered(text, l);
    assert l[..10] == "republican";
  }

  /** A party that is neither, such as "Unenrolled", has no code. */
  lemma UnenrolledExample(text: string)
    requires text == "Unenrolled"
    ensures PartyToCode(text) == None
  {
    var w := "nenrolled";
    var l := ['u'] + w;
    assert text == ['U'] + w;
    LowerCapitalised('U', w);
    PartyOfLowered(text, l);
    assert l[..8] != "democrat" by { assert l[..8][0] != "democrat"[0]; }
    assert l[..10] != "republican" by { assert l[..10][0] != "republican"[0]; }
  }

  // ---------------------------------------------------------------------
  // Chamber of a leadership section

  /** `_infer_chamber_from_section`: "senate" anywhere in the header wins over "house". */
  function InferChamberFromSection(header: string): (r: Option<string>)
    ensures r == Some("senate") <==> Contains(Lower(header), "senate")
    ensures r == Some("house") <==> !Contains(Lower(header), "senate") && Contains(Lower(header), "house")
    ensures r.None? <==> !Contains(Lower(header), "senate") && !Contains(Lower(header), "house")
  {
    var t := Lower(header);
    if Contains(t, "senate") then Some("senate")
    else if Contains(t, "house") then Some("house")
    else None
  }

  /** The inferred chamber is one the session loader parses, to the chamber of that name. */
  lemma InferredChamberLoads(header: string)
    requires InferChamberFromSection(header).Some?
    ensures var c := InferChamberFromSection(header).value;
      SessionLoader.ParseChamber(c).Ok? && ChamberValue(SessionLoader.ParseChamber(c).value) == c
    ensures InferChamberFromSection(header).value != "joint"
  {
    assert Lower("senate") == "senate";
    assert Lower("house") == "house";
  }

  /** The Senate column's header, in either case. */
  lemma SenateHeaderExamples()
    ensures InferChamberFromSection("Senate") == Some("senate")
    ensures InferChamberFromSection("SENATE") == Some("senate")
  {
    assert Lower("Senate") == "senate";
    assert Lower("SENATE") == "senate";
    ContainsAt("senate", "senate", 0);
  }

  /** The House column's header, in either case. */
  lemma HouseHeaderExamples()
    ensures InferChamberFromSection("House") == Some("house")
    ensures InferChamberFromSection("HOUSE") == Some("house")
  {
    assert Lower("House") == "house";
    assert Lower("HOUSE") == "house";
    ContainsAt("house", "house", 0);
    NotContainsShorter("house", "senate");
  }

  lemma UnknownSectionLower()
    ensures Lower("Unknown Section") == "unknown section"
  {
    var u := Lower("Unknown Section");
    assert u[0] == 'u' && u[8] == 's';
    assert u[1..8] == "Unknown Section"[1..8] && u[9..] == "Unknown Section"[9..];
  }

  /** A header that names neither chamber. */
  lemma UnknownHeaderExample()
    ensures InferChamberFromSection("Unknown Section") == None
  {
    var u := "unknown section";
    UnknownSectionLower();
    assert 'a' !in u && 'h' !in u;
    NotContainsMissingChar(u, "senate", 3);
    NotContainsMissingChar(u, "house", 0);
  }

  // ---------------------------------------------------------------------
  // Member id and name

  /** `parts[-1].split("?", 1)[0]` of `path.split("/")`: the last path segment without its query. */
  function MemberIdFromPath(path: string): (r: string)
    ensures '/' !in r && '?' !in r
  {
    var parts := Split(path, '/');
    var last := parts[|parts| - 1];
    Split(last, '?')[0]
  }

  lemma SplitFree(s: string, c: char)
    requires c !in s
    ensures Split(s, c) == [s]
  {
  }

  /** The first separator in `s + [c] + x` is at or before the one placed there. */
  lemma FirstSeparatorBefore(s: string, c: char, x: string) returns (i: nat)
    ensures IndexOf(s + [c] + x, c) == Some(i) && i <= |s|
  {
    var t := s + [c] + x;
    IndexOfAtMost(t, c, |s|);
    i := IndexOf(t, c).value;
  }

  /** The first occurrence comes no later than any occurrence. */
  lemma {:induction false} IndexOfAtMost(t: string, c: char, j: nat)
    requires j < |t| && t[j] == c
    ensures IndexOf(t, c).Some? && IndexOf(t, c).value <= j
    decreases j
  {
    if t[0] != c {
      IndexOfAtMost(t[1..], c, j - 1);
    }
  }

  /** The last piece of a split is whatever follows the last separator. */
  lemma {:induction false} SplitLast(s: string, c: char, x: string)
    requires c !in x
    ensures var parts := Split(s + [c] + x, c); parts[|parts| - 1] == x
    decreases |s|
  {
    var t := s + [c] + x;
    var i := FirstSeparatorBefore(s, c, x);
    var rest := Split(t[i + 1..], c);
    assert Split(t, c) == [t[..i]] + rest;
    if i == |s| {
      assert t[i + 1..] == x;
      SplitFree(x, c);
    } else {
      assert t[i + 1..] == s[i + 1..] + [c] + x;
      SplitLast(s[i + 1..], c, x);
    }
  }

  /** A profile link ".../id" or ".../id?query" gives back `id`. */
  lemma MemberIdRoundTrip(prefix: string, id: string, query: Option<string>)
    requires '/' !in id && '?' !in id
    requires query.Some? ==> '/' !in query.value
    ensures var tail := if query.Some? then id + "?" + query.value else id;
      MemberIdFromPath(prefix + "/" + tail) == id
  {
    var tail := if query.Some? then id + "?" + query.value else id;
    if query.Some? {
      QueryTail(id, query.value);
    } else {
      SplitFree(id, '?');
    }
    LastSegment(prefix, tail);
  }

  /** The last "/"-piece of `prefix + "/" + tail` is `tail` when `tail` has no slash. */
  lemma LastSegment(prefix: string, tail: string)
    requires '/' !in tail
    ensures var parts := Split(prefix + "/" + tail, '/'); parts[|parts| - 1] == tail
  {
    SplitLast(prefix, '/', tail);
    assert prefix + "/" + tail == prefix + ['/'] + tail;
  }

  /** An id followed by "?" and a slash-free query has no slash, and its first "?"-piece is the id. */
  lemma QueryTail(id: string, query: string)
    requires '/' !in id && '?' !in id && '/' !in query
    ensures '/' !in id + "?" + query
    ensures Split(id + "?" + query, '?')[0] == id
  {
    var tail := id + "?" + query;
    assert forall k | 0 <= k < |tail| :: tail[k] == if k < |id| then id[k] else if k == |id| then '?' else query[k - |id| - 1];
    IndexOfAfterFree(id, '?', query);
    assert tail == id + ['?'] + query;
    assert Split(tail, '?') == [tail[..|id|]] + Split(tail[|id| + 1..], '?');
    assert tail[..|id|] == id;
  }

  /** The profile links of the leadership page. */
  lemma MemberIdExamples(p: string, q: string)
    requires p == "/Legislators/Profile/KES0" && q == "/Legislators/Profile/R_M1"
    ensures MemberIdFromPath(p) == "KES0"
    ensures MemberIdFromPath(q) == "R_M1"
  {
    var prefix := "/Legislators/Profile";
    var k, m := "KES0", "R_M1";
    assert p == prefix + "/" + k;
    MemberIdRoundTrip(prefix, k, None);
    assert q == prefix + "/" + m;
    MemberIdRoundTrip(prefix, m, None);
  }

  /** `f"{first_name} {last_name}".strip()`. */
  function MemberName(first: string, last: string): (r: string)
    ensures |r| <= |first| + 1 + |last|
    ensures |r| > 0 ==> !IsSpace(r[0]) && !IsSpace(r[|r| - 1])
  {
    Strip(first + " " + last)
  }

  /** A predicate for text as `get_text(strip=True)` returns it: no whitespace at either end. */
  predicate Trimmed(s: string) {
    |s| > 0 ==> !IsSpace(s[0]) && !IsSpace(s[|s| - 1])
  }

  /** With both parts present the name is the two joined by one space; with one missing, the other alone. */
  lemma MemberNameCases(first: string, last: string)
    requires Trimmed(first) && Trimmed(last)
    ensures |first| > 0 && |last| > 0 ==> MemberName(first, last) == first + " " + last
    ensures |first| == 0 ==> MemberName(first, last) == last
    ensures |last| == 0 ==> MemberName(first, last) == first
  {
    var s := first + " " + last;
    if |first| > 0 {
      assert s[0] == first[0];
      TrimStartByNoop(s, IsSpace);
      if |last| > 0 {
        assert s[|s| - 1] == last[|last| - 1];
        TrimEndByNoop(s, IsSpace);
      } else {
        assert s[..|s| - 1] == first;
        TrimEndByNoop(first, IsSpace);
      }
    } else {
      assert s == " " + last;
      assert TrimStartBy(s, IsSpace) == TrimStartBy(last, IsSpace);
      TrimStartByNoop(last, IsSpace);
      TrimEndByNoop(last, IsSpace);
    }
  }

  // ---------------------------------------------------------------------
  // Rows of the member table and leadership cards

  /** A member table row: the cell texts as `get_text(strip=True)` gives them, and the picture cell's link. */
  datatype MemberRow = MemberRow(cells: seq<string>, pictureHref: Option<string>)

  /** `RawMember`, without the profile URL (an `urljoin` of the link). */
  datatype RawMember = RawMember(memberId: string, name: string, chamber: string,
                                 rawDistrict: string, party: Option<string>)

  /** `_parse_member_row`: fewer than six cells, no profile link, or a blank link skip the row. */
  function ParseMemberRow(row: MemberRow, chamber: string): (r: Option<RawMember>)
    ensures r.Some? <==> |row.cells| >= 6 && row.pictureHref.Some? && Strip(row.pictureHref.value) != ""
    ensures r.Some? ==> r.value.chamber == chamber && r.value.rawDistrict == row.cells[4]
    ensures r.Some? ==> '/' !in r.value.memberId && '?' !in r.value.memberId
    ensures r.Some? ==> r.value.memberId == MemberIdFromPath(Strip(row.pictureHref.value))
    ensures r.Some? ==> r.value.name == MemberName(row.cells[2], row.cells[3])
    ensures r.Some? ==> r.value.party == PartyToCode(row.cells[5])
  {
    if |row.cells| < 6 || row.pictureHref.None? then None
    else
      var path := Strip(row.pictureHref.value);
      if path == "" then None
      else Some(RawMember(MemberIdFromPath(path), MemberName(row.cells[2], row.cells[3]),
                          chamber, row.cells[4], PartyToCode(row.cells[5])))
  }

  /** `scrape_members_for_chamber`'s loop: the rows that parse, in table order. */
  function ParseMemberRows(rows: seq<MemberRow>, chamber: string): (r: seq<RawMember>)
    ensures |r| <= |rows|
    ensures forall k | 0 <= k < |r| :: r[k].chamber == chamber
  {
    if |rows| == 0 then []
    else
      var rest := ParseMemberRows(rows[1..], chamber);
      match ParseMemberRow(rows[0], chamber)
      case Some(m) => [m] + rest
      case None => rest
  }

  /** A row keeps its place: adding a row in front adds its parse, if any, in front. */
  lemma {:induction false} ParseMemberRowsAppend(a: seq<MemberRow>, b: seq<MemberRow>, chamber: string)
    ensures ParseMemberRows(a + b, chamber) == ParseMemberRows(a, chamber) + ParseMemberRows(b, chamber)
    decreases |a|
  {
    if |a| == 0 {
      assert a + b == b;
    } else {
      assert (a + b)[1..] == a[1..] + b;
      ParseMemberRowsAppend(a[1..], b, chamber);
    }
  }

  /** A profile link as the site prints it: `prefix/id`, or `prefix/id?query`. */
  function ProfileLink(prefix: string, id: string, query: Option<string>): string {
    prefix + "/" + (if query.Some? then id + "?" + query.value else id)
  }

  /** A link with no whitespace at either end is read as it is, whatever blanks surround it. */
  lemma PaddedLinkStrips(pre: string, link: string, post: string)
    requires forall k | 0 <= k < |pre| :: IsSpace(pre[k])
    requires forall k | 0 <= k < |post| :: IsSpace(post[k])
    requires |link| > 0 && Trimmed(link)
    ensures Strip(pre + link + post) == link
  {
    StripPadded(pre, link, post);
    TrimStartByNoop(link, IsSpace);
    TrimEndByNoop(link, IsSpace);
  }

  /**
    A row whose picture link points at profile `id`, possibly with a query
    and surrounding blanks, gives the member `id`; with both name cells
    present the name is first and last name joined by one space.
   */
  lemma ParseMemberRowOfLink(row: MemberRow, chamber: string, pre: string, prefix: string,
                             id: string, query: Option<string>, post: string)
    requires |row.cells| >= 6 && Trimmed(row.cells[2]) && Trimmed(row.cells[3])
    requires '/' !in id && '?' !in id && (query.Some? ==> '/' !in query.value)
    requires forall k | 0 <= k < |pre| :: IsSpace(pre[k])
    requires forall k | 0 <= k < |post| :: IsSpace(post[k])
    requires Trimmed(ProfileLink(prefix, id, query))
    requires row.pictureHref == Some(pre + ProfileLink(prefix, id, query) + post)
    ensures ParseMemberRow(row, chamber).Some?
    ensures ParseMemberRow(row, chamber).value.memberId == id
    ensures |row.cells[2]| > 0 && |row.cells[3]| > 0 ==>
      ParseMemberRow(row, chamber).value.name == row.cells[2] + " " + row.cells[3]
  {
    var link := ProfileLink(prefix, id, query);
    PaddedLinkStrips(pre, link, post);
    MemberIdRoundTrip(prefix, id, query);
    MemberNameCases(row.cells[2], row.cells[3]);
  }

  /** A leadership card: the profile link and the role and district spans, each possibly absent. */
  datatype LeaderCard = LeaderCard(href: Option<string>, roleText: Option<string>, districtText: Option<string>)

  datatype RawLeadershipRole = RawLeadershipRole(memberId: string, chamber: string,
                                                 rawTitle: string, rawDistrictParty: string)

  /** `_parse_top_level_leader` and `_parse_leadership_entry`: a missing span reads as "". */
  function ParseLeaderCard(card: LeaderCard, chamber: string): (r: Option<RawLeadershipRole>)
    ensures r.Some? <==> card.href.Some? && Strip(card.href.value) != ""
    ensures r.Some? ==> r.value.chamber == chamber
    ensures r.Some? ==> r.value.rawTitle == (if card.roleText.Some? then card.roleText.value else "")
    ensures r.Some? ==> r.value.rawDistrictParty == (if card.districtText.Some? then card.districtText.value else "")
    ensures r.Some? ==> '/' !in r.value.memberId && '?' !in r.value.memberId
    ensures r.Some? ==> r.value.memberId == MemberIdFromPath(Strip(card.href.value))
  {
    if card.href.None? then None
    else
      var path := Strip(card.href.value);
      if path == "" then None
      else Some(RawLeadershipRole(MemberIdFromPath(path), chamber,
                                  if card.roleText.Some? then card.roleText.value else "",
                                  if card.districtText.Some? then card.districtText.value else ""))
  }

  /** A card whose link points at profile `id`, possibly with a query and surrounding blanks, gives a role for `id`. */
  lemma ParseLeaderCardOfLink(card: LeaderCard, chamber: string, pre: string, prefix: string,
                              id: string, query: Option<string>, post: string)
    requires '/' !in id && '?' !in id && (query.Some? ==> '/' !in query.value)
    requires forall k | 0 <= k < |pre| :: IsSpace(pre[k])
    requires forall k | 0 <= k < |post| :: IsSpace(post[k])
    requires Trimmed(ProfileLink(prefix, id, query))
    requires card.href == Some(pre + ProfileLink(prefix, id, query) + post)
    ensures ParseLeaderCard(card, chamber).Some?
    ensures ParseLeaderCard(card, chamber).value.memberId == id
  {
    PaddedLinkStrips(pre, ProfileLink(prefix, id, query), post);
    MemberIdRoundTrip(prefix, id, query);
  }

  /** The Senate President's card on the leadership page. */
  lemma LeaderCardExample(card: LeaderCard, p: string)
    requires p == "/Legislators/Profile/KES0"
    requires card == LeaderCard(Some(p), Some("President of the Senate"), Some("Middlesex and Norfolk (D)"))
    ensures ParseLeaderCard(card, "senate")
      == Some(RawLeadershipRole("KES0", "senate", "President of the Senate", "Middlesex and Norfolk (D)"))
  {
    assert p[0] == '/' && p[|p| - 1] == '0';
    TrimStartByNoop(p, IsSpace);
    TrimEndByNoop(p, IsSpace);
    MemberIdExamples(p, "/Legislators/Profile/R_M1");
  }
}
