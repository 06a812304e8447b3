/**
  The string-level part of the committee scraper (ingest/committees.py):
  the committee id inside a committee link, the role label in front of it,
  and the rule that an entry without an id is dropped. Fetching the pages
  and walking the HTML are outside the model; a list item is given as its
  link (text and target) and the text of its first span.
 */
module IngestCommittees {
  import opened Wrappers
  import opened Strings
  import Normalize
  import opened Core

  // ---------------------------------------------------------------------
  // Committee id from a link

  /** `_extract_committee_id_from_href`: the third "/"-segment once outer slashes are stripped, else "". */
  function CommitteeIdFromHref(href: string): (r: string)
    ensures '/' !in r
  {
    var parts := Split(StripChar(href, '/'), '/');
    if |parts| >= 3 then parts[2] else ""
  }

  /** A path of segments, none containing "/", with no empty segment at either end. */
  predicate PlainPath(segs: seq<string>) {
    && |segs| >= 1
    && (forall k | 0 <= k < |segs| :: '/' !in segs[k])
    && |segs[0]| > 0 && |segs[|segs| - 1]| > 0
  }

  lemma {:induction false} JoinFirst(segs: seq<string>, c: char)
    requires |segs| >= 1 && |segs[0]| > 0
    ensures |Join(segs, c)| > 0 && Join(segs, c)[0] == segs[0][0]
  {
    if |segs| > 1 {
      assert Join(segs, c) == segs[0] + [c] + Join(segs[1..], c);
    }
  }

  lemma {:induction false} JoinLast(segs: seq<string>, c: char)
    requires |segs| >= 1 && |segs[|segs| - 1]| > 0
    ensures var j := Join(segs, c); |j| > 0 && j[|j| - 1] == segs[|segs| - 1][|segs[|segs| - 1]| - 1]
    decreases |segs|
  {
    if |segs| > 1 {
      JoinLast(segs[1..], c);
      assert Join(segs, c) == segs[0] + [c] + Join(segs[1..], c);
    }
  }

  lemma TrimStartFramed(t: string, c: char)
    requires |t| > 0 && t[0] != c
    ensures TrimStartBy([c] + t, x => x == c) == t
  {
    assert ([c] + t)[1..] == t;
    TrimStartByNoop(t, x => x == c);
  }

  lemma TrimEndFramed(j: string, c: char, trailing: bool)
    requires |j| > 0 && j[|j| - 1] != c
    ensures TrimEndBy(j + (if trailing then [c] else []), x => x == c) == j
  {
    if trailing {
      assert (j + [c])[..|j|] == j;
    }
    TrimEndByNoop(j, x => x == c);
  }

  /** A string that neither starts nor ends with `c` survives stripping `c` from a framed copy. */
  lemma StripCharFramed(j: string, c: char, trailing: bool)
    requires |j| > 0 && j[0] != c && j[|j| - 1] != c
    ensures StripChar([c] + j + (if trailing then [c] else []), c) == j
  {
    var t := j + (if trailing then [c] else []);
    assert [c] + j + (if trailing then [c] else []) == [c] + t;
    TrimStartFramed(t, c);
    TrimEndFramed(j, c, trailing);
  }

  /** Stripping slashes from "/" + a plain path, optionally with a trailing "/", leaves the joined path. */
  lemma StripPlainPath(segs: seq<string>, trailing: bool)
    requires PlainPath(segs)
    ensures StripChar("/" + Join(segs, '/') + (if trailing then "/" else ""), '/') == Join(segs, '/')
  {
    var j := Join(segs, '/');
    JoinFirst(segs, '/');
    JoinLast(segs, '/');
    assert segs[0][0] != '/' by { assert segs[0][0] in segs[0]; }
    var last := segs[|segs| - 1];
    assert last[|last| - 1] != '/' by { assert last[|last| - 1] in last; }
    StripCharFramed(j, '/', trailing);
  }

  /** A link "/s0/s1/id/..." gives back its third segment. */
  lemma CommitteeIdOfPath(segs: seq<string>, trailing: bool)
    requires PlainPath(segs) && |segs| >= 3
    ensures CommitteeIdFromHref("/" + Join(segs, '/') + (if trailing then "/" else "")) == segs[2]
  {
    StripPlainPath(segs, trailing);
    SplitJoin(segs, '/');
  }

  /** A link with fewer than three segments gives the empty id. */
  lemma ShortPathNoId(segs: seq<string>, trailing: bool)
    requires PlainPath(segs) && |segs| < 3
    ensures CommitteeIdFromHref("/" + Join(segs, '/') + (if trailing then "/" else "")) == ""
  {
    StripPlainPath(segs, trailing);
    SplitJoin(segs, '/');
  }

  lemma ExamplePathJoin(segs: seq<string>)
    requires segs == ["Committees", "Detail", "S51", "Committees"]
    ensures Join(segs, '/') == "Committees/Detail/S51/Committees"
  {
    var j3 := Join(segs[3..], '/');
    assert segs[3..] == ["Committees"];
    assert j3 == "Committees";
    var j2 := Join(segs[2..], '/');
    assert segs[2..][1..] == segs[3..];
    assert j2 == "S51" + "/" + j3;
    var j1 := Join(segs[1..], '/');
    assert segs[1..][1..] == segs[2..];
    assert j1 == "Detail" + "/" + j2;
    assert Join(segs, '/') == "Committees" + "/" + j1;
  }

  lemma ExampleSegments(segs: seq<string>)
    requires segs == ["Committees", "Detail", "S51", "Committees"]
    ensures PlainPath(segs) && |segs| >= 3 && segs[2] == "S51"
  {
  }

  lemma ExampleHref(href: string, segs: seq<string>)
    requires segs == ["Committees", "Detail", "S51", "Committees"]
    requires href == "/Committees/Detail/S51/Committees"
    ensures href == "/" + Join(segs, '/') + ""
  {
    ExamplePathJoin(segs);
  }

  /** The example of the committee pages: "/Committees/Detail/S51/Committees" names committee "S51". */
  lemma CommitteeIdExample(href: string)
    requires href == "/Committees/Detail/S51/Committees"
    ensures CommitteeIdFromHref(href) == "S51"
  {
    var segs := ["Committees", "Detail", "S51", "Committees"];
    ExampleSegments(segs);
    ExampleHref(href, segs);
    CommitteeIdOfPath(segs, false);
  }

  // ---------------------------------------------------------------------
  // Role label

  /** `_extract_role_label`: the span's stripped text without trailing commas; nothing when that is empty. */
  function RoleLabel(span: Option<string>): (r: Option<string>)
    ensures span.None? ==> r.None?
    ensures r.Some? ==> |r.value| > 0 && r.value[|r.value| - 1] != ','
  {
    if span.None? then None
    else
      var text := RStripChar(Strip(span.value), ',');
      if text != "" then Some(text) else None
  }

  /** A title followed by a comma and blanks, as the profile pages print it, comes back as the title. */
  lemma RoleLabelOfPrinted(title: string, pad: string)
    requires |title| > 0 && !IsSpace(title[0]) && title[|title| - 1] != ',' && !IsSpace(title[|title| - 1])
    requires forall k | 0 <= k < |pad| :: IsSpace(pad[k])
    ensures RoleLabel(Some(title + "," + pad)) == Some(title)
  {
    var s := title + "," + pad;
    assert s[0] == title[0];
    TrimStartByNoop(s, IsSpace);
    TrimEndPadded(title + ",", pad, IsSpace);
    TrimEndByNoop(title + ",", IsSpace);
    var l := title + ",";
    assert l[..|l| - 1] == title;
    TrimEndByNoop(title, x => x == ',');
  }

  /**
    A span holding only commas, with blanks around them, gives no label.
    Blanks between commas are kept by the strip, so ", ," gives the label ", ".
   */
  lemma RoleLabelEmpty(pre: string, commas: string, post: string)
    requires forall k | 0 <= k < |pre| :: IsSpace(pre[k])
    requires forall k | 0 <= k < |commas| :: commas[k] == ','
    requires forall k | 0 <= k < |post| :: IsSpace(post[k])
    ensures RoleLabel(Some(pre + commas + post)) == None
  {
    StripAroundCommas(pre, commas, post);
    RStripAll(commas, ',');
  }

  lemma StripAroundCommas(pre: string, commas: string, post: string)
    requires forall k | 0 <= k < |pre| :: IsSpace(pre[k])
    requires forall k | 0 <= k < |commas| :: commas[k] == ','
    requires forall k | 0 <= k < |post| :: IsSpace(post[k])
    ensures Strip(pre + commas + post) == commas
  {
    StripPadded(pre, commas, post);
    if |commas| > 0 {
      assert commas[0] == ',' && commas[|commas| - 1] == ',';
      TrimStartByNoop(commas, IsSpace);
      TrimEndByNoop(commas, IsSpace);
    }
  }

  lemma {:induction false} RStripAll(s: string, c: char)
    requires forall k | 0 <= k < |s| :: s[k] == c
    ensures RStripChar(s, c) == ""
    decreases |s|
  {
    if |s| > 0 {
      RStripAll(s[..|s| - 1], c);
    }
  }

  /** Scraped labels feed the role classifier: "Vice Chair, " is a vice chair's label. */
  lemma ViceChairLabelClassifies()
    ensures RoleLabel(Some("Vice Chair, ")) == Some("Vice Chair")
    ensures Normalize.NormalizeRoleLabel(RoleLabel(Some("Vice Chair, "))) == Some(VICE_CHAIR)
  {
    assert "Vice Chair, " == "Vice Chair" + "," + " ";
    RoleLabelOfPrinted("Vice Chair", " ");
    Normalize.LabelExamples();
  }

  // ---------------------------------------------------------------------
  // Entries of a member's committee page

  /** A list item: its link as (text, target) if it has one, and its first span's text if it has one. */
  datatype CommitteeItem = CommitteeItem(link: Option<(string, string)>, span: Option<string>)

  datatype RawCommitteeRole = RawCommitteeRole(memberId: string, sessionId: string, committeeExternalId: string,
                                               committeeName: string, rawRoleLabel: Option<string>)

  /** A role as the scraper emits it: for the member and session asked for, with a non-empty id. */
  predicate EmittedFor(role: RawCommitteeRole, memberId: string, sessionId: string) {
    role.memberId == memberId && role.sessionId == sessionId
    && role.committeeExternalId != "" && '/' !in role.committeeExternalId
  }

  /** `_extract_committee_name_and_id`: ("", "") without a link. */
  function NameAndId(item: CommitteeItem): (r: (string, string))
    ensures item.link.None? ==> r == ("", "")
    ensures item.link.Some? ==> r.0 == item.link.value.0 && r.1 == CommitteeIdFromHref(item.link.value.1)
  {
    match item.link
    case None => ("", "")
    case Some((name, href)) => (name, CommitteeIdFromHref(href))
  }

  /** The loop of `scrape_committees_for_member`: one role per item that yields a committee id. */
  function CommitteeRoles(memberId: string, sessionId: string, items: seq<CommitteeItem>): (r: seq<RawCommitteeRole>)
    ensures |r| <= |items|
  {
    if |items| == 0 then []
    else
      var rest := CommitteeRoles(memberId, sessionId, items[1..]);
      var ni := NameAndId(items[0]);
      if ni.1 == "" then rest
      else [RawCommitteeRole(memberId, sessionId, ni.1, ni.0, RoleLabel(items[0].span))] + rest
  }

  predicate AllEmittedFor(rs: seq<RawCommitteeRole>, memberId: string, sessionId: string) {
    forall k | 0 <= k < |rs| :: EmittedFor(rs[k], memberId, sessionId)
  }

  lemma ConsEmitted(role: RawCommitteeRole, rest: seq<RawCommitteeRole>, memberId: string, sessionId: string)
    requires EmittedFor(role, memberId, sessionId) && AllEmittedFor(rest, memberId, sessionId)
    ensures AllEmittedFor([role] + rest, memberId, sessionId)
  {
    var r := [role] + rest;
    assert forall k | 1 <= k < |r| :: r[k] == rest[k - 1];
  }

  /** Every emitted role is for the member and session asked for, with a non-empty id. */
  lemma {:induction false} CommitteeRolesEmitted(memberId: string, sessionId: string, items: seq<CommitteeItem>)
    ensures AllEmittedFor(CommitteeRoles(memberId, sessionId, items), memberId, sessionId)
    decreases |items|
  {
    if |items| > 0 {
      CommitteeRolesEmitted(memberId, sessionId, items[1..]);
      var rest := CommitteeRoles(memberId, sessionId, items[1..]);
      var ni := NameAndId(items[0]);
      if ni.1 != "" {
        var role := RawCommitteeRole(memberId, sessionId, ni.1, ni.0, RoleLabel(items[0].span));
        assert CommitteeRoles(memberId, sessionId, items) == [role] + rest;
        assert items[0].link.Some?;
        ConsEmitted(role, rest, memberId, sessionId);
      }
    }
  }

  /** Items are scraped in page order: the roles of two runs of items are the two lists of roles. */
  lemma {:induction false} CommitteeRolesAppend(memberId: string, sessionId: string, a: seq<CommitteeItem>, b: seq<CommitteeItem>)
    ensures CommitteeRoles(memberId, sessionId, a + b)
      == CommitteeRoles(memberId, sessionId, a) + CommitteeRoles(memberId, sessionId, b)
    decreases |a|
  {
    if |a| == 0 {
      assert a + b == b;
    } else {
      assert (a + b)[1..] == a[1..] + b;
      CommitteeRolesAppend(memberId, sessionId, a[1..], b);
    }
  }

  /** One item is emitted exactly when its link yields an id, with that id, name and title. */
  lemma CommitteeRolesSingle(memberId: string, sessionId: string, item: CommitteeItem)
    ensures var r := CommitteeRoles(memberId, sessionId, [item]);
      (|r| == 1 <==> NameAndId(item).1 != "")
      && (|r| == 1 ==> r[0] == RawCommitteeRole(memberId, sessionId, NameAndId(item).1, NameAndId(item).0,
                                                RoleLabel(item.span)))
      && (|r| == 0 <==> NameAndId(item).1 == "")
  {
    assert [item][1..] == [];
  }
}
