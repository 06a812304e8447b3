/**
  The lower-case, unpadded titles and chambers the leadership examples use:
  lowering and stripping leaves each as it is. Kept apart from the title
  table so that these facts about plain text are proved on their own.
 */
module LeadershipText {
  import opened Strings

  lemma FirstDivisionChairPlain(s: string)
    requires s == "first division chair"
    ensures LowerStrip(s) == s
  {
    LowerStripNoop(s);
  }

  lemma HousePlain(s: string)
    requires s == "house"
    ensures LowerStrip(s) == s
  {
    LowerStripNoop(s);
  }

  lemma SenatePlain(s: string)
    requires s == "senate"
    ensures LowerStrip(s) == s
  {
    LowerStripNoop(s);
  }

  lemma MajorityLeaderPlain(s: string)
    requires s == "majority leader"
    ensures LowerStrip(s) == s
  {
    LowerStripNoop(s);
  }

  lemma SpeakerOfTheHousePlain(s: string)
    requires s == "speaker of the house"
    ensures LowerStrip(s) == s
  {
    LowerStripNoop(s);
  }

  lemma SenateMajorityWhipPlain(s: string)
    requires s == "senate majority whip"
    ensures LowerStrip(s) == s
  {
    LowerStripNoop(s);
  }
}

/**
  Leadership title normalisation (scripts/normalize_leadership.py; the same
  function appears verbatim in scripts/normalize_all_roles.py and is
  modelled once): a scraped leadership title and a chamber name are
  lower-cased and stripped, then compared against a fixed list of
  (title, chamber) pairs, each naming one role code.
 */
module NormalizeLeadership {
  import opened Wrappers
  import opened Strings
  import opened LeadershipText

  /**
    The comparison chain of `normalize_leadership_title`, on a title and a
    chamber that are already lower-cased and stripped. The nested tests on
    "majority leader", "minority leader", "assistant majority leader" and
    "second assistant majority leader" fall through to the later tests when
    the chamber does not match, which is what the flat chain below does.
   */
  function LeadershipCode(t: string, ch: string): Option<string> {
    if t == "president of the senate" && ch == "senate" then Some("SENATE_PRESIDENT")
    else if t == "president pro tempore" && ch == "senate" then Some("SENATE_PRESIDENT_PRO_TEMPORE")
    else if t == "speaker of the house" && ch == "house" then Some("SPEAKER")
    else if t == "speaker pro tempore" && ch == "house" then Some("HOUSE_SPEAKER_PRO_TEMPORE")
    else if t == "majority leader" && ch == "senate" then Some("SENATE_MAJORITY_FLOOR_LEADER")
    else if t == "majority leader" && ch == "house" then Some("HOUSE_MAJORITY_FLOOR_LEADER")
    else if t == "minority leader" && ch == "senate" then Some("SENATE_MINORITY_FLOOR_LEADER")
    else if t == "minority leader" && ch == "house" then Some("HOUSE_MINORITY_FLOOR_LEADER")
    else if t == "assistant majority leader" && ch == "senate" then Some("SENATE_MAJORITY_ASSISTANT_FLOOR_LEADER")
    else if t == "assistant majority leader" && ch == "house" then Some("HOUSE_MAJORITY_ASSISTANT_FLOOR_LEADER")
    else if t == "second assistant majority leader" && ch == "house" then Some("HOUSE_MAJORITY_SECOND_ASSISTANT_FLOOR_LEADER")
    else if t == "assistant minority leader" && ch == "senate" then Some("SENATE_MINORITY_ASSISTANT_FLOOR_LEADER")
    else if t == "first assistant minority leader" && ch == "house" then Some("HOUSE_MINORITY_ASSISTANT_FLOOR_LEADER")
    else if t == "second assistant minority leader" && ch == "house" then Some("HOUSE_MINORITY_SECOND_ASSISTANT_FLOOR_LEADER")
    else if t == "third assistant minority leader" && ch == "house" then Some("HOUSE_MINORITY_THIRD_ASSISTANT_FLOOR_LEADER")
    else if t == "first division chair" && ch == "house" then Some("HOUSE_DIVISION_CHAIR_1")
    else if t == "second division chair" && ch == "house" then Some("HOUSE_DIVISION_CHAIR_2")
    else if t == "third division chair" && ch == "house" then Some("HOUSE_DIVISION_CHAIR_3")
    else if t == "fourth division chair" && ch == "house" then Some("HOUSE_DIVISION_CHAIR_4")
    else None
  }

  /** `normalize_leadership_title(raw_title, chamber)`. */
  function NormalizeLeadershipTitle(rawTitle: string, chamber: string): Option<string> {
    LeadershipCode(LowerStrip(rawTitle), LowerStrip(chamber))
  }

  // ---------------------------------------------------------------------
  // The recognised titles as a table

  /** One recognised (title, chamber) pair and the role code it names. */
  datatype LeadershipEntry = LeadershipEntry(title: string, chamber: string, code: string)

  /** The nineteen recognised pairs, written as data, independently of the comparison chain. */
  const LeadershipTable: seq<LeadershipEntry> := [
    LeadershipEntry("president of the senate", "senate", "SENATE_PRESIDENT"),
    LeadershipEntry("president pro tempore", "senate", "SENATE_PRESIDENT_PRO_TEMPORE"),
    LeadershipEntry("speaker of the house", "house", "SPEAKER"),
    LeadershipEntry("speaker pro tempore", "house", "HOUSE_SPEAKER_PRO_TEMPORE"),
    LeadershipEntry("majority leader", "senate", "SENATE_MAJORITY_FLOOR_LEADER"),
    LeadershipEntry("majority leader", "house", "HOUSE_MAJORITY_FLOOR_LEADER"),
    LeadershipEntry("minority leader", "senate", "SENATE_MINORITY_FLOOR_LEADER"),
    LeadershipEntry("minority leader", "house", "HOUSE_MINORITY_FLOOR_LEADER"),
    LeadershipEntry("assistant majority leader", "senate", "SENATE_MAJORITY_ASSISTANT_FLOOR_LEADER"),
    LeadershipEntry("assistant majority leader", "house", "HOUSE_MAJORITY_ASSISTANT_FLOOR_LEADER"),
    LeadershipEntry("second assistant majority leader", "house", "HOUSE_MAJORITY_SECOND_ASSISTANT_FLOOR_LEADER"),
    LeadershipEntry("assistant minority leader", "senate", "SENATE_MINORITY_ASSISTANT_FLOOR_LEADER"),
    LeadershipEntry("first assistant minority leader", "house", "HOUSE_MINORITY_ASSISTANT_FLOOR_LEADER"),
    LeadershipEntry("second assistant minority leader", "house", "HOUSE_MINORITY_SECOND_ASSISTANT_FLOOR_LEADER"),
    LeadershipEntry("third assistant minority leader", "house", "HOUSE_MINORITY_THIRD_ASSISTANT_FLOOR_LEADER"),
    LeadershipEntry("first division chair", "house", "HOUSE_DIVISION_CHAIR_1"),
    LeadershipEntry("second division chair", "house", "HOUSE_DIVISION_CHAIR_2"),
    LeadershipEntry("third division chair", "house", "HOUSE_DIVISION_CHAIR_3"),
    LeadershipEntry("fourth division chair", "house", "HOUSE_DIVISION_CHAIR_4")
  ]

  /** Every code the chain returns comes from a table entry with the same title and chamber. */
  lemma ChainInTable(t: string, ch: string)
    ensures LeadershipCode(t, ch).Some? ==> LeadershipEntry(t, ch, LeadershipCode(t, ch).value) in LeadershipTable
  {
  }

  lemma TableInChainA()
    ensures forall i :: 0 <= i < 5 ==>
      LeadershipCode(LeadershipTable[i].title, LeadershipTable[i].chamber) == Some(LeadershipTable[i].code)
  {
  }

  lemma TableInChainB()
    ensures forall i :: 5 <= i < 10 ==>
      LeadershipCode(LeadershipTable[i].title, LeadershipTable[i].chamber) == Some(LeadershipTable[i].code)
  {
  }

  lemma TableInChainC()
    ensures forall i :: 10 <= i < 15 ==>
      LeadershipCode(LeadershipTable[i].title, LeadershipTable[i].chamber) == Some(LeadershipTable[i].code)
  {
  }

  lemma TableInChainD()
    ensures forall i :: 15 <= i < |LeadershipTable| ==>
      LeadershipCode(LeadershipTable[i].title, LeadershipTable[i].chamber) == Some(LeadershipTable[i].code)
  {
  }

  /** Every table entry is recognised by the chain with its own code. */
  lemma TableInChain(e: LeadershipEntry)
    requires e in LeadershipTable
    ensures LeadershipCode(e.title, e.chamber) == Some(e.code)
  {
    TableInChainA();
    TableInChainB();
    TableInChainC();
    TableInChainD();
  }

  /**
    The comparison chain and the table define the same mapping: the chain
    returns `c` for (t, ch) exactly when the table lists (t, ch, c), and it
    returns nothing exactly when no entry has that title and chamber.
   */
  lemma LeadershipMatchesTable(t: string, ch: string, c: string)
    ensures LeadershipCode(t, ch) == Some(c) <==> LeadershipEntry(t, ch, c) in LeadershipTable
    ensures LeadershipCode(t, ch).None? <==> forall c' :: LeadershipEntry(t, ch, c') !in LeadershipTable
  {
    ChainInTable(t, ch);
    if LeadershipEntry(t, ch, c) in LeadershipTable {
      TableInChain(LeadershipEntry(t, ch, c));
    }
    if LeadershipCode(t, ch).None? {
      forall c' ensures LeadershipEntry(t, ch, c') !in LeadershipTable {
        if LeadershipEntry(t, ch, c') in LeadershipTable {
          TableInChain(LeadershipEntry(t, ch, c'));
        }
      }
    }
  }

  // ---------------------------------------------------------------------
  // Distinct codes

  lemma CodesDistinctA()
    ensures forall i, j :: 0 <= i < j < 10 ==> LeadershipTable[i].code != LeadershipTable[j].code
  {
  }

  lemma CodesDistinctB()
    ensures forall i, j :: 10 <= i < j < |LeadershipTable| ==> LeadershipTable[i].code != LeadershipTable[j].code
  {
  }

  lemma CodesDistinctC()
    ensures forall i, j :: 0 <= i < 10 <= j < |LeadershipTable| ==> LeadershipTable[i].code != LeadershipTable[j].code
  {
  }

  /** The nineteen codes are pairwise distinct. */
  lemma TableCodesDistinct()
    ensures |LeadershipTable| == 19
    ensures forall i, j :: 0 <= i < j < |LeadershipTable| ==> LeadershipTable[i].code != LeadershipTable[j].code
  {
    CodesDistinctA();
    CodesDistinctB();
    CodesDistinctC();
  }

  /** The codes the normaliser can return. */
  function LeadershipCodes(): (r: set<string>)
    ensures |r| == 19
  {
    TableCodesDistinct();
    CodeSetSize(LeadershipTable);
    set i | 0 <= i < |LeadershipTable| :: LeadershipTable[i].code
  }

  lemma {:induction false} CodeSetSize(es: seq<LeadershipEntry>)
    requires forall i, j :: 0 <= i < j < |es| ==> es[i].code != es[j].code
    ensures |set i | 0 <= i < |es| :: es[i].code| == |es|
    decreases |es|
  {
    if |es| > 0 {
      var init := es[..|es| - 1];
      CodeSetSize(init);
      CodeSetSnoc(es);
    }
  }

  /** The codes of a non-empty table are those of all but its last entry, plus the last entry's, which is new. */
  lemma CodeSetSnoc(es: seq<LeadershipEntry>)
    requires |es| > 0
    requires forall i, j :: 0 <= i < j < |es| ==> es[i].code != es[j].code
    ensures var init := es[..|es| - 1];
      && (set i | 0 <= i < |es| :: es[i].code) == (set i | 0 <= i < |init| :: init[i].code) + {es[|es| - 1].code}
      && es[|es| - 1].code !in (set i | 0 <= i < |init| :: init[i].code)
  {
    var init := es[..|es| - 1];
    var last := es[|es| - 1].code;
    var a := set i | 0 <= i < |init| :: init[i].code;
    forall x | x in a ensures x in set i | 0 <= i < |es| :: es[i].code {
      var i :| 0 <= i < |init| && init[i].code == x;
      assert es[i].code == x;
    }
    forall x | x in a ensures x != last {
      var i :| 0 <= i < |init| && init[i].code == x;
      assert es[i].code == x;
    }
  }

  /**
    The normaliser returns nothing or one of the nineteen codes, and two
    inputs that get the same code have the same lower-cased, stripped title
    and chamber.
   */
  lemma NormalizeLeadershipRange(rawTitle: string, chamber: string)
    ensures var r := NormalizeLeadershipTitle(rawTitle, chamber);
      r.Some? ==> r.value in LeadershipCodes()
  {
    var t, ch := LowerStrip(rawTitle), LowerStrip(chamber);
    ChainInTable(t, ch);
    if LeadershipCode(t, ch).Some? {
      var i :| 0 <= i < |LeadershipTable| && LeadershipTable[i] == LeadershipEntry(t, ch, LeadershipCode(t, ch).value);
    }
  }

  /** Distinct recognised (title, chamber) pairs never share a code. */
  lemma LeadershipCodeInjective(t1: string, ch1: string, t2: string, ch2: string)
    requires LeadershipCode(t1, ch1).Some?
    requires LeadershipCode(t1, ch1) == LeadershipCode(t2, ch2)
    ensures t1 == t2 && ch1 == ch2
  {
    var c := LeadershipCode(t1, ch1).value;
    ChainInTable(t1, ch1);
    ChainInTable(t2, ch2);
    var i :| 0 <= i < |LeadershipTable| && LeadershipTable[i] == LeadershipEntry(t1, ch1, c);
    var j :| 0 <= j < |LeadershipTable| && LeadershipTable[j] == LeadershipEntry(t2, ch2, c);
    TableCodesDistinct();
    assert i == j;
  }

  // ---------------------------------------------------------------------
  // Case and surrounding whitespace

  /**
    Matching ignores case and surrounding whitespace in both the title and
    the chamber.
   */
  lemma LeadershipIgnoresCaseAndPadding(
    pre: string, title: string, post: string, title': string,
    cpre: string, chamber: string, cpost: string, chamber': string)
    requires Lower(title) == Lower(title') && Lower(chamber) == Lower(chamber')
    requires forall k | 0 <= k < |pre| :: IsSpace(pre[k])
    requires forall k | 0 <= k < |post| :: IsSpace(post[k])
    requires forall k | 0 <= k < |cpre| :: IsSpace(cpre[k])
    requires forall k | 0 <= k < |cpost| :: IsSpace(cpost[k])
    ensures NormalizeLeadershipTitle(pre + title + post, cpre + chamber + cpost)
         == NormalizeLeadershipTitle(title', chamber')
  {
    LowerStripPadded(pre, title, post);
    LowerStripPadded(cpre, chamber, cpost);
  }

  // ---------------------------------------------------------------------
  // Examples

  /** A title is read as its lower-case form, whatever its capitals. */
  lemma CapitalisedTitle(title: string, lowered: string, chamber: string)
    requires Lower(title) == lowered
    ensures NormalizeLeadershipTitle(title, chamber) == NormalizeLeadershipTitle(lowered, chamber)
  {
    LowerIdempotent(title);
    assert "" + title + "" == title && "" + chamber + "" == chamber;
    LeadershipIgnoresCaseAndPadding("", title, "", lowered, "", chamber, "", chamber);
  }

  lemma MajorityLeaderLowered()
    ensures NormalizeLeadershipTitle("majority leader", "senate") == Some("SENATE_MAJORITY_FLOOR_LEADER")
    ensures NormalizeLeadershipTitle("majority leader", "house") == Some("HOUSE_MAJORITY_FLOOR_LEADER")
  {
    MajorityLeaderPlain("majority leader");
    SenatePlain("senate");
    HousePlain("house");
    TableInChain(LeadershipTable[4]);
    TableInChain(LeadershipTable[5]);
  }

  lemma MajorityLeaderLower()
    ensures Lower("Majority Leader") == "majority leader"
  {
  }

  /** The same title names different codes in the two chambers, spelled as the unit tests spell it. */
  lemma MajorityLeaderExamples()
    ensures NormalizeLeadershipTitle("Majority Leader", "senate") == Some("SENATE_MAJORITY_FLOOR_LEADER")
    ensures NormalizeLeadershipTitle("Majority Leader", "house") == Some("HOUSE_MAJORITY_FLOOR_LEADER")
  {
    MajorityLeaderLower();
    MajorityLeaderLowered();
    CapitalisedTitle("Majority Leader", "majority leader", "senate");
    CapitalisedTitle("Majority Leader", "majority leader", "house");
  }

  /** A title is read without the blanks around it and as its lower-case form. */
  lemma PaddedTitle(pre: string, title: string, post: string, lowered: string, chamber: string)
    requires Lower(title) == lowered
    requires forall k | 0 <= k < |pre| :: IsSpace(pre[k])
    requires forall k | 0 <= k < |post| :: IsSpace(post[k])
    ensures NormalizeLeadershipTitle(pre + title + post, chamber) == NormalizeLeadershipTitle(lowered, chamber)
  {
    LowerIdempotent(title);
    assert "" + chamber + "" == chamber;
    LeadershipIgnoresCaseAndPadding(pre, title, post, lowered, "", chamber, "", chamber);
  }

  /** Blanks around the title are dropped: the unit tests' "  Majority Leader  ". */
  lemma PaddedTitleExample(pad: string)
    requires pad == "  "
    ensures NormalizeLeadershipTitle(pad + "Majority Leader" + pad, "senate") == Some("SENATE_MAJORITY_FLOOR_LEADER")
  {
    assert NormalizeLeadershipTitle(pad + "Majority Leader" + pad, "senate")
        == NormalizeLeadershipTitle("majority leader", "senate") by {
      MajorityLeaderLower();
      PaddedTitle(pad, "Majority Leader", pad, "majority leader", "senate");
    }
    MajorityLeaderLowered();
  }

  lemma SpeakerInSenateUnmatched()
    ensures LeadershipCode("speaker of the house", "senate").None?
  {
  }

  /** A title bound to one chamber names nothing in the other. */
  lemma WrongChamberExample()
    ensures NormalizeLeadershipTitle("Speaker of the House", "senate").None?
  {
    assert Lower("Speaker of the House") == "speaker of the house";
    CapitalisedTitle("Speaker of the House", "speaker of the house", "senate");
    SpeakerInSenateUnmatched();
    SpeakerOfTheHousePlain("speaker of the house");
    SenatePlain("senate");
  }

  lemma WhipUnmatched()
    ensures LeadershipCode("senate majority whip", "senate").None?
  {
  }

  /** Whip titles are not recognised. */
  lemma WhipExample()
    ensures NormalizeLeadershipTitle("Senate Majority Whip", "senate").None?
  {
    assert Lower("Senate Majority Whip") == "senate majority whip";
    CapitalisedTitle("Senate Majority Whip", "senate majority whip", "senate");
    WhipUnmatched();
    SenateMajorityWhipPlain("senate majority whip");
    SenatePlain("senate");
  }

  /** The first House division chair. */
  lemma DivisionChairExample(title: string, chamber: string)
    requires title == "First Division Chair" && chamber == "house"
    ensures NormalizeLeadershipTitle(title, chamber) == Some("HOUSE_DIVISION_CHAIR_1")
  {
    var lowered := "first division chair";
    assert Lower(title) == lowered;
    CapitalisedTitle(title, lowered, chamber);
    FirstDivisionChairPlain(lowered);
    HousePlain(chamber);
    DivisionChairChain(lowered, chamber);
  }

  lemma DivisionChairChain(title: string, chamber: string)
    requires title == "first division chair" && chamber == "house"
    ensures LeadershipCode(title, chamber) == Some("HOUSE_DIVISION_CHAIR_1")
  {
    TableInChainD();
    assert LeadershipTable[15] == LeadershipEntry(title, chamber, "HOUSE_DIVISION_CHAIR_1");
  }
}
