/**
  Catalog validation (validators.py): an error for every role whose tier is
  not a known tier, then a warning for every title shared by several role
  codes.

  The set of known tiers (`STIPEND_TIERS`) is imported by the source from a
  module that is not part of this model; it is a parameter here. The
  catalog is given as the dictionary's values in iteration order, each
  filed under its own code.
 */
module Validators {
  import opened Core
  import opened RoleCatalog
  import opened Issues
  import opened Strings

  const UNKNOWN_STIPEND_TIER := "UNKNOWN_STIPEND_TIER"
  const DUPLICATE_ROLE_TITLE := "DUPLICATE_ROLE_TITLE"

  /** A role that names a tier the known tiers do not contain. */
  predicate HasUnknownTier(d: RoleDefinition, tiers: set<string>) {
    d.stipendTierId.Some? && d.stipendTierId.value !in tiers
  }

  /** The unknown-tier message text, as the f-string spells it. */
  function TierErrorText(code: string, tier: string): string {
    "Role " + code + " references unknown stipend_tier_id " + tier
  }

  /**
    The error reported for a role with an unknown tier. The message is the
    text itself, a `str` as `AuditIssue.message` declares; the source passes
    a one-element tuple instead (see TierErrorMessageAsWritten).
   */
  function TierError(d: RoleDefinition): (e: AuditIssue)
    requires d.stipendTierId.Some?
    ensures e.level == ERROR && e.code == UNKNOWN_STIPEND_TIER
    ensures e.message == TierErrorText(RoleCodeValue(d.code), d.stipendTierId.value)
    ensures |e.message| >= 5 + |RoleCodeValue(d.code)| && e.message[..5] == "Role "
      && e.message[5..5 + |RoleCodeValue(d.code)|] == RoleCodeValue(d.code)
    ensures e.message[|e.message| - |d.stipendTierId.value|..] == d.stipendTierId.value
    ensures e.context == [("role_code", Text(RoleCodeValue(d.code))), ("stipend_tier_id", Text(d.stipendTierId.value))]
  {
    var code := RoleCodeValue(d.code);
    var tier := d.stipendTierId.value;
    Error(UNKNOWN_STIPEND_TIER, TierErrorText(code, tier),
      [("role_code", Text(code)), ("stipend_tier_id", Text(tier))])
  }

  /** A `message` argument as Python receives it: a string, or a tuple of strings. */
  datatype MessageArg = StrArg(text: string) | TupleArg(items: seq<string>)

  /** `str()` of a message argument, as a report prints it. */
  function MessageStr(m: MessageArg): string {
    match m
    case StrArg(t) => t
    case TupleArg(items) =>
      if |items| == 1 then "(" + StrRepr(items[0]) + ",)" else "(" + JoinStrReprs(items) + ")"
  }

  function JoinStrReprs(items: seq<string>): string {
    if |items| == 0 then ""
    else if |items| == 1 then StrRepr(items[0])
    else StrRepr(items[0]) + ", " + JoinStrReprs(items[1..])
  }

  /**
    The unknown-tier message as the source writes it: the parenthesised
    f-string is followed by a comma, which makes it a one-element tuple.
   */
  function TierErrorMessageAsWritten(d: RoleDefinition): (m: MessageArg)
    requires d.stipendTierId.Some?
    ensures m.TupleArg? && |m.items| == 1
    ensures m.items[0] == TierError(d).message
  {
    TupleArg([TierErrorText(RoleCodeValue(d.code), d.stipendTierId.value)])
  }

  /**
    For every role with an unknown tier, the message as written is not the
    string the intended error carries: printed, it is that string quoted,
    inside parentheses and followed by a comma.
   */
  lemma TierErrorMessagePrintsAsTuple(d: RoleDefinition)
    requires d.stipendTierId.Some?
    ensures TierErrorMessageAsWritten(d) != StrArg(TierError(d).message)
    ensures MessageStr(TierErrorMessageAsWritten(d)) == "('" + TierError(d).message + "',)"
    ensures MessageStr(TierErrorMessageAsWritten(d)) != TierError(d).message
  {
    var text := TierError(d).message;
    var m := TierErrorMessageAsWritten(d);
    assert m.items == [text];
    var printed := MessageStr(m);
    assert printed == "(" + StrRepr(text) + ",)";
    assert printed == "('" + text + "',)";
    assert |printed| == |text| + 5;
  }

  /** The roles with an unknown tier, in catalog order. */
  function UnknownTierRoles(items: seq<RoleDefinition>, tiers: set<string>): (r: seq<RoleDefinition>)
    ensures |r| <= |items|
    ensures forall i :: 0 <= i < |r| ==> HasUnknownTier(r[i], tiers)
    ensures forall d :: d in r <==> d in items && HasUnknownTier(d, tiers)
  {
    if |items| == 0 then []
    else
      var rest := UnknownTierRoles(items[1..], tiers);
      assert forall d :: d in items <==> d == items[0] || d in items[1..];
      if HasUnknownTier(items[0], tiers) then [items[0]] + rest else rest
  }

  /** The first loop: one error per role with an unknown tier, in catalog order. */
  function TierErrors(items: seq<RoleDefinition>, tiers: set<string>): (r: seq<AuditIssue>)
    ensures |r| == |UnknownTierRoles(items, tiers)|
    ensures forall i :: 0 <= i < |r| ==> r[i] == TierError(UnknownTierRoles(items, tiers)[i])
  {
    var bad := UnknownTierRoles(items, tiers);
    seq(|bad|, i requires 0 <= i < |bad| => TierError(bad[i]))
  }

  /** `repr` of a `RoleCode` member. */
  function CodeRepr(c: RoleCode): string {
    "<RoleCode." + RoleCodeValue(c) + ": '" + RoleCodeValue(c) + "'>"
  }

  function JoinReprs(codes: seq<RoleCode>): string {
    if |codes| == 0 then ""
    else if |codes| == 1 then CodeRepr(codes[0])
    else CodeRepr(codes[0]) + ", " + JoinReprs(codes[1..])
  }

  predicate Distinct(xs: seq<string>) {
    forall i, j :: 0 <= i < j < |xs| ==> xs[i] != xs[j]
  }

  /** The titles in the order `setdefault` first meets them, each once. */
  function TitlesInOrder(items: seq<RoleDefinition>): (r: seq<string>)
    ensures Distinct(r)
    ensures forall t :: t in r <==> exists d :: d in items && d.title == t
    decreases |items|
  {
    if |items| == 0 then []
    else
      var init := items[..|items| - 1];
      var last := items[|items| - 1];
      var t := TitlesInOrder(init);
      assert forall d :: d in items <==> d in init || d == last;
      if last.title in t then t else t + [last.title]
  }

  /** The codes filed under a title, in catalog order: `title_to_codes[title]`. */
  function CodesWithTitle(items: seq<RoleDefinition>, title: string): (r: seq<RoleCode>)
    ensures |r| <= |items|
    ensures forall c :: c in r <==> exists d :: d in items && d.title == title && d.code == c
  {
    if |items| == 0 then []
    else
      var rest := CodesWithTitle(items[1..], title);
      assert forall d :: d in items <==> d == items[0] || d in items[1..];
      if items[0].title == title then [items[0].code] + rest else rest
  }

  /** The titles, among the given ones and in their order, filed under two codes or more. */
  function SharedTitles(titles: seq<string>, items: seq<RoleDefinition>): (r: seq<string>)
    ensures forall t :: t in r <==> t in titles && |CodesWithTitle(items, t)| > 1
    ensures Distinct(titles) ==> Distinct(r)
  {
    if |titles| == 0 then []
    else
      var rest := SharedTitles(titles[1..], items);
      assert forall t :: t in titles <==> t == titles[0] || t in titles[1..];
      assert Distinct(titles) ==> titles[0] !in titles[1..] && Distinct(titles[1..]) by {
        if Distinct(titles) {
          forall i, j | 0 <= i < j < |titles[1..]| ensures titles[1..][i] != titles[1..][j] {
            assert titles[1..][i] == titles[i + 1] && titles[1..][j] == titles[j + 1];
          }
        }
      }
      if |CodesWithTitle(items, titles[0])| > 1 then [titles[0]] + rest else rest
  }

  /** The warning reported for a title used by several codes. */
  function DuplicateTitleWarning(title: string, codes: seq<RoleCode>): (w: AuditIssue)
    ensures w.level == WARNING && w.code == DUPLICATE_ROLE_TITLE
    ensures |w.context| == 2 && w.context[0] == ("title", Text(title))
    ensures w.context[1].1 == TextList(seq(|codes|, i requires 0 <= i < |codes| => RoleCodeValue(codes[i])))
  {
    Warning(DUPLICATE_ROLE_TITLE,
      "Title " + StrRepr(title) + " used for multiple role codes [" + JoinReprs(codes) + "]",
      [("title", Text(title)),
       ("role_codes", TextList(seq(|codes|, i requires 0 <= i < |codes| => RoleCodeValue(codes[i]))))])
  }

  /** The second loop: one warning per shared title, in first-use order. */
  function TitleWarnings(items: seq<RoleDefinition>): (r: seq<AuditIssue>)
    ensures var shared := SharedTitles(TitlesInOrder(items), items);
      |r| == |shared| &&
      forall i :: 0 <= i < |r| ==> r[i] == DuplicateTitleWarning(shared[i], CodesWithTitle(items, shared[i]))
  {
    var shared := SharedTitles(TitlesInOrder(items), items);
    seq(|shared|, i requires 0 <= i < |shared| => DuplicateTitleWarning(shared[i], CodesWithTitle(items, shared[i])))
  }

  /** `validate_role_catalog`: the tier errors, then the duplicate-title warnings. */
  function ValidateRoleCatalog(items: seq<RoleDefinition>, tiers: set<string>): (r: seq<AuditIssue>)
    ensures |r| == |UnknownTierRoles(items, tiers)| + |TitleWarnings(items)|
    ensures forall i :: 0 <= i < |UnknownTierRoles(items, tiers)| ==>
      r[i].level == ERROR && r[i].code == UNKNOWN_STIPEND_TIER
    ensures forall i :: |UnknownTierRoles(items, tiers)| <= i < |r| ==>
      r[i].level == WARNING && r[i].code == DUPLICATE_ROLE_TITLE
  {
    TierErrors(items, tiers) + TitleWarnings(items)
  }

  /**
    A role gets a tier error exactly when its tier is named and unknown; a
    role without a tier never gets one.
   */
  lemma TierErrorExact(items: seq<RoleDefinition>, tiers: set<string>, d: RoleDefinition)
    requires d in items
    ensures d.stipendTierId.None? ==> d !in UnknownTierRoles(items, tiers)
    ensures HasUnknownTier(d, tiers) <==> d in UnknownTierRoles(items, tiers)
    ensures HasUnknownTier(d, tiers) ==> TierError(d) in ValidateRoleCatalog(items, tiers)
  {
    if HasUnknownTier(d, tiers) {
      var bad := UnknownTierRoles(items, tiers);
      var i :| 0 <= i < |bad| && bad[i] == d;
      assert ValidateRoleCatalog(items, tiers)[i] == TierError(d);
    }
  }

  /**
    Exactly one warning per title used by two or more codes, listing all of
    them in catalog order; a title with a single code gets none.
   */
  lemma TitleWarningsExact(items: seq<RoleDefinition>, title: string)
    ensures var shared := SharedTitles(TitlesInOrder(items), items);
      (title in shared <==> |CodesWithTitle(items, title)| > 1) &&
      Distinct(shared)
  {
    if |CodesWithTitle(items, title)| > 1 {
      var c := CodesWithTitle(items, title)[0];
      assert c in CodesWithTitle(items, title);
    }
  }

  /** A catalog whose tiers are all known and whose titles are unique draws no issue. */
  lemma CleanCatalogHasNoIssues(items: seq<RoleDefinition>, tiers: set<string>)
    requires forall i :: 0 <= i < |items| ==> !HasUnknownTier(items[i], tiers)
    requires forall i, j :: 0 <= i < j < |items| ==> items[i].title != items[j].title
    ensures ValidateRoleCatalog(items, tiers) == []
  {
    NoUnknownTierRoles(items, tiers);
    var titles := TitlesInOrder(items);
    forall t | t in titles ensures |CodesWithTitle(items, t)| <= 1 {
      UniqueTitleHasOneCode(items, t);
    }
    NoSharedTitles(titles, items);
  }

  lemma {:induction false} NoUnknownTierRoles(items: seq<RoleDefinition>, tiers: set<string>)
    requires forall i :: 0 <= i < |items| ==> !HasUnknownTier(items[i], tiers)
    ensures UnknownTierRoles(items, tiers) == []
    decreases |items|
  {
    if |items| > 0 {
      assert forall i :: 0 <= i < |items| - 1 ==> items[1..][i] == items[i + 1];
      NoUnknownTierRoles(items[1..], tiers);
    }
  }

  lemma {:induction false} NoSharedTitles(titles: seq<string>, items: seq<RoleDefinition>)
    requires forall t :: t in titles ==> |CodesWithTitle(items, t)| <= 1
    ensures SharedTitles(titles, items) == []
    decreases |titles|
  {
    if |titles| > 0 {
      assert forall t :: t in titles[1..] ==> t in titles;
      NoSharedTitles(titles[1..], items);
    }
  }

  lemma {:induction false} NoCodesWithoutTitle(items: seq<RoleDefinition>, title: string)
    requires forall k :: 0 <= k < |items| ==> items[k].title != title
    ensures CodesWithTitle(items, title) == []
    decreases |items|
  {
    if |items| > 0 {
      assert forall k :: 0 <= k < |items| - 1 ==> items[1..][k] == items[k + 1];
      NoCodesWithoutTitle(items[1..], title);
    }
  }

  lemma {:induction false} UniqueTitleHasOneCode(items: seq<RoleDefinition>, title: string)
    requires forall i, j :: 0 <= i < j < |items| ==> items[i].title != items[j].title
    ensures |CodesWithTitle(items, title)| <= 1
    decreases |items|
  {
    if |items| > 0 {
      assert forall k :: 0 <= k < |items| - 1 ==> items[1..][k] == items[k + 1];
      UniqueTitleHasOneCode(items[1..], title);
      if items[0].title == title {
        assert forall k :: 0 <= k < |items[1..]| ==> items[1..][k].title != title;
        NoCodesWithoutTitle(items[1..], title);
      }
    }
  }

  /** The shipped catalog draws no issue when every tier of the enumeration is known. */
  lemma ShippedCatalogIsClean(tiers: set<string>)
    requires forall t :: TierValue(t) in tiers
    ensures ValidateRoleCatalog(RoleDefs, tiers) == []
  {
    CatalogTitlesDistinct();
    CatalogTiersListed();
    CleanCatalogHasNoIssues(RoleDefs, tiers);
  }
}
