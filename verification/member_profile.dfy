/**
  The pure part of tools/member_profile.py: collecting the citations behind
  an amount without repeating a source id, marking which raw stipends the
  selection paid, ordering the stipend breakdown, and the counts reported
  next to it. Reading files, the travel details and the validation issues
  are outside the model.
 */
module MemberProfileTool {
  import opened Wrappers
  import opened Provenance
  import opened Core
  import opened RoleCatalog
  import opened Rules9B
  import opened ToolModels
  import opened Sorting

  // ---------------------------------------------------------------------
  // Provenance extraction

  /**
    What `extract_recursive` walks: a citation, a frozenset of further items
    (kept in the order Python iterates it), or anything else.
   */
  datatype SourceItem = Ref(ref: SourceRef) | Group(members: seq<SourceItem>) | NotASource

  /** `src` is the item itself or is reachable through its nested groups. */
  predicate Occurs(src: SourceRef, item: SourceItem)
    decreases item
  {
    match item
    case Ref(r) => r == src
    case Group(xs) => exists k | 0 <= k < |xs| :: Occurs(src, xs[k])
    case NotASource => false
  }

  predicate Reaches(items: seq<SourceItem>, src: SourceRef) {
    exists k | 0 <= k < |items| :: Occurs(src, items[k])
  }

  /** `extract_recursive` over the items in turn: every citation met, depth first, in order. */
  function Flatten(items: seq<SourceItem>): seq<SourceRef>
    decreases items
  {
    if |items| == 0 then []
    else match items[0]
      case Ref(r) => [r] + Flatten(items[1..])
      case Group(xs) => Flatten(xs) + Flatten(items[1..])
      case NotASource => Flatten(items[1..])
  }

  /** The walk finds exactly the reachable citations. */
  lemma {:induction false} FlattenFindsReachable(items: seq<SourceItem>, src: SourceRef)
    ensures src in Flatten(items) <==> Reaches(items, src)
    decreases items
  {
    if |items| > 0 {
      FlattenFindsReachable(items[1..], src);
      assert forall k | 1 <= k < |items| :: items[1..][k - 1] == items[k];
      if Reaches(items[1..], src) {
        var k :| 0 <= k < |items[1..]| && Occurs(src, items[1..][k]);
        assert Occurs(src, items[k + 1]);
      }
      match items[0]
      case Ref(r) =>
      case Group(xs) =>
        FlattenFindsReachable(xs, src);
      case NotASource =>
    }
  }

  function IdsOf(refs: seq<SourceRef>): set<string> {
    set k | 0 <= k < |refs| :: refs[k].id
  }

  /**
    The `seen` loop: keep a citation only when its id has not been kept (or
    was not in `seen` to begin with), in input order.
   */
  function Dedup(refs: seq<SourceRef>, seen: set<string>): (r: seq<SourceRef>)
    ensures forall i, j | 0 <= i < j < |r| :: r[i].id != r[j].id
    ensures forall i | 0 <= i < |r| :: r[i] in refs && r[i].id !in seen
    ensures |r| <= |refs|
    decreases |refs|
  {
    if |refs| == 0 then []
    else if refs[0].id in seen then Dedup(refs[1..], seen)
    else [refs[0]] + Dedup(refs[1..], seen + {refs[0].id})
  }

  /** Every id not already seen survives, and nothing else. */
  lemma {:induction false} DedupIds(refs: seq<SourceRef>, seen: set<string>)
    ensures IdsOf(Dedup(refs, seen)) == IdsOf(refs) - seen
    decreases |refs|
  {
    if |refs| > 0 {
      var x := refs[0];
      IdsOfCons(x, refs[1..]);
      assert refs == [x] + refs[1..];
      if x.id in seen {
        DedupIds(refs[1..], seen);
      } else {
        DedupIds(refs[1..], seen + {x.id});
        IdsOfCons(x, Dedup(refs[1..], seen + {x.id}));
      }
    }
  }

  lemma IdsOfCons(x: SourceRef, rest: seq<SourceRef>)
    ensures IdsOf([x] + rest) == {x.id} + IdsOf(rest)
  {
    assert forall k | 1 <= k < |rest| + 1 :: ([x] + rest)[k] == rest[k - 1];
    forall id | id in IdsOf(rest) ensures id in IdsOf([x] + rest) {
      var k :| 0 <= k < |rest| && rest[k].id == id;
      assert ([x] + rest)[k + 1].id == id;
    }
    assert x.id == ([x] + rest)[0].id;
  }

  /** A list whose ids are already distinct and unseen comes through unchanged. */
  lemma {:induction false} DedupDistinctNoop(refs: seq<SourceRef>, seen: set<string>)
    requires forall i, j | 0 <= i < j < |refs| :: refs[i].id != refs[j].id
    requires forall i | 0 <= i < |refs| :: refs[i].id !in seen
    ensures Dedup(refs, seen) == refs
    decreases |refs|
  {
    if |refs| > 0 {
      DistinctTail(refs, seen);
      DedupDistinctNoop(refs[1..], seen + {refs[0].id});
      assert refs == [refs[0]] + refs[1..];
    }
  }

  lemma DistinctTail(refs: seq<SourceRef>, seen: set<string>)
    requires |refs| > 0
    requires forall i, j | 0 <= i < j < |refs| :: refs[i].id != refs[j].id
    requires forall i | 0 <= i < |refs| :: refs[i].id !in seen
    ensures forall i, j | 0 <= i < j < |refs[1..]| :: refs[1..][i].id != refs[1..][j].id
    ensures forall i | 0 <= i < |refs[1..]| :: refs[1..][i].id !in seen + {refs[0].id}
  {
    forall i | 0 <= i < |refs[1..]|
      ensures refs[1..][i].id !in seen + {refs[0].id}
    {
      assert refs[1..][i] == refs[i + 1];
    }
    forall i, j | 0 <= i < j < |refs[1..]|
      ensures refs[1..][i].id != refs[1..][j].id
    {
      assert refs[1..][i] == refs[i + 1] && refs[1..][j] == refs[j + 1];
    }
  }

  function ProvenanceEntries(refs: seq<SourceRef>): seq<Dict> {
    seq(|refs|, k requires 0 <= k < |refs| => ProvenanceToDict(FromSourceRef(refs[k])))
  }

  /** `_extract_provenance`: one export entry per distinct source id reachable from the items. */
  function ExtractProvenance(items: seq<SourceItem>): (r: seq<Dict>)
    ensures |r| <= |Flatten(items)|
  {
    ProvenanceEntries(Dedup(Flatten(items), {}))
  }

  lemma EntrySourceId(refs: seq<SourceRef>, k: int)
    requires 0 <= k < |refs|
    ensures Lookup(ProvenanceEntries(refs)[k], "source_id") == Some(JStr(refs[k].id))
  {
    ProvenanceDictKeys(FromSourceRef(refs[k]));
  }

  /** No two entries carry the same source id. */
  lemma ExtractProvenanceUnique(items: seq<SourceItem>)
    ensures var r := ExtractProvenance(items);
      forall i, j | 0 <= i < j < |r| :: Lookup(r[i], "source_id") != Lookup(r[j], "source_id")
  {
    var d := Dedup(Flatten(items), {});
    forall i, j | 0 <= i < j < |d|
      ensures Lookup(ProvenanceEntries(d)[i], "source_id") != Lookup(ProvenanceEntries(d)[j], "source_id")
    {
      EntrySourceId(d, i);
      EntrySourceId(d, j);
    }
  }

  /** An id has an entry exactly when one of the listed citations has it. */
  lemma EntriesHaveId(refs: seq<SourceRef>, id: string)
    ensures var r := ProvenanceEntries(refs);
      (exists k | 0 <= k < |r| :: Lookup(r[k], "source_id") == Some(JStr(id))) <==> id in IdsOf(refs)
  {
    var r := ProvenanceEntries(refs);
    if k :| 0 <= k < |r| && Lookup(r[k], "source_id") == Some(JStr(id)) {
      EntrySourceId(refs, k);
    }
    if id in IdsOf(refs) {
      var k :| 0 <= k < |refs| && refs[k].id == id;
      EntrySourceId(refs, k);
    }
  }

  lemma FlattenIds(items: seq<SourceItem>, id: string)
    ensures id in IdsOf(Flatten(items)) <==> exists src :: Reaches(items, src) && src.id == id
  {
    var flat := Flatten(items);
    if id in IdsOf(flat) {
      var i :| 0 <= i < |flat| && flat[i].id == id;
      FlattenFindsReachable(items, flat[i]);
    }
    if src :| Reaches(items, src) && src.id == id {
      FlattenFindsReachable(items, src);
      var i :| 0 <= i < |flat| && flat[i] == src;
      assert flat[i].id == id;
    }
  }

  /** An id has an entry exactly when some citation reachable from the items has that id. */
  lemma ExtractProvenanceIds(items: seq<SourceItem>, id: string)
    ensures var r := ExtractProvenance(items);
      (exists k | 0 <= k < |r| :: Lookup(r[k], "source_id") == Some(JStr(id)))
        <==> (exists src :: Reaches(items, src) && src.id == id)
  {
    var d := Dedup(Flatten(items), {});
    assert ExtractProvenance(items) == ProvenanceEntries(d);
    DedupIds(Flatten(items), {});
    EntriesHaveId(d, id);
    FlattenIds(items, id);
  }

  /** An amount's citations, walked in the order `order` lists them. */
  function AmountItems(order: seq<SourceRef>): (r: seq<SourceItem>)
    ensures |r| == |order|
  {
    seq(|order|, k requires 0 <= k < |order| => Ref(order[k]))
  }

  /** For a flat set of citations the reachable ones are the listed ones. */
  lemma AmountItemsReach(order: seq<SourceRef>, src: SourceRef)
    ensures Reaches(AmountItems(order), src) <==> src in order
  {
    if src in order {
      var k :| 0 <= k < |order| && order[k] == src;
      assert Occurs(src, AmountItems(order)[k]);
    }
  }

  // ---------------------------------------------------------------------
  // Marking the raw stipends that were paid

  /** What the matching compares: a stipend's role code and dollar value. */
  type StipendKey = (string, int)

  function KeysOf(s: seq<RoleStipend>): (r: seq<StipendKey>)
    ensures |r| == |s|
  {
    seq(|s|, k requires 0 <= k < |s| => (s[k].roleCode, s[k].amount.value))
  }

  /** The first position holding `x`, or -1. */
  function FirstIndexOf(s: seq<StipendKey>, x: StipendKey): (i: int)
    ensures -1 <= i < |s|
    ensures i >= 0 ==> s[i] == x && x !in s[..i]
    ensures i < 0 ==> x !in s
    decreases |s|
  {
    if |s| == 0 then -1
    else if s[0] == x then 0
    else
      var j := FirstIndexOf(s[1..], x);
      if j < 0 then -1
      else
        assert s[..j + 1] == [s[0]] + s[1..][..j];
        j + 1
  }

  /** `list.pop(i)`. */
  function RemoveAt(s: seq<StipendKey>, i: int): (r: seq<StipendKey>)
    requires 0 <= i < |s|
    ensures |r| == |s| - 1
    ensures multiset(r) == multiset(s) - multiset{s[i]}
  {
    assert s == s[..i] + [s[i]] + s[i + 1..];
    s[..i] + s[i + 1..]
  }

  /**
    The inner loop of `generate_member_profile`, over every raw stipend in
    turn: paid when a paid role not yet consumed has its key, and the first
    such role is then consumed.
   */
  function MatchPaid(raw: seq<StipendKey>, remaining: seq<StipendKey>): (flags: seq<bool>)
    ensures |flags| == |raw|
    decreases |raw|
  {
    if |raw| == 0 then []
    else
      var i := FirstIndexOf(remaining, raw[0]);
      if i >= 0 then [true] + MatchPaid(raw[1..], RemoveAt(remaining, i))
      else [false] + MatchPaid(raw[1..], remaining)
  }

  /** What is left of the paid roles after the first raw stipend is matched. */
  function AfterFirst(raw0: StipendKey, remaining: seq<StipendKey>): (r: seq<StipendKey>)
    ensures multiset(r) == multiset(remaining) - multiset{raw0}
  {
    var i := FirstIndexOf(remaining, raw0);
    if i >= 0 then RemoveAt(remaining, i) else remaining
  }

  lemma MatchPaidStep(raw: seq<StipendKey>, remaining: seq<StipendKey>)
    requires |raw| > 0
    ensures MatchPaid(raw, remaining) == [raw[0] in remaining] + MatchPaid(raw[1..], AfterFirst(raw[0], remaining))
  {
  }

  /**
    A raw stipend is marked paid exactly when the paid roles hold more
    copies of its key than the raw stipends before it do: each paid role is
    consumed at most once, by the earliest raw stipends with its key.
   */
  lemma {:induction false} MatchPaidFlag(raw: seq<StipendKey>, remaining: seq<StipendKey>, k: int)
    requires 0 <= k < |raw|
    ensures MatchPaid(raw, remaining)[k] <==> multiset(raw[..k])[raw[k]] < multiset(remaining)[raw[k]]
    decreases |raw|
  {
    MatchPaidStep(raw, remaining);
    var rest := AfterFirst(raw[0], remaining);
    if k == 0 {
      assert multiset(raw[..0]) == multiset{};
    } else {
      var x := raw[k];
      MatchPaidFlag(raw[1..], rest, k - 1);
      assert raw[1..][k - 1] == x;
      assert MatchPaid(raw, remaining)[k] == MatchPaid(raw[1..], rest)[k - 1];
      CountPrefix(raw, k, x);
      CountAfterFirst(raw[0], remaining, x);
    }
  }

  lemma CountPrefix(raw: seq<StipendKey>, k: int, x: StipendKey)
    requires 0 < k <= |raw|
    ensures multiset(raw[..k])[x] == (if x == raw[0] then 1 else 0) + multiset(raw[1..][..k - 1])[x]
  {
    assert raw[..k] == [raw[0]] + raw[1..][..k - 1];
  }

  lemma CountAfterFirst(raw0: StipendKey, remaining: seq<StipendKey>, x: StipendKey)
    ensures multiset(AfterFirst(raw0, remaining))[x]
      == if x == raw0 && multiset(remaining)[x] > 0 then multiset(remaining)[x] - 1 else multiset(remaining)[x]
  {
  }

  /** The raw keys marked paid, in order. */
  function Marked(raw: seq<StipendKey>, flags: seq<bool>): (r: seq<StipendKey>)
    requires |flags| == |raw|
    ensures |r| <= |raw|
    decreases |raw|
  {
    if |raw| == 0 then []
    else (if flags[0] then [raw[0]] else []) + Marked(raw[1..], flags[1..])
  }

  lemma MultisetAddIntersect(a: multiset<StipendKey>, b: multiset<StipendKey>, x: StipendKey)
    ensures x in b ==> (multiset{x} + a) * b == multiset{x} + a * (b - multiset{x})
    ensures x !in b ==> (multiset{x} + a) * b == a * b
  {
    if x in b {
      assert forall y :: ((multiset{x} + a) * b)[y] == (multiset{x} + a * (b - multiset{x}))[y];
    } else {
      assert forall y :: ((multiset{x} + a) * b)[y] == (a * b)[y];
    }
  }

  /** The marked stipends are, as a multiset, what the raw stipends and the paid roles have in common. */
  lemma {:induction false} MatchPaidMarks(raw: seq<StipendKey>, remaining: seq<StipendKey>)
    ensures multiset(Marked(raw, MatchPaid(raw, remaining))) == multiset(raw) * multiset(remaining)
    decreases |raw|
  {
    if |raw| > 0 {
      var flags := MatchPaid(raw, remaining);
      var rest := AfterFirst(raw[0], remaining);
      MatchPaidStep(raw, remaining);
      MatchPaidMarks(raw[1..], rest);
      assert flags[1..] == MatchPaid(raw[1..], rest);
      assert raw == [raw[0]] + raw[1..];
      MultisetAddIntersect(multiset(raw[1..]), multiset(remaining), raw[0]);
    }
  }

  lemma IntersectSplits(a: multiset<StipendKey>, b: multiset<StipendKey>)
    ensures b == a * b + (b - a)
  {
    assert forall y :: b[y] == (a * b + (b - a))[y];
  }

  /** Never more stipends are marked paid than there are paid roles, nor than raw stipends. */
  lemma MatchPaidCountBounded(raw: seq<StipendKey>, remaining: seq<StipendKey>)
    ensures |Marked(raw, MatchPaid(raw, remaining))| <= |remaining|
    ensures |Marked(raw, MatchPaid(raw, remaining))| <= |raw|
  {
    MatchPaidMarks(raw, remaining);
    IntersectSplits(multiset(raw), multiset(remaining));
    assert |multiset(remaining)| == |multiset(raw) * multiset(remaining)| + |multiset(remaining) - multiset(raw)|;
  }

  /** When the paid roles are a sub-multiset of the raw stipends, every one of them is matched. */
  lemma MatchPaidCountExact(raw: seq<StipendKey>, remaining: seq<StipendKey>)
    requires multiset(remaining) <= multiset(raw)
    ensures |Marked(raw, MatchPaid(raw, remaining))| == |remaining|
  {
    MatchPaidMarks(raw, remaining);
    assert multiset(raw) * multiset(remaining) == multiset(remaining) by {
      assert forall y :: (multiset(raw) * multiset(remaining))[y] == multiset(remaining)[y];
    }
  }

  // ---------------------------------------------------------------------
  // The stipend breakdown

  /**
    `base_amt`: the value itself under a factor of 1.0, otherwise the value
    divided by the factor and rounded half to even; a factor of 0 raises
    `ZeroDivisionError`.
   */
  function BaseAmount(value: int, factor: real): (r: Result<int>)
    ensures factor == 1.0 ==> r == Ok(value)
    ensures r.Err? <==> factor == 0.0
    ensures r.Err? ==> r.error == ZeroDivisionError
  {
    if factor == 1.0 then Ok(value)
    else if factor == 0.0 then Err(ZeroDivisionError)
    else Ok(RoundHalfEven(value as real / factor))
  }

  lemma RoundNearInteger(x: real, b: int)
    requires -0.5 < x - b as real < 0.5
    ensures RoundHalfEven(x) == b
  {
  }

  /**
    Undoing the session scaling: a base scaled by a factor of at least 1.0
    and rounded, as the 9B rule prices a stipend, comes back as that base.
   */
  lemma BaseAmountUndoesScale(base: int, factor: real)
    requires factor >= 1.0
    ensures BaseAmount(RoundHalfEven(base as real * factor), factor) == Ok(base)
  {
    var v := RoundHalfEven(base as real * factor);
    if factor == 1.0 {
      assert base as real * factor == base as real;
      RoundNearInteger(base as real, base);
    } else {
      var e := v as real - base as real * factor;
      var q := e / factor;
      assert q * factor == e;
      assert v as real / factor - base as real == q;
      RoundNearInteger(v as real / factor, base);
    }
  }

  /** The citations of an amount, walked in the order `iterate` gives its set. */
  function AmountProvenance(a: Amount, iterate: set<SourceRef> -> seq<SourceRef>): seq<Dict> {
    ExtractProvenance(AmountItems(iterate(a.sources)))
  }

  /**
    When `iterate` lists the amount's citations, each citation's id has an
    entry, and every entry's id is a citation's.
   */
  lemma AmountProvenanceIds(a: Amount, iterate: set<SourceRef> -> seq<SourceRef>, id: string)
    requires forall s :: s in iterate(a.sources) <==> s in a.sources
    ensures var r := AmountProvenance(a, iterate);
      (exists k | 0 <= k < |r| :: Lookup(r[k], "source_id") == Some(JStr(id)))
        <==> (exists s :: s in a.sources && s.id == id)
  {
    var items := AmountItems(iterate(a.sources));
    assert AmountProvenance(a, iterate) == ExtractProvenance(items);
    ExtractProvenanceIds(items, id);
    var cited := exists s :: s in a.sources && s.id == id;
    var reached := exists src :: Reaches(items, src) && src.id == id;
    if s :| s in a.sources && s.id == id {
      AmountItemsReach(iterate(a.sources), s);
      assert reached;
    }
    if src :| Reaches(items, src) && src.id == id {
      AmountItemsReach(iterate(a.sources), src);
      assert src in a.sources;
      assert cited;
    }
    assert cited <==> reached;
  }

  /** A role-definition lookup; the profile uses `RoleCatalog.GetRoleDefinition`. */
  type DefLookup = string -> Result<RoleDefinition>

  /**
    One `RoleStipendInfo`: the role is looked up first, so an unknown code
    fails before the division. The stipend's reason text is not modelled
    and is left empty.
   */
  function BreakdownEntry(rs: RoleStipend, paid: bool, factor: real, lookup: DefLookup,
                          iterate: set<SourceRef> -> seq<SourceRef>): (r: Result<RoleStipendInfo>)
    ensures lookup(rs.roleCode).Err? ==> r == Err(lookup(rs.roleCode).error)
    ensures r.Err? <==> lookup(rs.roleCode).Err? || factor == 0.0
    ensures r.Ok? ==> (r.value.roleCode == rs.roleCode && r.value.adjustedAmount == rs.amount.value
                       && r.value.paid == paid && r.value.adjustmentFactor == factor)
  {
    var def :- lookup(rs.roleCode);
    var base :- BaseAmount(rs.amount.value, factor);
    Ok(RoleStipendInfo(rs.roleCode, def.title, def.stipendTierId, base, rs.amount.value, factor, paid, "",
                       AmountProvenance(rs.amount, iterate)))
  }

  /** The entries in raw order; the first failure is raised. */
  function BreakdownEntries(raw: seq<RoleStipend>, flags: seq<bool>, factor: real, lookup: DefLookup,
                            iterate: set<SourceRef> -> seq<SourceRef>): (r: Result<seq<RoleStipendInfo>>)
    requires |flags| == |raw|
    ensures r.Ok? ==> |r.value| == |raw|
    decreases |raw|
  {
    if |raw| == 0 then Ok([])
    else
      var e :- BreakdownEntry(raw[0], flags[0], factor, lookup, iterate);
      var rest :- BreakdownEntries(raw[1..], flags[1..], factor, lookup, iterate);
      Ok([e] + rest)
  }

  lemma BreakdownEntriesCons(raw: seq<RoleStipend>, flags: seq<bool>, factor: real, lookup: DefLookup,
                             iterate: set<SourceRef> -> seq<SourceRef>)
    requires |flags| == |raw| > 0
    requires BreakdownEntries(raw, flags, factor, lookup, iterate).Ok?
    ensures BreakdownEntry(raw[0], flags[0], factor, lookup, iterate).Ok?
    ensures BreakdownEntries(raw[1..], flags[1..], factor, lookup, iterate).Ok?
    ensures BreakdownEntries(raw, flags, factor, lookup, iterate).value
      == [BreakdownEntry(raw[0], flags[0], factor, lookup, iterate).value]
         + BreakdownEntries(raw[1..], flags[1..], factor, lookup, iterate).value
  {
  }

  /** Entry `k` is raw stipend `k`'s, at its adjusted amount, with its paid mark. */
  lemma {:induction false} BreakdownEntriesFields(raw: seq<RoleStipend>, flags: seq<bool>, factor: real, lookup: DefLookup,
                                                   iterate: set<SourceRef> -> seq<SourceRef>)
    requires |flags| == |raw|
    requires BreakdownEntries(raw, flags, factor, lookup, iterate).Ok?
    ensures var es := BreakdownEntries(raw, flags, factor, lookup, iterate).value;
      forall k | 0 <= k < |raw| ::
        es[k].roleCode == raw[k].roleCode && es[k].adjustedAmount == raw[k].amount.value && es[k].paid == flags[k]
    decreases |raw|
  {
    if |raw| > 0 {
      var es := BreakdownEntries(raw, flags, factor, lookup, iterate).value;
      BreakdownEntriesCons(raw, flags, factor, lookup, iterate);
      BreakdownEntriesFields(raw[1..], flags[1..], factor, lookup, iterate);
      var rest := BreakdownEntries(raw[1..], flags[1..], factor, lookup, iterate).value;
      forall k | 1 <= k < |raw|
        ensures es[k].roleCode == raw[k].roleCode && es[k].adjustedAmount == raw[k].amount.value && es[k].paid == flags[k]
      {
        assert es[k] == rest[k - 1] && raw[1..][k - 1] == raw[k] && flags[1..][k - 1] == flags[k];
      }
    }
  }

  /** The breakdown fails exactly when some role is unknown, or there is a stipend and the factor is 0. */
  lemma {:induction false} BreakdownEntriesFail(raw: seq<RoleStipend>, flags: seq<bool>, factor: real, lookup: DefLookup,
                                                 iterate: set<SourceRef> -> seq<SourceRef>)
    requires |flags| == |raw|
    ensures BreakdownEntries(raw, flags, factor, lookup, iterate).Err?
      <==> (|raw| > 0 && factor == 0.0) || exists k | 0 <= k < |raw| :: lookup(raw[k].roleCode).Err?
    decreases |raw|
  {
    if |raw| > 0 {
      BreakdownEntriesFail(raw[1..], flags[1..], factor, lookup, iterate);
      assert forall k | 1 <= k < |raw| :: raw[1..][k - 1] == raw[k];
      if k :| 0 <= k < |raw| && lookup(raw[k].roleCode).Err? {
        if k > 0 { assert lookup(raw[1..][k - 1].roleCode).Err?; }
      }
    }
  }

  /** `(not paid, -adjusted_amount)`: `False` sorts before `True`. */
  function BreakdownKey(e: RoleStipendInfo): (int, int) {
    (if e.paid then 0 else 1, -e.adjustedAmount)
  }

  /** The breakdown list of `generate_member_profile`, before `to_dict`. */
  function StipendsBreakdown(raw: seq<RoleStipend>, paidRoles: seq<RoleStipend>, factor: real,
                             iterate: set<SourceRef> -> seq<SourceRef>): (r: Result<seq<RoleStipendInfo>>)
    ensures r.Ok? ==> |r.value| == |raw|
  {
    var entries :- BreakdownEntries(raw, MatchPaid(KeysOf(raw), KeysOf(paidRoles)), factor, GetRoleDefinition, iterate);
    Ok(SortBy(entries, BreakdownKey))
  }

  /** The breakdown fails exactly when a role code is not in the catalog, or there is a stipend and the factor is 0. */
  lemma StipendsBreakdownFails(raw: seq<RoleStipend>, paidRoles: seq<RoleStipend>, factor: real,
                               iterate: set<SourceRef> -> seq<SourceRef>)
    ensures StipendsBreakdown(raw, paidRoles, factor, iterate).Err?
      <==> (|raw| > 0 && factor == 0.0) || exists k | 0 <= k < |raw| :: GetRoleDefinition(raw[k].roleCode).Err?
  {
    BreakdownEntriesFail(raw, MatchPaid(KeysOf(raw), KeysOf(paidRoles)), factor, GetRoleDefinition, iterate);
  }

  /** Paid entries come first; within each group the adjusted amounts do not increase. */
  lemma BreakdownOrdered(raw: seq<RoleStipend>, paidRoles: seq<RoleStipend>, factor: real,
                         iterate: set<SourceRef> -> seq<SourceRef>)
    requires StipendsBreakdown(raw, paidRoles, factor, iterate).Ok?
    ensures var b := StipendsBreakdown(raw, paidRoles, factor, iterate).value;
      forall i, j | 0 <= i < j < |b| ::
        (b[j].paid ==> b[i].paid)
        && (b[i].paid == b[j].paid ==> b[i].adjustedAmount >= b[j].adjustedAmount)
  {
    var entries := BreakdownEntries(raw, MatchPaid(KeysOf(raw), KeysOf(paidRoles)), factor, GetRoleDefinition, iterate).value;
    SortBySorted(entries, BreakdownKey);
  }

  /** The sort is stable: entries of equal paid mark and amount stay in raw order. */
  lemma BreakdownStable(raw: seq<RoleStipend>, paidRoles: seq<RoleStipend>, factor: real,
                        iterate: set<SourceRef> -> seq<SourceRef>, key: (int, int))
    requires StipendsBreakdown(raw, paidRoles, factor, iterate).Ok?
    ensures var flags := MatchPaid(KeysOf(raw), KeysOf(paidRoles));
      var entries := BreakdownEntries(raw, flags, factor, GetRoleDefinition, iterate).value;
      WithKey(StipendsBreakdown(raw, paidRoles, factor, iterate).value, BreakdownKey, key)
        == WithKey(entries, BreakdownKey, key)
  {
    var entries := BreakdownEntries(raw, MatchPaid(KeysOf(raw), KeysOf(paidRoles)), factor, GetRoleDefinition, iterate).value;
    SortByStable(entries, BreakdownKey, key);
  }

  /** Number of entries marked paid. */
  function CountPaid(es: seq<RoleStipendInfo>): nat {
    if |es| == 0 then 0 else (if es[0].paid then 1 else 0) + CountPaid(es[1..])
  }

  lemma {:induction false} CountPaidInsert(x: RoleStipendInfo, s: seq<RoleStipendInfo>, key: RoleStipendInfo -> (int, int))
    ensures CountPaid(Insert(x, s, key)) == CountPaid(s) + (if x.paid then 1 else 0)
    decreases |s|
  {
    if |s| > 0 && !KeyLe(key(x), key(s[0])) {
      CountPaidInsert(x, s[1..], key);
      assert ([s[0]] + Insert(x, s[1..], key))[1..] == Insert(x, s[1..], key);
    } else if |s| > 0 {
      assert ([x] + s)[1..] == s;
    }
  }

  lemma {:induction false} CountPaidSort(s: seq<RoleStipendInfo>, key: RoleStipendInfo -> (int, int))
    ensures CountPaid(SortBy(s, key)) == CountPaid(s)
    decreases |s|
  {
    if |s| > 0 {
      CountPaidSort(s[1..], key);
      CountPaidInsert(s[0], SortBy(s[1..], key), key);
    }
  }

  lemma {:induction false} CountPaidMarked(raw: seq<RoleStipend>, flags: seq<bool>, es: seq<RoleStipendInfo>)
    requires |flags| == |raw| == |es|
    requires forall k | 0 <= k < |es| :: es[k].paid == flags[k]
    ensures CountPaid(es) == |Marked(KeysOf(raw), flags)|
    decreases |raw|
  {
    if |raw| > 0 {
      assert KeysOf(raw)[1..] == KeysOf(raw[1..]);
      assert forall k | 0 <= k < |es| - 1 :: es[1..][k] == es[k + 1] && flags[1..][k] == flags[k + 1];
      CountPaidMarked(raw[1..], flags[1..], es[1..]);
    }
  }

  /**
    The breakdown marks as paid no more entries than there are paid roles,
    and exactly that many when every paid role is one of the raw stipends.
   */
  lemma BreakdownPaidCount(raw: seq<RoleStipend>, paidRoles: seq<RoleStipend>, factor: real,
                           iterate: set<SourceRef> -> seq<SourceRef>)
    requires StipendsBreakdown(raw, paidRoles, factor, iterate).Ok?
    ensures var b := StipendsBreakdown(raw, paidRoles, factor, iterate).value;
      && CountPaid(b) <= |paidRoles|
      && (multiset(KeysOf(paidRoles)) <= multiset(KeysOf(raw)) ==> CountPaid(b) == |paidRoles|)
  {
    var flags := MatchPaid(KeysOf(raw), KeysOf(paidRoles));
    var entries := BreakdownEntries(raw, flags, factor, GetRoleDefinition, iterate).value;
    BreakdownEntriesFields(raw, flags, factor, GetRoleDefinition, iterate);
    CountPaidSort(entries, BreakdownKey);
    CountPaidMarked(raw, flags, entries);
    MatchPaidCountBounded(KeysOf(raw), KeysOf(paidRoles));
    if multiset(KeysOf(paidRoles)) <= multiset(KeysOf(raw)) {
      MatchPaidCountExact(KeysOf(raw), KeysOf(paidRoles));
    }
  }

  // ---------------------------------------------------------------------
  // Component details

  /** `original_base`: the base salary the details report, before adjustment. */
  const ORIGINAL_BASE := 62_548

  /**
    The base-salary details: the original base, and the adjustment factor
    read from the session's base-salary file, 1.0 when the file has none.
   */
  function BaseSalaryDetails(fileFactor: Option<real>): (r: Dict)
    ensures Keys(r) == ["base_amount", "adjustment_factor"]
    ensures r[0].1 == JInt(62_548)
    ensures fileFactor.None? ==> r[1].1 == JReal(1.0)
    ensures fileFactor.Some? ==> r[1].1 == JReal(fileFactor.value)
  {
    [("base_amount", JInt(ORIGINAL_BASE)),
     ("adjustment_factor", JReal(if fileFactor.Some? then fileFactor.value else 1.0))]
  }

  /** The 9B details: the sorted breakdown and the three counts. */
  function StipendDetails(breakdown: seq<RoleStipendInfo>, raw: seq<RoleStipend>, sel: PaidRoleSelection): (r: Dict)
    ensures Keys(r) == ["breakdown", "total_roles", "paid_roles", "discarded_roles"]
    ensures r[1].1.JInt? && r[2].1.JInt? && r[3].1.JInt?
    ensures r[1].1.i == |raw| && r[2].1.i == |sel.paidRoles|
    ensures r[1].1.i == r[2].1.i + r[3].1.i
  {
    var discarded := |raw| - |sel.paidRoles|;
    [("breakdown", DictList(seq(|breakdown|, k requires 0 <= k < |breakdown| => RoleStipendToDict(breakdown[k])))),
     ("total_roles", JInt(|raw|)),
     ("paid_roles", JInt(|sel.paidRoles|)),
     ("discarded_roles", JInt(discarded))]
  }

  /**
    When the selection pays only raw stipends, the discarded count is the
    number of breakdown entries left unpaid.
   */
  lemma DiscardedAreUnpaid(raw: seq<RoleStipend>, sel: PaidRoleSelection, factor: real,
                           iterate: set<SourceRef> -> seq<SourceRef>)
    requires StipendsBreakdown(raw, sel.paidRoles, factor, iterate).Ok?
    requires multiset(KeysOf(sel.paidRoles)) <= multiset(KeysOf(raw))
    ensures var b := StipendsBreakdown(raw, sel.paidRoles, factor, iterate).value;
      StipendDetails(b, raw, sel)[3].1 == JInt(|b| - CountPaid(b))
  {
    BreakdownPaidCount(raw, sel.paidRoles, factor, iterate);
  }
}
