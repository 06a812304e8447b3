/**
  The provenance amount algebra of audit/provenance.py: an integer dollar
  amount paired with the set of citations that justify it.
 */
module Provenance {
  import opened Wrappers

  datatype SourceKind =
    | STATUTE
    | OFFICIAL_WEBSITE
    | ECONOMIC_SERIES
    | DATA_FILE
    | CALCULATION
    | MANUAL_OVERRIDE

  /** `SourceKind.name`. */
  function KindName(k: SourceKind): string {
    match k
    case STATUTE => "STATUTE"
    case OFFICIAL_WEBSITE => "OFFICIAL_WEBSITE"
    case ECONOMIC_SERIES => "ECONOMIC_SERIES"
    case DATA_FILE => "DATA_FILE"
    case CALCULATION => "CALCULATION"
    case MANUAL_OVERRIDE => "MANUAL_OVERRIDE"
  }

  /**
    A citation. The source's `label` field is `labelText` (`label` is a Dafny
    keyword). `details` is a frozenset of strings in the source; it is kept
    here in the order that set is iterated.
   */
  datatype SourceRef = SourceRef(
    id: string,
    labelText: string,
    kind: SourceKind,
    url: Option<string>,
    details: seq<string>)

  /** `AmountWithProvenance`. */
  datatype Amount = Amount(value: int, sources: set<SourceRef>)

  /** `ap_zero()`. */
  function Zero(): Amount {
    Amount(0, {})
  }

  /** `ap_from(value, *sources)`. */
  function From(value: int, sources: seq<SourceRef>): Amount {
    Amount(value, set s | s in sources)
  }

  /** `ap_add(a, b)`. */
  function Add(a: Amount, b: Amount): Amount {
    Amount(a.value + b.value, a.sources + b.sources)
  }

  /** `ap_sum(amounts)`: the loop folds `ap_add` from the left, starting at zero. */
  function Sum(amounts: seq<Amount>): Amount
    decreases |amounts|
  {
    if |amounts| == 0 then Zero()
    else Add(Sum(amounts[..|amounts| - 1]), amounts[|amounts| - 1])
  }

  /** Python's `round` on an exact value: nearest integer, ties to the even one. */
  function RoundHalfEven(x: real): (r: int)
    ensures -0.5 <= r as real - x <= 0.5
    ensures r as real - x == 0.5 || x - r as real == 0.5 ==> r % 2 == 0
  {
    var f := x.Floor;
    var d := x - f as real;
    if d < 0.5 then f
    else if d > 0.5 then f + 1
    else if f % 2 == 0 then f
    else f + 1
  }

  /**
    `ap_scale(a, factor, **extra_sources)`. The factor is an exact real here,
    where Python multiplies binary floating-point numbers.
   */
  function Scale(a: Amount, factor: real, extra: map<string, SourceRef>): Amount {
    Amount(RoundHalfEven(a.value as real * factor), a.sources + extra.Values)
  }

  // ---------------------------------------------------------------------
  // Reference definitions, independent of the fold

  /** Sum of the values, folded from the right. */
  function TotalValue(amounts: seq<Amount>): int {
    if |amounts| == 0 then 0 else amounts[0].value + TotalValue(amounts[1..])
  }

  /** Every citation carried by any of the amounts. */
  function AllSources(amounts: seq<Amount>): set<SourceRef> {
    set i, s | 0 <= i < |amounts| && s in amounts[i].sources :: s
  }

  // ---------------------------------------------------------------------
  // Laws

  lemma ZeroIsEmpty()
    ensures Zero().value == 0 && Zero().sources == {}
  {
  }

  /** `ap_from` keeps the value and cites exactly the given sources, a duplicate counting once. */
  lemma FromCitesExactly(value: int, sources: seq<SourceRef>)
    ensures From(value, sources).value == value
    ensures forall s :: s in From(value, sources).sources <==> s in sources
    ensures From(value, sources + sources) == From(value, sources)
    ensures |From(value, sources).sources| <= |sources|
  {
    var r := From(value, sources).sources;
    assert r == set s | s in sources + sources;
    CardinalityOfElements(sources);
  }

  lemma CardinalityOfElements<T>(xs: seq<T>)
    ensures |set x | x in xs| <= |xs|
  {
    if |xs| > 0 {
      var last := xs[|xs| - 1];
      var init := xs[..|xs| - 1];
      assert (set x | x in xs) == (set x | x in init) + {last};
      CardinalityOfElements(init);
    }
  }

  lemma AddValueAndSources(a: Amount, b: Amount)
    ensures Add(a, b).value == a.value + b.value
    ensures Add(a, b).sources == a.sources + b.sources
  {
  }

  lemma AddCommutative(a: Amount, b: Amount)
    ensures Add(a, b) == Add(b, a)
  {
  }

  lemma AddAssociative(a: Amount, b: Amount, c: Amount)
    ensures Add(Add(a, b), c) == Add(a, Add(b, c))
  {
  }

  lemma ZeroIdentity(a: Amount)
    ensures Add(Zero(), a) == a && Add(a, Zero()) == a
  {
  }

  /** The fold agrees with the reference total and the reference union. */
  lemma {:induction false} SumIsTotalAndUnion(amounts: seq<Amount>)
    ensures Sum(amounts).value == TotalValue(amounts)
    ensures Sum(amounts).sources == AllSources(amounts)
    decreases |amounts|
  {
    if |amounts| > 0 {
      var n := |amounts|;
      var init, last := amounts[..n - 1], amounts[n - 1];
      assert init + [last] == amounts;
      SumIsTotalAndUnion(init);
      TotalValueSnoc(init, last);
      AllSourcesSnoc(init, last);
      assert Sum(amounts) == Add(Sum(init), last);
    }
  }

  lemma AllSourcesSnoc(init: seq<Amount>, x: Amount)
    ensures AllSources(init + [x]) == AllSources(init) + x.sources
  {
    var amounts := init + [x];
    var n := |amounts|;
    forall s | s in AllSources(amounts)
      ensures s in AllSources(init) + x.sources
    {
      var i :| 0 <= i < n && s in amounts[i].sources;
      if i < n - 1 {
        assert init[i] == amounts[i];
      }
    }
    forall s | s in AllSources(init) ensures s in AllSources(amounts) {
      var i :| 0 <= i < n - 1 && s in init[i].sources;
      assert amounts[i] == init[i];
    }
    forall s | s in x.sources ensures s in AllSources(amounts) {
      assert amounts[n - 1] == x;
    }
  }

  lemma {:induction false} TotalValueSnoc(amounts: seq<Amount>, x: Amount)
    ensures TotalValue(amounts + [x]) == TotalValue(amounts) + x.value
    decreases |amounts|
  {
    if |amounts| == 0 {
      assert amounts + [x] == [x];
    } else {
      assert (amounts + [x])[1..] == amounts[1..] + [x];
      TotalValueSnoc(amounts[1..], x);
    }
  }

  /** `ap_sum` of nothing is `ap_zero`. */
  lemma SumEmpty()
    ensures Sum([]) == Zero()
  {
  }

  /** Summing three amounts adds them from the left. */
  lemma SumThree(a: Amount, b: Amount, c: Amount)
    ensures Sum([a, b, c]) == Add(Add(a, b), c)
    ensures Sum([a, b, c]).value == a.value + b.value + c.value
    ensures Sum([a, b, c]).sources == a.sources + b.sources + c.sources
  {
    assert [a, b, c][..2] == [a, b];
    assert [a, b][..1] == [a];
    assert [a][..0] == [];
    assert Sum([a]) == Add(Zero(), a);
    ZeroIdentity(a);
    assert Sum([a, b]) == Add(Sum([a]), b);
  }

  /** Summing a concatenation adds the two partial sums. */
  lemma {:induction false} SumAppend(a: seq<Amount>, b: seq<Amount>)
    ensures Sum(a + b) == Add(Sum(a), Sum(b))
    decreases |b|
  {
    if |b| == 0 {
      assert a + b == a;
    } else {
      var n := |b|;
      var init := b[..n - 1];
      assert (a + b)[..|a + b| - 1] == a + init;
      assert (a + b)[|a + b| - 1] == b[n - 1];
      SumAppend(a, init);
      AddAssociative(Sum(a), Sum(init), b[n - 1]);
    }
  }

  /** `ap_sum` does not depend on the order of its inputs. */
  lemma {:induction false} SumPermutation(a: seq<Amount>, b: seq<Amount>)
    requires multiset(a) == multiset(b)
    ensures Sum(a) == Sum(b)
    decreases |a|
  {
    if |a| == 0 {
      assert |b| == |multiset(b)| == 0;
    } else {
      var n := |a|;
      var x, init := a[n - 1], a[..n - 1];
      var i := MatchLast(a, b);
      var pre, post := b[..i], b[i + 1..];
      SumPermutation(init, pre + post);
      SumMoveToEnd(pre, x, post);
      assert b == pre + [x] + post;
      assert a == init + [x];
    }
  }

  /** Where the last element of `a` sits in its permutation `b`, and what remains once both are removed. */
  lemma MatchLast(a: seq<Amount>, b: seq<Amount>) returns (i: nat)
    requires |a| > 0 && multiset(a) == multiset(b)
    ensures i < |b| && b[i] == a[|a| - 1]
    ensures multiset(a[..|a| - 1]) == multiset(b[..i] + b[i + 1..])
  {
    var n := |a|;
    var x, init := a[n - 1], a[..n - 1];
    assert a == init + [x];
    assert x in multiset(b);
    i :| 0 <= i < |b| && b[i] == x;
    var pre, post := b[..i], b[i + 1..];
    assert b == pre + [x] + post;
    calc {
      multiset(init);
      { assert multiset(a) == multiset(init) + multiset{x}; }
      multiset(a) - multiset{x};
      multiset(b) - multiset{x};
      { assert multiset(b) == multiset(pre) + multiset{x} + multiset(post); }
      multiset(pre) + multiset(post);
      multiset(pre + post);
    }
  }

  /** Moving one amount to the end of the fold does not change the sum. */
  lemma SumMoveToEnd(pre: seq<Amount>, x: Amount, post: seq<Amount>)
    ensures Sum(pre + [x] + post) == Add(Sum(pre + post), x)
  {
    calc {
      Sum(pre + [x] + post);
      { SumAppend(pre + [x], post); }
      Add(Sum(pre + [x]), Sum(post));
      { assert (pre + [x])[..|pre|] == pre; }
      Add(Add(Sum(pre), x), Sum(post));
      { AddAssociative(Sum(pre), x, Sum(post));
        AddCommutative(x, Sum(post));
        AddAssociative(Sum(pre), Sum(post), x); }
      Add(Add(Sum(pre), Sum(post)), x);
      { SumAppend(pre, post); }
      Add(Sum(pre + post), x);
    }
  }

  /** `ap_scale` cites the scaled amount's sources plus the extra ones, and rounds half to even. */
  lemma ScaleSourcesAndRounding(a: Amount, factor: real, extra: map<string, SourceRef>)
    ensures Scale(a, factor, extra).sources == a.sources + extra.Values
    ensures var d := Scale(a, factor, extra).value as real - a.value as real * factor;
      -0.5 <= d <= 0.5
  {
  }

  /** Scaling by exactly 1 with no extra citation is the identity. */
  lemma ScaleByOne(a: Amount)
    ensures Scale(a, 1.0, map[]) == a
  {
    assert a.value as real * 1.0 == a.value as real;
    var none: map<string, SourceRef> := map[];
    assert none.Values == {};
  }

  /** Scaling zero without extra citations gives zero, whatever the factor. */
  lemma ScaleZero(factor: real)
    ensures Scale(Zero(), factor, map[]) == Zero()
  {
    var none: map<string, SourceRef> := map[];
    assert none.Values == {};
  }
}
