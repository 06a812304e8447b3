/**
  The summary statistics of tools/session_report.py: one result row per
  member, the overall count and total, the per-chamber and per-party
  groups, the stipend distribution and the ten top earners. Averages and
  medians are exact reals here, where Python divides floating-point
  numbers.
 */
module SessionReportTool {
  import opened Wrappers
  import opened Core
  import opened TotalComp
  import opened Sorting

  /** One member's entry in `all_results`; chamber and party are their string values. */
  datatype ResultRow = ResultRow(
    memberId: string,
    name: string,
    chamber: string,
    party: string,
    baseSalary: int,
    stipends9B: int,
    travel9C: int,
    total: int,
    distanceMiles: Option<real>)

  /** The row `generate_session_report` builds from a member and its compensation. */
  function RowOf(member: Member, comp: TotalCompResult): (r: ResultRow)
    requires |comp.components| == 3
  {
    ResultRow(member.memberId, member.name, ChamberValue(member.chamber), PartyValue(member.party),
              comp.components[0].amount.value, comp.components[1].amount.value,
              comp.components[2].amount.value, comp.total.value, member.distanceMiles)
  }

  /** A row's total is its base salary, stipends and travel together. */
  lemma RowTotalIsSum(member: Member, session: Session, select: Rules9B.Selector)
    requires TotalCompForMember(member, session, select).Ok?
    ensures var r := RowOf(member, TotalCompForMember(member, session, select).value);
      r.total == r.baseSalary + r.stipends9B + r.travel9C
  {
  }

  // ---------------------------------------------------------------------
  // Sums and groups

  function SumTotal(rows: seq<ResultRow>): int {
    if |rows| == 0 then 0 else rows[0].total + SumTotal(rows[1..])
  }

  function WithChamber(rows: seq<ResultRow>, c: string): (r: seq<ResultRow>)
    ensures |r| <= |rows|
    ensures forall k | 0 <= k < |r| :: r[k].chamber == c && r[k] in rows
  {
    if |rows| == 0 then []
    else (if rows[0].chamber == c then [rows[0]] else []) + WithChamber(rows[1..], c)
  }

  function WithParty(rows: seq<ResultRow>, p: string): (r: seq<ResultRow>)
    ensures |r| <= |rows|
    ensures forall k | 0 <= k < |r| :: r[k].party == p && r[k] in rows
  {
    if |rows| == 0 then []
    else (if rows[0].party == p then [rows[0]] else []) + WithParty(rows[1..], p)
  }

  lemma {:induction false} WithChamberEmpty(rows: seq<ResultRow>, c: string)
    ensures |WithChamber(rows, c)| > 0 <==> exists k | 0 <= k < |rows| :: rows[k].chamber == c
    decreases |rows|
  {
    if |rows| > 0 {
      WithChamberEmpty(rows[1..], c);
      assert forall k | 1 <= k < |rows| :: rows[1..][k - 1] == rows[k];
      if k :| 0 <= k < |rows| && rows[k].chamber == c {
        if k > 0 { assert rows[1..][k - 1].chamber == c; }
      }
    }
  }

  /** `total / count if count else 0`: the total spread evenly over the members, 0 for none. */
  function Average(total: int, count: int): (a: real)
    ensures count == 0 ==> a == 0.0
    ensures count > 0 ==> a * count as real == total as real
  {
    if count > 0 then DivTimes(total as real, count as real); total as real / count as real else 0.0
  }

  lemma DivTimes(t: real, n: real)
    requires n > 0.0
    ensures (t / n) * n == t
  {
  }

  // ---------------------------------------------------------------------
  // Median

  function TotalKey(t: int): (int, int) {
    (t, 0)
  }

  function TotalsOf(rows: seq<ResultRow>): (r: seq<int>)
    ensures |r| == |rows|
    ensures forall k | 0 <= k < |rows| :: r[k] == rows[k].total
  {
    seq(|rows|, k requires 0 <= k < |rows| => rows[k].total)
  }

  /** `statistics.median`: the middle value, or the mean of the two middle values. */
  function Median(xs: seq<int>): (m: real)
    requires |xs| > 0
  {
    var s := SortBy(xs, TotalKey);
    var n := |xs|;
    if n % 2 == 1 then s[n / 2] as real
    else (s[n / 2 - 1] + s[n / 2]) as real / 2.0
  }

  /** The median lies between two of the values. */
  lemma MedianBetween(xs: seq<int>)
    requires |xs| > 0
    ensures exists i, j | 0 <= i < |xs| && 0 <= j < |xs| :: xs[i] as real <= Median(xs) <= xs[j] as real
  {
    var s := SortBy(xs, TotalKey);
    var n := |xs|;
    SortBySorted(xs, TotalKey);
    var a := if n % 2 == 1 then n / 2 else n / 2 - 1;
    var b := n / 2;
    assert s[a] <= s[b];
    assert s[a] in multiset(xs) && s[b] in multiset(xs);
    var i :| 0 <= i < n && xs[i] == s[a];
    var j :| 0 <= j < n && xs[j] == s[b];
    assert xs[i] as real <= Median(xs) <= xs[j] as real;
  }

  // ---------------------------------------------------------------------
  // By chamber

  /** One group's figures: `average_compensation` and `median_compensation` are left out for parties. */
  datatype GroupStats = GroupStats(count: int, totalCompensation: int, average: real, median: Option<real>)

  function ChamberStats(rows: seq<ResultRow>): (r: GroupStats)
    requires |rows| > 0
    ensures r.count > 0 && r.median.Some?
  {
    var total := SumTotal(rows);
    GroupStats(|rows|, total, Average(total, |rows|), Some(Median(TotalsOf(rows))))
  }

  /** One chamber's entry: present only when some member sits in it. */
  function ChamberEntry(name: string, members: seq<ResultRow>): (r: seq<(string, GroupStats)>)
    ensures |r| <= 1 && (|r| == 1 <==> |members| > 0)
    ensures forall i | 0 <= i < |r| :: r[i].0 == name
    ensures forall i | 0 <= i < |r| ::
      r[i].1.count == |members| && r[i].1.totalCompensation == SumTotal(members)
  {
    if |members| > 0 then [(name, ChamberStats(members))] else []
  }

  /** `by_chamber`: the house entry, then the senate entry, each only when that chamber has members. */
  function ByChamber(rows: seq<ResultRow>): (r: seq<(string, GroupStats)>)
    ensures |r| <= 2
  {
    ChamberEntry("house", WithChamber(rows, "house")) + ChamberEntry("senate", WithChamber(rows, "senate"))
  }

  /** The keys are "house" and "senate", in that order, each at most once. */
  lemma ByChamberNames(rows: seq<ResultRow>)
    ensures var r := ByChamber(rows);
      && (forall i | 0 <= i < |r| :: r[i].0 == "house" || r[i].0 == "senate")
      && (forall i, j | 0 <= i < j < |r| :: r[i].0 == "house" && r[j].0 == "senate")
  {
    var h := ChamberEntry("house", WithChamber(rows, "house"));
    var t := ChamberEntry("senate", WithChamber(rows, "senate"));
    KeysOfPair(h, t, "house", "senate");
  }

  lemma KeysOfPair<V>(h: seq<(string, V)>, t: seq<(string, V)>, x: string, y: string)
    requires |h| <= 1 && |t| <= 1
    requires forall i | 0 <= i < |h| :: h[i].0 == x
    requires forall i | 0 <= i < |t| :: t[i].0 == y
    ensures forall i | 0 <= i < |h + t| :: (h + t)[i].0 == x || (h + t)[i].0 == y
    ensures forall i, j | 0 <= i < j < |h + t| :: (h + t)[i].0 == x && (h + t)[j].0 == y
  {
    forall i | 0 <= i < |h + t| ensures (h + t)[i].0 == x || (h + t)[i].0 == y {
      if i < |h| { assert (h + t)[i] == h[i]; } else { assert (h + t)[i] == t[i - |h|]; }
    }
    forall i, j | 0 <= i < j < |h + t| ensures (h + t)[i].0 == x && (h + t)[j].0 == y {
      assert i == 0 && j == 1 && |h| == 1 && |t| == 1;
      assert (h + t)[0] == h[0] && (h + t)[1] == t[0];
    }
  }

  /** Each chamber's entry counts and totals the members sitting in it, and there are some. */
  lemma ByChamberEntries(rows: seq<ResultRow>)
    ensures var r := ByChamber(rows);
      forall i | 0 <= i < |r| ::
        && |WithChamber(rows, r[i].0)| > 0
        && r[i].1.count == |WithChamber(rows, r[i].0)|
        && r[i].1.totalCompensation == SumTotal(WithChamber(rows, r[i].0))
  {
    var h := ChamberEntry("house", WithChamber(rows, "house"));
    var t := ChamberEntry("senate", WithChamber(rows, "senate"));
    var r: seq<(string, GroupStats)> := h + t;
    forall i | 0 <= i < |r|
      ensures && |WithChamber(rows, r[i].0)| > 0
              && r[i].1.count == |WithChamber(rows, r[i].0)|
              && r[i].1.totalCompensation == SumTotal(WithChamber(rows, r[i].0))
    {
      if i < |h| {
        assert r[i] == h[i];
      } else {
        assert r[i] == t[i - |h|];
      }
    }
  }

  /** A chamber has a key exactly when some member sits in it. */
  lemma ByChamberKeys(rows: seq<ResultRow>, c: string)
    requires c == "house" || c == "senate"
    ensures (exists i | 0 <= i < |ByChamber(rows)| :: ByChamber(rows)[i].0 == c)
      <==> exists k | 0 <= k < |rows| :: rows[k].chamber == c
  {
    WithChamberEmpty(rows, c);
    var house := WithChamber(rows, "house");
    var senate := WithChamber(rows, "senate");
    var r := ByChamber(rows);
    if |WithChamber(rows, c)| > 0 {
      if c == "house" {
        assert r[0].0 == c;
      } else if |house| > 0 {
        assert r[1].0 == c;
      } else {
        assert r[0].0 == c;
      }
    }
  }

  lemma {:induction false} SumTotalAppend(a: seq<ResultRow>, b: seq<ResultRow>)
    ensures SumTotal(a + b) == SumTotal(a) + SumTotal(b)
    decreases |a|
  {
    if |a| > 0 {
      var ab := a + b;
      assert ab[1..] == a[1..] + b;
      assert SumTotal(ab) == a[0].total + SumTotal(ab[1..]);
      SumTotalAppend(a[1..], b);
    } else {
      assert a + b == b;
    }
  }

  /**
    When every member sits in the House or the Senate, the two chambers'
    counts and totals add up to the whole session's.
   */
  lemma {:induction false} ChambersPartition(rows: seq<ResultRow>)
    requires forall k | 0 <= k < |rows| :: rows[k].chamber == "house" || rows[k].chamber == "senate"
    ensures |WithChamber(rows, "house")| + |WithChamber(rows, "senate")| == |rows|
    ensures SumTotal(WithChamber(rows, "house")) + SumTotal(WithChamber(rows, "senate")) == SumTotal(rows)
    decreases |rows|
  {
    if |rows| > 0 {
      assert forall k | 0 <= k < |rows| - 1 :: rows[1..][k] == rows[k + 1];
      ChambersPartition(rows[1..]);
      var h := if rows[0].chamber == "house" then [rows[0]] else [];
      var s := if rows[0].chamber == "senate" then [rows[0]] else [];
      SumTotalAppend(h, WithChamber(rows[1..], "house"));
      SumTotalAppend(s, WithChamber(rows[1..], "senate"));
    }
  }

  // ---------------------------------------------------------------------
  // By party

  /**
    The parties present, each once, in order of first appearance. Python
    iterates a set here; the order only decides the order of a dictionary's
    keys.
   */
  function PartiesOf(rows: seq<ResultRow>, seen: seq<string>): (r: seq<string>)
    decreases |rows|
  {
    if |rows| == 0 then []
    else if rows[0].party in seen then PartiesOf(rows[1..], seen)
    else [rows[0].party] + PartiesOf(rows[1..], seen + [rows[0].party])
  }

  lemma {:induction false} PartiesOfSound(rows: seq<ResultRow>, seen: seq<string>)
    ensures var r := PartiesOf(rows, seen);
      && (forall i, j | 0 <= i < j < |r| :: r[i] != r[j])
      && (forall i | 0 <= i < |r| :: r[i] !in seen)
      && (forall k | 0 <= k < |rows| :: rows[k].party in seen || rows[k].party in r)
    decreases |rows|
  {
    if |rows| > 0 {
      assert forall k | 1 <= k < |rows| :: rows[1..][k - 1] == rows[k];
      if rows[0].party in seen {
        PartiesOfSound(rows[1..], seen);
      } else {
        var p := rows[0].party;
        PartiesOfSound(rows[1..], seen + [p]);
        var rest := PartiesOf(rows[1..], seen + [p]);
        var r := [p] + rest;
        assert PartiesOf(rows, seen) == r;
        assert forall i | 1 <= i < |r| :: r[i] == rest[i - 1] && r[i] != p && r[i] !in seen;
        forall k | 0 <= k < |rows|
          ensures rows[k].party in seen || rows[k].party in r
        {
          if k > 0 {
            assert rows[k].party in seen + [p] || rows[k].party in rest;
          }
        }
      }
    }
  }

  /** `by_party`: one entry per party present. */
  function ByParty(rows: seq<ResultRow>): (r: seq<(string, GroupStats)>)
  {
    var parties := PartiesOf(rows, []);
    seq(|parties|, i requires 0 <= i < |parties| =>
      var group := WithParty(rows, parties[i]);
      (parties[i], GroupStats(|group|, SumTotal(group), Average(SumTotal(group), |group|), None)))
  }

  function SumCounts(groups: seq<(string, GroupStats)>): int {
    if |groups| == 0 then 0 else groups[0].1.count + SumCounts(groups[1..])
  }

  /** How many of the listed parties a row's party is. */
  function CountIn(ps: seq<string>, p: string): nat {
    if |ps| == 0 then 0 else (if ps[0] == p then 1 else 0) + CountIn(ps[1..], p)
  }

  lemma {:induction false} CountInDistinct(ps: seq<string>, p: string)
    requires forall i, j | 0 <= i < j < |ps| :: ps[i] != ps[j]
    ensures CountIn(ps, p) == if p in ps then 1 else 0
    decreases |ps|
  {
    if |ps| > 0 {
      assert forall i | 0 <= i < |ps| - 1 :: ps[1..][i] == ps[i + 1];
      CountInDistinct(ps[1..], p);
    }
  }

  /** The sizes of the groups of parties `ps`, over `rows`. */
  function GroupSizes(ps: seq<string>, rows: seq<ResultRow>): int {
    if |ps| == 0 then 0 else |WithParty(rows, ps[0])| + GroupSizes(ps[1..], rows)
  }

  lemma {:induction false} GroupSizesCons(ps: seq<string>, x: ResultRow, rows: seq<ResultRow>)
    ensures GroupSizes(ps, [x] + rows) == GroupSizes(ps, rows) + CountIn(ps, x.party)
    decreases |ps|
  {
    if |ps| > 0 {
      GroupSizesCons(ps[1..], x, rows);
      assert ([x] + rows)[1..] == rows;
    }
  }

  lemma {:induction false} GroupSizesCover(ps: seq<string>, rows: seq<ResultRow>)
    requires forall i, j | 0 <= i < j < |ps| :: ps[i] != ps[j]
    requires forall k | 0 <= k < |rows| :: rows[k].party in ps
    ensures GroupSizes(ps, rows) == |rows|
    decreases |rows|
  {
    if |rows| == 0 {
      GroupSizesNone(ps, rows);
    } else {
      assert forall k | 0 <= k < |rows| - 1 :: rows[1..][k] == rows[k + 1];
      GroupSizesCover(ps, rows[1..]);
      GroupSizesCons(ps, rows[0], rows[1..]);
      CountInDistinct(ps, rows[0].party);
      assert [rows[0]] + rows[1..] == rows;
    }
  }

  lemma {:induction false} GroupSizesNone(ps: seq<string>, rows: seq<ResultRow>)
    requires |rows| == 0
    ensures GroupSizes(ps, rows) == 0
    decreases |ps|
  {
    if |ps| > 0 {
      GroupSizesNone(ps[1..], rows);
    }
  }

  lemma {:induction false} SumCountsOfByParty(rows: seq<ResultRow>, ps: seq<string>, groups: seq<(string, GroupStats)>)
    requires |groups| == |ps|
    requires forall i | 0 <= i < |ps| :: groups[i].1.count == |WithParty(rows, ps[i])|
    ensures SumCounts(groups) == GroupSizes(ps, rows)
    decreases |ps|
  {
    if |ps| > 0 {
      assert forall i | 0 <= i < |ps| - 1 :: groups[1..][i] == groups[i + 1] && ps[1..][i] == ps[i + 1];
      SumCountsOfByParty(rows, ps[1..], groups[1..]);
    }
  }

  /** Every member is counted in exactly one party: the counts add up to the number of members. */
  lemma ByPartyCountsSum(rows: seq<ResultRow>)
    ensures SumCounts(ByParty(rows)) == |rows|
  {
    var ps := PartiesOf(rows, []);
    PartiesOfSound(rows, []);
    SumCountsOfByParty(rows, ps, ByParty(rows));
    GroupSizesCover(ps, rows);
  }

  /** Each party key has members, and its count and total are those of its members. */
  lemma ByPartyEntries(rows: seq<ResultRow>)
    ensures var r := ByParty(rows);
      forall i | 0 <= i < |r| ::
        && |WithParty(rows, r[i].0)| > 0
        && r[i].1.count == |WithParty(rows, r[i].0)|
        && r[i].1.totalCompensation == SumTotal(WithParty(rows, r[i].0))
  {
    var ps := PartiesOf(rows, []);
    PartiesOfAppear(rows, []);
    forall i | 0 <= i < |ps| ensures |WithParty(rows, ps[i])| > 0 {
      assert ps[i] in ps;
      var k :| 0 <= k < |rows| && rows[k].party == ps[i];
      WithPartyHas(rows, k);
    }
  }

  lemma {:induction false} PartiesOfAppear(rows: seq<ResultRow>, seen: seq<string>)
    ensures forall p | p in PartiesOf(rows, seen) :: exists k | 0 <= k < |rows| :: rows[k].party == p
    decreases |rows|
  {
    if |rows| > 0 {
      var r := PartiesOf(rows, seen);
      var seen' := if rows[0].party in seen then seen else seen + [rows[0].party];
      PartiesOfAppear(rows[1..], seen');
      var rest := PartiesOf(rows[1..], seen');
      forall p | p in r ensures exists k | 0 <= k < |rows| :: rows[k].party == p {
        if p == rows[0].party {
          assert rows[0].party == p;
        } else {
          assert p in rest;
          var k :| 0 <= k < |rows[1..]| && rows[1..][k].party == p;
          assert rows[k + 1].party == p;
        }
      }
    }
  }

  lemma {:induction false} WithPartyHas(rows: seq<ResultRow>, k: int)
    requires 0 <= k < |rows|
    ensures |WithParty(rows, rows[k].party)| > 0
    decreases |rows|
  {
    if k > 0 && rows[0].party != rows[k].party {
      WithPartyHas(rows[1..], k - 1);
    }
  }

  // ---------------------------------------------------------------------
  // Stipend distribution

  function CountZeroStipends(rows: seq<ResultRow>): nat {
    if |rows| == 0 then 0 else (if rows[0].stipends9B == 0 then 1 else 0) + CountZeroStipends(rows[1..])
  }

  function CountSomeStipends(rows: seq<ResultRow>): nat {
    if |rows| == 0 then 0 else (if rows[0].stipends9B > 0 then 1 else 0) + CountSomeStipends(rows[1..])
  }

  /** With no negative stipend total, every member falls in exactly one of the two bins. */
  lemma {:induction false} StipendDistributionCovers(rows: seq<ResultRow>)
    requires forall k | 0 <= k < |rows| :: rows[k].stipends9B >= 0
    ensures CountZeroStipends(rows) + CountSomeStipends(rows) == |rows|
    decreases |rows|
  {
    if |rows| > 0 {
      assert forall k | 0 <= k < |rows| - 1 :: rows[1..][k] == rows[k + 1];
      StipendDistributionCovers(rows[1..]);
    }
  }

  /** A negative stipend total falls in neither bin. */
  lemma NegativeStipendUncounted(row: ResultRow)
    requires row.stipends9B < 0
    ensures CountZeroStipends([row]) + CountSomeStipends([row]) == 0
  {
  }

  // ---------------------------------------------------------------------
  // Top earners

  /** `reverse=True` on the total, stable: ascending on the negated total. */
  function RowKey(r: ResultRow): (int, int) {
    (-r.total, 0)
  }

  datatype TopEarner = TopEarner(rank: int, memberId: string, name: string, chamber: string, total: int)

  function Min(a: int, b: int): int {
    if a <= b then a else b
  }

  /** The first ten rows by total, highest first, ties in input order. */
  function TopRows(rows: seq<ResultRow>): (r: seq<ResultRow>)
    ensures |r| == Min(10, |rows|)
  {
    SortBy(rows, RowKey)[..Min(10, |rows|)]
  }

  /** `top_earners`: the top rows, ranked from 1. */
  function TopEarners(rows: seq<ResultRow>): (r: seq<TopEarner>)
    ensures |r| == Min(10, |rows|)
    ensures forall i | 0 <= i < |r| :: r[i].rank == i + 1
  {
    var top := TopRows(rows);
    seq(|top|, i requires 0 <= i < |top| =>
      TopEarner(i + 1, top[i].memberId, top[i].name, top[i].chamber, top[i].total))
  }

  /** Totals do not increase down the list, and no member left off it earns more than the last listed. */
  lemma TopEarnersOrdered(rows: seq<ResultRow>)
    ensures var r := TopEarners(rows);
      && (forall i, j | 0 <= i < j < |r| :: r[i].total >= r[j].total)
      && (forall x | x in rows :: x in TopRows(rows) || x.total <= r[|r| - 1].total)
  {
    var s := SortBy(rows, RowKey);
    SortBySorted(rows, RowKey);
    var r := TopEarners(rows);
    var top := TopRows(rows);
    forall x | x in rows ensures x in top || x.total <= r[|r| - 1].total {
      assert x in multiset(s);
      var i :| 0 <= i < |s| && s[i] == x;
      if i >= |top| {
        assert KeyLe(RowKey(s[|top| - 1]), RowKey(s[i]));
      } else {
        assert top[i] == x;
      }
    }
  }

  lemma {:induction false} WithKeyPrefix(s: seq<ResultRow>, n: int, k: (int, int))
    requires 0 <= n <= |s|
    ensures var w := WithKey(s, RowKey, k);
      var p := WithKey(s[..n], RowKey, k);
      |p| <= |w| && p == w[..|p|]
    decreases n
  {
    if n > 0 {
      assert s[..n][1..] == s[1..][..n - 1];
      WithKeyPrefix(s[1..], n - 1, k);
    }
  }

  /**
    Ties keep input order: the listed members with any one total are the
    first of the members with that total, in the order they were given.
   */
  lemma TopEarnersTies(rows: seq<ResultRow>, k: (int, int))
    ensures var p := WithKey(TopRows(rows), RowKey, k);
      var w := WithKey(rows, RowKey, k);
      |p| <= |w| && p == w[..|p|]
  {
    SortByStable(rows, RowKey, k);
    WithKeyPrefix(SortBy(rows, RowKey), Min(10, |rows|), k);
  }

  // ---------------------------------------------------------------------
  // The summary

  datatype SummaryStats = SummaryStats(
    sessionId: string,
    totalMembers: int,
    totalCompensation: int,
    averageCompensation: real,
    medianCompensation: real,
    byChamber: seq<(string, GroupStats)>,
    byParty: seq<(string, GroupStats)>,
    zeroStipends: int,
    someStipends: int,
    topEarners: seq<TopEarner>)

  /** `_generate_summary_stats`. */
  function SummaryStatsOf(sessionId: string, rows: seq<ResultRow>): (r: SummaryStats)
  {
    var total := SumTotal(rows);
    SummaryStats(sessionId, |rows|, total,
                 Average(total, |rows|),
                 if |rows| > 0 then Median(TotalsOf(rows)) else 0.0,
                 ByChamber(rows), ByParty(rows),
                 CountZeroStipends(rows), CountSomeStipends(rows),
                 TopEarners(rows))
  }

  /** The groups' totals added up. */
  function SumGroupTotals(groups: seq<(string, GroupStats)>): int {
    if |groups| == 0 then 0 else groups[0].1.totalCompensation + SumGroupTotals(groups[1..])
  }

  lemma GroupSumsAppend(h: seq<(string, GroupStats)>, t: seq<(string, GroupStats)>)
    requires |h| <= 1
    ensures SumCounts(h + t) == SumCounts(h) + SumCounts(t)
    ensures SumGroupTotals(h + t) == SumGroupTotals(h) + SumGroupTotals(t)
  {
    if |h| == 1 {
      assert (h + t)[0] == h[0] && (h + t)[1..] == t && h[1..] == [];
    } else {
      assert h + t == t;
    }
  }

  lemma ChamberEntrySums(name: string, members: seq<ResultRow>)
    ensures SumCounts(ChamberEntry(name, members)) == |members|
    ensures SumGroupTotals(ChamberEntry(name, members)) == SumTotal(members)
  {
    var e := ChamberEntry(name, members);
    if |members| > 0 {
      assert e[1..] == [];
    }
  }

  /** The chamber entries count and total exactly the House and Senate members. */
  lemma ByChamberSums(rows: seq<ResultRow>)
    ensures SumCounts(ByChamber(rows)) == |WithChamber(rows, "house")| + |WithChamber(rows, "senate")|
    ensures SumGroupTotals(ByChamber(rows)) == SumTotal(WithChamber(rows, "house")) + SumTotal(WithChamber(rows, "senate"))
  {
    var h := ChamberEntry("house", WithChamber(rows, "house"));
    var t := ChamberEntry("senate", WithChamber(rows, "senate"));
    GroupSumsAppend(h, t);
    ChamberEntrySums("house", WithChamber(rows, "house"));
    ChamberEntrySums("senate", WithChamber(rows, "senate"));
  }

  lemma SummaryFields(sessionId: string, rows: seq<ResultRow>)
    ensures var r := SummaryStatsOf(sessionId, rows);
      && r.totalMembers == |rows| && r.totalCompensation == SumTotal(rows)
      && r.averageCompensation == Average(SumTotal(rows), |rows|)
      && r.byChamber == ByChamber(rows) && r.byParty == ByParty(rows)
      && r.zeroStipends == CountZeroStipends(rows) && r.someStipends == CountSomeStipends(rows)
      && r.topEarners == TopEarners(rows)
  {
  }

  /** The average spread back over the members gives the total. */
  predicate AverageGivesTotal(s: SummaryStats) {
    s.averageCompensation * s.totalMembers as real == s.totalCompensation as real
  }

  lemma SummaryAverage(s: SummaryStats)
    requires s.totalMembers > 0 && s.averageCompensation == Average(s.totalCompensation, s.totalMembers)
    ensures AverageGivesTotal(s)
  {
  }

  /**
    The summary's figures agree with one another: the average times the
    member count gives the total back; the party counts add up to the
    members; at most ten earners are listed; with no negative stipend total
    the two stipend bins cover every member; and when every member sits in
    the House or the Senate, the chamber entries add up to the member count
    and the total.
   */
  lemma SummaryTotals(sessionId: string, rows: seq<ResultRow>)
    ensures var r := SummaryStatsOf(sessionId, rows);
      && r.totalMembers == |rows|
      && (|rows| > 0 ==> AverageGivesTotal(r))
      && SumCounts(r.byParty) == r.totalMembers
      && |r.topEarners| == Min(10, r.totalMembers)
    ensures (forall k | 0 <= k < |rows| :: rows[k].stipends9B >= 0) ==>
      var r := SummaryStatsOf(sessionId, rows);
      r.zeroStipends + r.someStipends == r.totalMembers
    ensures (forall k | 0 <= k < |rows| :: rows[k].chamber == "house" || rows[k].chamber == "senate") ==>
      var r := SummaryStatsOf(sessionId, rows);
      SumCounts(r.byChamber) == r.totalMembers && SumGroupTotals(r.byChamber) == r.totalCompensation
  {
    SummaryFields(sessionId, rows);
    if |rows| > 0 {
      SummaryAverage(SummaryStatsOf(sessionId, rows));
    }
    ByPartyCountsSum(rows);
    ByChamberSums(rows);
    if forall k | 0 <= k < |rows| :: rows[k].stipends9B >= 0 {
      StipendDistributionCovers(rows);
    }
    if forall k | 0 <= k < |rows| :: rows[k].chamber == "house" || rows[k].chamber == "senate" {
      ChambersPartition(rows);
    }
  }

  /** An empty session reports nothing: no members, no groups, no earners, and zeros. */
  lemma EmptySummary(sessionId: string)
    ensures var r := SummaryStatsOf(sessionId, []);
      && r.totalMembers == 0 && r.totalCompensation == 0
      && r.averageCompensation == 0.0 && r.medianCompensation == 0.0
      && r.byChamber == [] && r.byParty == [] && r.topEarners == []
      && r.zeroStipends == 0 && r.someStipends == 0
  {
  }
}
