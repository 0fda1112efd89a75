/** What the compounding mode of backtest/models.py promises: it takes every trade, in exit order. */
module Compounding {
  import PositionGuarantees
  import opened PositionSweep
  import Sorting

  lemma {:induction false} CompoundPoint(riskFrac: real, ts: seq<Trade>, i: nat)
    requires i < |ts|
    ensures CompoundCurve(riskFrac, ts)[i].date == Exit(ts[i])
    ensures CompoundCurve(riskFrac, ts)[i].equity == Growth(riskFrac, ts[..i + 1])
  {
    if i == |ts| - 1 {
      assert ts[..i + 1] == ts;
    } else {
      var front := ts[..|ts| - 1];
      CompoundPoint(riskFrac, front, i);
      assert front[..i + 1] == ts[..i + 1];
    }
  }

  /** Point k stands at the exit of trade k, and multiplies the equity by the trade's own factor. */
  lemma {:induction false} CompoundSteps(riskFrac: real, ts: seq<Trade>, k: nat)
    requires k < |ts|
    ensures var curve := CompoundCurve(riskFrac, ts);
            && curve[k].date == (if ts[k].exitDate.Some? then ts[k].exitDate.value + 1 else 0)
            && curve[k].equity == (if k == 0 then 1.0 else curve[k - 1].equity) * (1.0 + ts[k].rr * riskFrac)
            && curve[k].cumulativeRr == (if k == 0 then 0.0 else curve[k - 1].cumulativeRr) + ts[k].rr
            && curve[k].pnlPct == ts[k].rr * riskFrac * 100.0
  {
    if k < |ts| - 1 {
      CompoundSteps(riskFrac, ts[..|ts| - 1], k);
    } else if k > 0 {
      assert CompoundCurve(riskFrac, ts)[k - 1] == CompoundCurve(riskFrac, ts[..k])[k - 1];
    } else {
      assert ts[..0] == [];
    }
  }

  lemma {:induction false} ExitOrderIsTotal()
    ensures Sorting.TotalPreorder(ByExit())
  {}

  /** In this mode the documented order holds: all trades, once each, by ascending exit date. */
  lemma {:induction false} CompoundsInExitOrder(riskFrac: real, trades: seq<Trade>)
    ensures multiset(Sorting.Sort(ByExit(), trades)) == multiset(trades)
    ensures PositionGuarantees.DatesAscending(CompoundCurve(riskFrac, Sorting.Sort(ByExit(), trades)))
  {
    var sorted := Sorting.Sort(ByExit(), trades);
    ExitOrderIsTotal();
    Sorting.SortIsSortedPermutation(ByExit(), trades);
    var curve := CompoundCurve(riskFrac, sorted);
    forall i, j | 0 <= i < j < |curve| ensures curve[i].date <= curve[j].date {
      CompoundPoint(riskFrac, sorted, i);
      CompoundPoint(riskFrac, sorted, j);
      assert ByExit()(sorted[i], sorted[j]);
    }
  }

  lemma {:induction false} Unit(a: real)
    ensures Times(a, 1.0) == a && Times(1.0, a) == a
  {}

  lemma {:induction false} Regroup(a: real, b: real, c: real)
    ensures Times(a, Times(b, c)) == Times(Times(a, b), c)
  {}

  lemma {:induction false} Exchange(x: real, f: real, y: real)
    ensures Times(Times(x, f), y) == Times(Times(x, y), f)
  {}

  lemma {:induction false} GrowthOfRuns(riskFrac: real, a: seq<Trade>, b: seq<Trade>)
    ensures Growth(riskFrac, a + b) == Times(Growth(riskFrac, a), Growth(riskFrac, b))
  {
    hide Factor, Times;
    Unit(Growth(riskFrac, a));
    if b == [] {
      assert a + b == a;
    } else {
      var front, last := b[..|b| - 1], b[|b| - 1];
      assert (a + b)[..|a + b| - 1] == a + front && (a + b)[|a + b| - 1] == last;
      GrowthOfRuns(riskFrac, a, front);
      Regroup(Growth(riskFrac, a), Growth(riskFrac, front), Factor(riskFrac, last));
    }
  }

  lemma {:induction false} GrowthOfOne(riskFrac: real, t: Trade)
    ensures Growth(riskFrac, [t]) == Factor(riskFrac, t)
  {
    Unit(Factor(riskFrac, t));
    hide Factor, Times;
    assert [t][..0] == [];
  }

  lemma {:induction false} GrowthWithout(riskFrac: real, ts: seq<Trade>, i: nat)
    requires i < |ts|
    ensures Growth(riskFrac, ts) == Times(Growth(riskFrac, ts[..i] + ts[i + 1..]), Factor(riskFrac, ts[i]))
    ensures multiset(ts[..i] + ts[i + 1..]) == multiset(ts) - multiset{ts[i]}
  {
    hide Growth, Factor, Times;
    var a, b := ts[..i], ts[i + 1..];
    assert ts == a + [ts[i]] + b;
    GrowthOfRuns(riskFrac, a + [ts[i]], b);
    GrowthOfRuns(riskFrac, a, [ts[i]]);
    GrowthOfRuns(riskFrac, a, b);
    GrowthOfOne(riskFrac, ts[i]);
    Exchange(Growth(riskFrac, a), Factor(riskFrac, ts[i]), Growth(riskFrac, b));
  }

  /** Compounding does not depend on the order of the trades, ... */
  lemma {:induction false} GrowthIgnoresOrder(riskFrac: real, a: seq<Trade>, b: seq<Trade>)
    requires multiset(a) == multiset(b)
    ensures Growth(riskFrac, a) == Growth(riskFrac, b)
    decreases |a|
  {
    hide Growth, Factor, Times;
    assert |a| == |multiset(a)| == |multiset(b)| == |b|;
    if a == [] {
      assert b == [];
    } else {
      assert a[0] in multiset(b);
      var i :| 0 <= i < |b| && b[i] == a[0];
      GrowthWithout(riskFrac, a, 0);
      GrowthWithout(riskFrac, b, i);
      assert a[..0] + a[1..] == a[1..];
      GrowthIgnoresOrder(riskFrac, a[1..], b[..i] + b[i + 1..]);
    }
  }

  /** ... so the equity at the end is the growth of the trades as they were given, whatever ties
      their exit dates have. */
  lemma {:induction false} FinalCompoundEquity(riskFrac: real, trades: seq<Trade>)
    requires trades != []
    ensures var curve := CompoundCurve(riskFrac, Sorting.Sort(ByExit(), trades));
            |curve| == |trades| && curve[|curve| - 1].equity == Growth(riskFrac, trades)
  {
    var sorted := Sorting.Sort(ByExit(), trades);
    CompoundsInExitOrder(riskFrac, trades);
    assert |sorted| == |multiset(sorted)| == |multiset(trades)| == |trades|;
    GrowthIgnoresOrder(riskFrac, sorted, trades);
    CompoundPoint(riskFrac, sorted, |sorted| - 1);
    assert sorted[..|sorted|] == sorted;
  }
}
