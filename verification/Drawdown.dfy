/** backtest/replay.py: the two drawdowns of a replay report. */
module Drawdown {
  import Arithmetic

  /** The running total after `n` trades. */
  function Cumulative(rrs: seq<real>, n: nat): real
    requires n <= |rrs|
  {
    if n == 0 then 0.0 else Cumulative(rrs, n - 1) + rrs[n - 1]
  }

  /** The sum of the block of trades `i .. j`. */
  function BlockSum(rrs: seq<real>, i: nat, j: nat): real
    requires i <= j <= |rrs|
    decreases j
  {
    if i == j then 0.0 else BlockSum(rrs, i, j - 1) + rrs[j - 1]
  }

  lemma {:induction false} BlockIsDifference(rrs: seq<real>, i: nat, j: nat)
    requires i <= j <= |rrs|
    ensures BlockSum(rrs, i, j) == Cumulative(rrs, j) - Cumulative(rrs, i)
  {
    if i < j { BlockIsDifference(rrs, i, j - 1); }
  }

  /** A block of one trade is worth its rr, and adjacent blocks add up. */
  lemma {:induction false} BlocksAddUp(rrs: seq<real>, i: nat, j: nat, k: nat)
    requires i <= j <= k <= |rrs|
    ensures BlockSum(rrs, i, k) == BlockSum(rrs, i, j) + BlockSum(rrs, j, k)
    ensures j < |rrs| ==> BlockSum(rrs, j, j + 1) == rrs[j]
  {
    BlockIsDifference(rrs, i, j);
    BlockIsDifference(rrs, j, k);
    BlockIsDifference(rrs, i, k);
    assert j < |rrs| ==> BlockSum(rrs, j, j) == 0.0;
  }

  ghost predicate WorstBlock(rrs: seq<real>, dd: real) {
    && (forall i, j | 0 <= i <= j <= |rrs| :: dd <= BlockSum(rrs, i, j))
    && exists i, j :: 0 <= i <= j <= |rrs| && dd == BlockSum(rrs, i, j)
  }

  /** The highest running total so far, the start included. */
  function High(rrs: seq<real>, n: nat): (r: real)
    requires n <= |rrs|
  {
    if n == 0 then 0.0
    else
      var before := High(rrs, n - 1);
      if Cumulative(rrs, n) > before then Cumulative(rrs, n) else before
  }

  lemma {:induction false} HighIsHighest(rrs: seq<real>, n: nat)
    requires n <= |rrs|
    ensures forall i | 0 <= i <= n :: Cumulative(rrs, i) <= High(rrs, n)
    ensures exists i :: 0 <= i <= n && Cumulative(rrs, i) == High(rrs, n)
  {
    if n > 0 { HighIsHighest(rrs, n - 1); }
    assert n == 0 ==> Cumulative(rrs, 0) == High(rrs, 0);
    assert Cumulative(rrs, n) == High(rrs, n) || (n > 0 && High(rrs, n) == High(rrs, n - 1));
  }

  /** Drop below the running high at every point, and the worst of them. */
  ghost predicate WorstDrop(rrs: seq<real>, n: nat, dd: real)
    requires n <= |rrs|
  {
    && (forall j | 0 <= j <= n :: dd <= Cumulative(rrs, j) - High(rrs, j))
    && exists j :: 0 <= j <= n && dd == Cumulative(rrs, j) - High(rrs, j)
  }

  lemma {:induction false} WorstDropStep(rrs: seq<real>, n: nat, dd: real)
    requires n < |rrs| && WorstDrop(rrs, n, dd)
    ensures var drop := Cumulative(rrs, n + 1) - High(rrs, n + 1);
            WorstDrop(rrs, n + 1, if drop < dd then drop else dd)
  {
    hide Cumulative, High;
    var j :| 0 <= j <= n && dd == Cumulative(rrs, j) - High(rrs, j);
  }

  lemma {:induction false} WorstDropIsWorstBlock(rrs: seq<real>, dd: real)
    requires WorstDrop(rrs, |rrs|, dd)
    ensures WorstBlock(rrs, dd) && dd <= 0.0
  {
    hide Cumulative, High, BlockSum;
    forall i, j | 0 <= i <= j <= |rrs| ensures dd <= BlockSum(rrs, i, j) {
      BlockIsDifference(rrs, i, j);
      HighIsHighest(rrs, j);
    }
    var j :| 0 <= j <= |rrs| && dd == Cumulative(rrs, j) - High(rrs, j);
    HighIsHighest(rrs, j);
    var i :| 0 <= i <= j && Cumulative(rrs, i) == High(rrs, j);
    BlockIsDifference(rrs, i, j);
  }

  /** One pass over the running totals finds the worst contiguous block of trades, the
      empty block, worth 0, included. */
  method SignalDrawdown(rrs: seq<real>) returns (maxDd: real)
    ensures WorstBlock(rrs, maxDd) && maxDd <= 0.0
  {
    var cumulative: seq<real>, running := [], 0.0;
    for n := 0 to |rrs|
      invariant |cumulative| == n && running == Cumulative(rrs, n)
      invariant forall k | 0 <= k < n :: cumulative[k] == Cumulative(rrs, k + 1)
    {
      running := running + rrs[n];
      cumulative := cumulative + [running];
    }
    var peak := 0.0;
    maxDd := 0.0;
    assert WorstDrop(rrs, 0, 0.0) by { assert Cumulative(rrs, 0) - High(rrs, 0) == 0.0; }
    for n := 0 to |cumulative|
      invariant peak == High(rrs, n) && WorstDrop(rrs, n, maxDd)
    {
      var v := cumulative[n];
      peak := if v > peak then v else peak;
      var dd := v - peak;
      WorstDropStep(rrs, n, maxDd);
      if dd < maxDd {
        maxDd := dd;
      }
    }
    WorstDropIsWorstBlock(rrs, maxDd);
  }

  lemma {:induction false} WorstBlockIsUnique(rrs: seq<real>, a: real, b: real)
    requires WorstBlock(rrs, a) && WorstBlock(rrs, b)
    ensures a == b
  {
    var i, j :| 0 <= i <= j <= |rrs| && a == BlockSum(rrs, i, j);
    var k, l :| 0 <= k <= l <= |rrs| && b == BlockSum(rrs, k, l);
    assert b <= BlockSum(rrs, i, j) && a <= BlockSum(rrs, k, l);
  }

  // ---- equity drawdown -----------------------------------------------------------------

  /** The highest normalised equity among the start, 1, and the first `n` points. */
  function Peak(eqs: seq<real>, n: nat): (r: real)
    requires n <= |eqs|
    ensures 1.0 <= r && forall i | 0 <= i < n :: eqs[i] <= r
    ensures r == 1.0 || exists i :: 0 <= i < n && eqs[i] == r
  {
    if n == 0 then 1.0
    else
      var before := Peak(eqs, n - 1);
      if eqs[n - 1] > before then eqs[n - 1] else before
  }

  function Fall(eqs: seq<real>, j: nat): real
    requires j < |eqs|
  {
    eqs[j] / Peak(eqs, j + 1) - 1.0
  }

  ghost predicate DeepestFall(eqs: seq<real>, dd: real) {
    && dd <= 0.0
    && (forall j | 0 <= j < |eqs| :: dd <= Fall(eqs, j))
    && (dd == 0.0 || exists j :: 0 <= j < |eqs| && dd == Fall(eqs, j))
  }

  method EquityDrawdown(eqs: seq<real>) returns (maxDd: real)
    ensures DeepestFall(eqs, maxDd)
  {
    var peak := 1.0;
    maxDd := 0.0;
    for n := 0 to |eqs|
      invariant peak == Peak(eqs, n) && maxDd <= 0.0
      invariant forall j | 0 <= j < n :: maxDd <= Fall(eqs, j)
      invariant maxDd == 0.0 || exists j :: 0 <= j < n && maxDd == Fall(eqs, j)
    {
      if eqs[n] > peak {
        peak := eqs[n];
      }
      var dd := eqs[n] / peak - 1.0;
      assert dd == Fall(eqs, n);
      if dd < maxDd {
        maxDd := dd;
      }
    }
  }

  lemma {:induction false} SmallerOverLarger(a: real, small: real, large: real)
    requires 0.0 <= a && 0.0 < small <= large
    ensures a / large <= a / small
  {
    var x, y := a / large, a / small;
    assert x * large == a && y * small == a;
    Arithmetic.QuotientSign(a, small);
    assert y * (large - small) >= 0.0;
    Arithmetic.CancelFactor(x, y, large);
  }

  lemma {:induction false} FallBounds(eqs: seq<real>, j: nat)
    requires j < |eqs|
    ensures Fall(eqs, j) < -1.0 <==> eqs[j] < 0.0
    ensures 0.0 <= eqs[j] ==> Fall(eqs, j) <= eqs[j] - 1.0
    ensures forall i | 0 <= i < j && 0.0 < eqs[i] && 0.0 <= eqs[j] :: Fall(eqs, j) <= eqs[j] / eqs[i] - 1.0
  {
    Arithmetic.QuotientSign(eqs[j], Peak(eqs, j + 1));
    if 0.0 <= eqs[j] {
      SmallerOverLarger(eqs[j], 1.0, Peak(eqs, j + 1));
      forall i | 0 <= i < j && 0.0 < eqs[i] ensures Fall(eqs, j) <= eqs[j] / eqs[i] - 1.0 {
        SmallerOverLarger(eqs[j], eqs[i], Peak(eqs, j + 1));
      }
    }
  }

  /** No later point fell further from any earlier one, the start included; and the loss
      exceeds the whole capital exactly when the equity goes negative. */
  lemma {:induction false} DeepestFallBounds(eqs: seq<real>, dd: real)
    requires DeepestFall(eqs, dd)
    ensures forall i, j | 0 <= i < j < |eqs| && 0.0 < eqs[i] && 0.0 <= eqs[j] :: dd <= eqs[j] / eqs[i] - 1.0
    ensures forall j | 0 <= j < |eqs| && 0.0 <= eqs[j] :: dd <= eqs[j] - 1.0
    ensures dd < -1.0 <==> exists j :: 0 <= j < |eqs| && eqs[j] < 0.0
  {
    hide Fall, Peak;
    forall i, j | 0 <= i < j < |eqs| && 0.0 < eqs[i] && 0.0 <= eqs[j] ensures dd <= eqs[j] / eqs[i] - 1.0 {
      FallBounds(eqs, j);
    }
    forall j | 0 <= j < |eqs|
      ensures 0.0 <= eqs[j] ==> dd <= eqs[j] - 1.0
      ensures Fall(eqs, j) < -1.0 <==> eqs[j] < 0.0
    {
      FallBounds(eqs, j);
    }
    if dd < -1.0 {
      var j :| 0 <= j < |eqs| && dd == Fall(eqs, j);
    }
    if j :| 0 <= j < |eqs| && eqs[j] < 0.0 {
      assert Fall(eqs, j) < -1.0;
    }
  }

  /** Some point did fall that far: from the start, or from an earlier point. */
  lemma {:induction false} DeepestFallIsAttained(eqs: seq<real>, dd: real)
    requires DeepestFall(eqs, dd) && dd < 0.0
    ensures exists j :: 0 <= j < |eqs| &&
              (dd == eqs[j] - 1.0 || exists i :: 0 <= i <= j && 1.0 < eqs[i] && dd == eqs[j] / eqs[i] - 1.0)
  {
    var j :| 0 <= j < |eqs| && dd == Fall(eqs, j);
    if Peak(eqs, j + 1) == 1.0 {
      assert dd == eqs[j] - 1.0;
    } else {
      var i :| 0 <= i < j + 1 && eqs[i] == Peak(eqs, j + 1);
      assert 1.0 < eqs[i] && dd == eqs[j] / eqs[i] - 1.0;
    }
  }
}
