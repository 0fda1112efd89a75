/** diag/factor_zoo_scan.py: the adjusted p-values behind the `q_BH` column. */
module BenjaminiHochberg {

  /** `order` is some `argsort` of `p`: a permutation that lists the values in ascending
      order.  Nothing is said about how it breaks ties. */
  ghost predicate IsArgsort(p: seq<real>, order: seq<nat>) {
    && |order| == |p|
    && (forall b | 0 <= b < |p| :: order[b] < |p|)
    && (forall b, c | 0 <= b < c < |p| :: order[b] != order[c])
    && (forall i: nat | i < |p| :: i in order)
    && (forall b, c | 0 <= b <= c < |p| :: p[order[b]] <= p[order[c]])
  }

  function Clip(x: real): real {
    if x < 0.0 then 0.0 else if x > 1.0 then 1.0 else x
  }

  /** `p[order] * m / arange(1, m + 1)` at position `b`. */
  function Scaled(p: seq<real>, order: seq<nat>, b: nat): real
    requires b < |order| && |order| == |p| && order[b] < |p|
  {
    p[order[b]] * |p| as real / (b + 1) as real
  }

  /** The least scaled value at position `b` or later. */
  function SuffixMin(p: seq<real>, order: seq<nat>, b: nat): real
    requires b < |order| && |order| == |p| && forall c | 0 <= c < |p| :: order[c] < |p|
    decreases |order| - b
  {
    if b + 1 == |order| then Scaled(p, order, b)
    else
      var rest := SuffixMin(p, order, b + 1);
      if Scaled(p, order, b) < rest then Scaled(p, order, b) else rest
  }

  ghost predicate IsAdjusted(p: seq<real>, order: seq<nat>, q: seq<real>)
    requires IsArgsort(p, order)
  {
    |q| == |p| && forall b | 0 <= b < |p| :: q[order[b]] == Clip(SuffixMin(p, order, b))
  }

  /** Fills `bh` through the permutation with a running minimum from the last position down,
      then clips into [0, 1]. */
  method Adjust(p: seq<real>, order: seq<nat>) returns (q: seq<real>)
    requires IsArgsort(p, order)
    ensures IsAdjusted(p, order, q)
  {
    hide Scaled, Clip;
    var m := |p|;
    var bh := new real[m];
    var running := 0.0;
    var b := m;
    while b > 0
      invariant 0 <= b <= m
      invariant b < m ==> running == SuffixMin(p, order, b)
      invariant forall c | b <= c < m :: bh[order[c]] == SuffixMin(p, order, c)
    {
      b := b - 1;
      var scaled := Scaled(p, order, b);
      running := if b + 1 == m || scaled < running then scaled else running;
      bh[order[b]] := running;
    }
    var values := bh[..];
    q := seq(m, i requires 0 <= i < m => Clip(values[i]));
  }

  // ---- the step-up procedure -------------------------------------------------------------

  /** How many p-values are at most `x`. */
  ghost function AtMost(p: seq<real>, x: real): nat {
    |set l | 0 <= l < |p| && p[l] <= x|
  }

  /** `x` is within its share `alpha * rank / m` of the level. */
  predicate Within(m: nat, alpha: real, x: real, rank: nat) {
    x * m as real <= alpha * rank as real
  }

  /** Step-up rejection of hypothesis `i` at level `alpha`, with no sorting at all: some
      value at least as large as `p[i]` is within the share of its rank. */
  ghost predicate Rejects(p: seq<real>, alpha: real, i: nat)
    requires i < |p|
  {
    exists j :: 0 <= j < |p| && p[i] <= p[j] && Within(|p|, alpha, p[j], AtMost(p, p[j]))
  }

  predicate Names(p: seq<real>, order: seq<nat>) {
    |order| == |p| && forall c | 0 <= c < |p| :: order[c] < |p|
  }

  /** The k-th smallest value, counting from 1, is within the share of rank k. */
  predicate PassesAt(p: seq<real>, order: seq<nat>, alpha: real, k: nat)
    requires Names(p, order) && 0 < k <= |p|
  {
    Within(|p|, alpha, p[order[k - 1]], k)
  }

  /** The textbook form: the largest passing `k` up to the given one, or 0. */
  function StepUpCount(p: seq<real>, order: seq<nat>, alpha: real, k: nat): (r: nat)
    requires Names(p, order) && k <= |p|
    ensures r <= k
    ensures r > 0 ==> PassesAt(p, order, alpha, r)
    ensures forall c | r < c <= k :: !PassesAt(p, order, alpha, c)
  {
    if k == 0 || PassesAt(p, order, alpha, k) then k else StepUpCount(p, order, alpha, k - 1)
  }

  lemma {:induction false} ScaledAtMost(p: seq<real>, order: seq<nat>, b: nat, alpha: real)
    requires Names(p, order) && b < |p|
    ensures Scaled(p, order, b) <= alpha <==> PassesAt(p, order, alpha, b + 1)
  {
    DivideAtMost(p[order[b]] * |p| as real, (b + 1) as real, alpha);
  }

  lemma {:induction false} DivideAtMost(x: real, d: real, alpha: real)
    requires 0.0 < d
    ensures x / d <= alpha <==> x <= alpha * d
  {
    var y := x / d;
    assert y * d == x;
    if y <= alpha { assert (alpha - y) * d >= 0.0; } else { assert (y - alpha) * d > 0.0; }
  }

  lemma {:induction false} SuffixMinAtMost(p: seq<real>, order: seq<nat>, b: nat, alpha: real)
    requires Names(p, order) && b < |p|
    ensures SuffixMin(p, order, b) <= alpha <==> exists k :: b < k <= |p| && PassesAt(p, order, alpha, k)
    decreases |p| - b
  {
    hide Scaled, PassesAt;
    ScaledAtMost(p, order, b, alpha);
    if b + 1 < |order| {
      SuffixMinAtMost(p, order, b + 1, alpha);
    }
  }

  /** The first `n` positions of the permutation name `n` different hypotheses. */
  lemma {:induction false} PrefixSize(p: seq<real>, order: seq<nat>, n: nat)
    requires IsArgsort(p, order) && n <= |p|
    ensures |set c | 0 <= c < n :: order[c]| == n
  {
    var prefix := set c | 0 <= c < n :: order[c];
    if n > 0 {
      PrefixSize(p, order, n - 1);
      var shorter := set c | 0 <= c < n - 1 :: order[c];
      assert order[n - 1] !in shorter;
      assert prefix == shorter + {order[n - 1]};
    }
  }

  /** At least `c + 1` values are at most the one at position `c`. */
  lemma {:induction false} RankAtLeast(p: seq<real>, order: seq<nat>, c: nat)
    requires IsArgsort(p, order) && c < |p|
    ensures c + 1 <= AtMost(p, p[order[c]])
  {
    var prefix := set b | 0 <= b < c + 1 :: order[b];
    PrefixSize(p, order, c + 1);
    var below := set l | 0 <= l < |p| && p[l] <= p[order[c]];
    assert prefix <= below;
    SubsetSize(prefix, below);
  }

  lemma {:induction false} SubsetSize(a: set<nat>, b: set<nat>)
    requires a <= b
    ensures |a| <= |b|
  {
    assert b == a + (b - a);
  }

  /** The last position with the value `x` has exactly the values up to `x` before it. */
  lemma {:induction false} LastPosition(p: seq<real>, order: seq<nat>, j: nat) returns (c: nat)
    requires IsArgsort(p, order) && j < |p|
    ensures c < |p| && p[order[c]] == p[j] && AtMost(p, p[j]) == c + 1
    ensures forall b | 0 <= b < |p| && p[order[b]] <= p[j] :: b <= c
  {
    assert j in order;
    c :| 0 <= c < |order| && order[c] == j;
    while c + 1 < |p| && p[order[c + 1]] == p[j]
      invariant c < |p| && p[order[c]] == p[j]
    {
      c := c + 1;
    }
    assert c + 1 < |p| ==> p[order[c]] < p[order[c + 1]];
    assert forall b | 0 <= b < |p| && p[order[b]] <= p[j] :: b <= c;
    var prefix := set b | 0 <= b < c + 1 :: order[b];
    PrefixSize(p, order, c + 1);
    var below := set l | 0 <= l < |p| && p[l] <= p[j];
    forall l ensures l in prefix <==> l in below {
      if l in below {
        assert l in order;
        var b :| 0 <= b < |order| && order[b] == l;
        assert b <= c;
      }
    }
    assert prefix == below;
  }

  lemma {:induction false} HigherRankPasses(m: nat, alpha: real, x: real, low: nat, high: nat)
    requires 0.0 <= alpha && low <= high && Within(m, alpha, x, low)
    ensures Within(m, alpha, x, high)
  {
    assert alpha * (high - low) as real >= 0.0;
  }

  lemma {:induction false} PassesMeansRejects(p: seq<real>, order: seq<nat>, alpha: real, k: nat, b: nat)
    requires IsArgsort(p, order) && 0.0 <= alpha && b < k <= |p| && PassesAt(p, order, alpha, k)
    ensures Rejects(p, alpha, order[b])
  {
    RankAtLeast(p, order, k - 1);
    HigherRankPasses(|p|, alpha, p[order[k - 1]], k, AtMost(p, p[order[k - 1]]));
    assert p[order[b]] <= p[order[k - 1]];
  }

  lemma {:induction false} RejectsMeansPasses(p: seq<real>, order: seq<nat>, alpha: real, b: nat) returns (k: nat)
    requires IsArgsort(p, order) && b < |p| && Rejects(p, alpha, order[b])
    ensures b < k <= |p| && PassesAt(p, order, alpha, k)
  {
    var j :| 0 <= j < |p| && p[order[b]] <= p[j] && Within(|p|, alpha, p[j], AtMost(p, p[j]));
    var c := LastPosition(p, order, j);
    k := c + 1;
  }

  /** Main result: thresholding the adjusted values at any level below 1 is the step-up
      procedure, both in its sorted form and in the form that never sorts. */
  lemma {:induction false} AdjustedIsStepUp(p: seq<real>, order: seq<nat>, q: seq<real>, alpha: real, b: nat)
    requires IsArgsort(p, order) && IsAdjusted(p, order, q) && 0.0 <= alpha < 1.0 && b < |p|
    ensures q[order[b]] <= alpha <==> Rejects(p, alpha, order[b])
    ensures q[order[b]] <= alpha <==> b < StepUpCount(p, order, alpha, |p|)
  {
    hide PassesAt, Rejects, SuffixMin, StepUpCount;
    SuffixMinAtMost(p, order, b, alpha);
    if SuffixMin(p, order, b) <= alpha {
      var k :| b < k <= |p| && PassesAt(p, order, alpha, k);
      PassesMeansRejects(p, order, alpha, k, b);
      assert k <= StepUpCount(p, order, alpha, |p|);
    }
    if Rejects(p, alpha, order[b]) {
      var k := RejectsMeansPasses(p, order, alpha, b);
    }
  }

  lemma {:induction false} AdjustedRejects(p: seq<real>, order: seq<nat>, q: seq<real>, alpha: real, i: nat)
    requires IsArgsort(p, order) && IsAdjusted(p, order, q) && 0.0 <= alpha < 1.0 && i < |p|
    ensures q[i] <= alpha <==> Rejects(p, alpha, i)
    ensures 0.0 <= q[i] <= 1.0
  {
    assert i in order;
    var b :| 0 <= b < |order| && order[b] == i;
    AdjustedIsStepUp(p, order, q, alpha, b);
  }

  /** Smaller p-values never get larger adjusted values, and equal ones get equal ones. */
  lemma {:induction false} AdjustedIsMonotone(p: seq<real>, order: seq<nat>, q: seq<real>, i: nat, j: nat)
    requires IsArgsort(p, order) && IsAdjusted(p, order, q) && i < |p| && j < |p| && p[i] <= p[j]
    ensures q[i] <= q[j]
  {
    AdjustedRejects(p, order, q, 0.0, i);
    AdjustedRejects(p, order, q, 0.0, j);
    if q[j] < 1.0 {
      AdjustedRejects(p, order, q, q[j], j);
      AdjustedRejects(p, order, q, q[j], i);
      var w :| 0 <= w < |p| && p[j] <= p[w] && Within(|p|, q[j], p[w], AtMost(p, p[w]));
      assert p[i] <= p[w];
    }
  }

  /** The result does not depend on how `argsort` breaks ties. */
  lemma {:induction false} TieBreakingIsIrrelevant(
      p: seq<real>, order: seq<nat>, order': seq<nat>, q: seq<real>, q': seq<real>)
    requires IsArgsort(p, order) && IsAdjusted(p, order, q)
    requires IsArgsort(p, order') && IsAdjusted(p, order', q')
    ensures q == q'
  {
    forall i | 0 <= i < |p| ensures q[i] == q'[i] {
      NotAbove(p, order, order', q, q', i);
      NotAbove(p, order', order, q', q, i);
    }
  }

  lemma {:induction false} NotAbove(
      p: seq<real>, order: seq<nat>, order': seq<nat>, q: seq<real>, q': seq<real>, i: nat)
    requires IsArgsort(p, order) && IsAdjusted(p, order, q)
    requires IsArgsort(p, order') && IsAdjusted(p, order', q') && i < |p|
    ensures q[i] <= q'[i]
  {
    AdjustedRejects(p, order, q, 0.0, i);
    AdjustedRejects(p, order', q', 0.0, i);
    if q'[i] < 1.0 {
      AdjustedRejects(p, order', q', q'[i], i);
      AdjustedRejects(p, order, q, q'[i], i);
    }
  }
}
