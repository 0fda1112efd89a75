/** What the portfolio sweep of backtest/models.py guarantees at every instant, although
    it only looks at its limits when a trade enters. */
module PositionGuarantees {
  import opened Wrappers

  import Arithmetic
  import opened PositionSweep
  import Sorting

  /** The orders that occupy a slot at instant `t`. */
  function OpenAt(os: seq<Order>, t: int): (r: seq<Order>) {
    if os == [] then []
    else
      var front := OpenAt(os[..|os| - 1], t);
      var last := os[|os| - 1];
      if last.from <= t < last.until then front + [last] else front
  }

  ghost predicate NonNegativeStakes(os: seq<Order>) {
    forall o | o in os :: 0.0 <= Stake(o)
  }

  lemma {:induction false} StillOpenShrinks(os: seq<Order>, early: int, late: int)
    requires early <= late
    ensures |StillOpen(os, late)| <= |StillOpen(os, early)|
    ensures NonNegativeStakes(os) ==> Staked(StillOpen(os, late)) <= Staked(StillOpen(os, early))
  {
    if os != [] {
      var front, last := os[..|os| - 1], os[|os| - 1];
      assert last in os;
      StillOpenShrinks(front, early, late);
      TakenAppend(StillOpen(front, late), last);
      TakenAppend(StillOpen(front, early), last);
      assert forall o | o in front :: o in os;
    }
  }

  lemma {:induction false} TakenAreQueued(m: Model, q: seq<Order>, n: nat, o: Order)
    requires n <= |q| && o in TakenOf(m, q, n)
    ensures o in q[..n] && o in q && o.stake.Some?
  {
    if o !in TakenOf(m, q, n - 1) {
      assert o == q[n - 1];
      assert q[..n][n - 1] == o;
    } else {
      TakenAreQueued(m, q, n - 1, o);
      assert q[..n - 1] <= q[..n];
    }
  }

  lemma {:induction false} TakenStakes(m: Model, q: seq<Order>, n: nat)
    requires n <= |q| && NonNegativeStakes(q)
    ensures NonNegativeStakes(TakenOf(m, q, n))
  {
    forall o | o in TakenOf(m, q, n) ensures 0.0 <= Stake(o) { TakenAreQueued(m, q, n, o); }
  }

  lemma {:induction false} AdmittedFits(m: Model, before: seq<Order>, o: Order, key: int)
    requires Admits(m, before, o) && o.from <= key
    ensures m.maxPositions > 0 ==> |StillOpen(before + [o], key)| <= m.maxPositions
    ensures NonNegativeStakes(before) && 0.0 <= Stake(o) ==> Staked(StillOpen(before + [o], key)) <= m.capital
  {
    hide StillOpen, Staked, NonNegativeStakes;
    StillOpenShrinks(before, o.from, key);
    StillOpenAppend(before, o, key);
    TakenAppend(StillOpen(before, key), o);
    assert StillOpen(before, key) + [] == StillOpen(before, key);
  }

  /** Right after any step of the sweep, and at any later key before the next one, the
      holdings respect both limits; the second is that `cash` is never negative. */
  lemma {:induction false} LimitsHoldAfterEachStep(m: Model, q: seq<Order>, n: nat, key: int)
    requires n <= |q| && InOrder(q) && (n > 0 ==> q[n - 1].from <= key)
    ensures m.maxPositions > 0 ==> |StillOpen(TakenOf(m, q, n), key)| <= m.maxPositions
    ensures NonNegativeStakes(q) && 0.0 <= m.capital ==>
              Staked(StillOpen(TakenOf(m, q, n), key)) <= m.capital
  {
    if n == 0 {
      assert StillOpen([], key) == [] && Staked([]) == 0.0;
    } else {
      var before, o := TakenOf(m, q, n - 1), q[n - 1];
      hide StillOpen, Staked, Admits;
      if Admits(m, before, o) {
        AdmittedFits(m, before, o, key);
        if NonNegativeStakes(q) {
          TakenStakes(m, q, n - 1);
          assert o in q;
        }
      } else {
        LimitsHoldAfterEachStep(m, q, n - 1, key);
      }
    }
  }

  /** Orders that started by `t` and are open at `t` are the ones still open after `t`. */
  lemma {:induction false} OpenAtIsStillOpen(os: seq<Order>, t: int)
    requires forall o | o in os :: o.from <= t
    ensures OpenAt(os, t) == StillOpen(os, t)
  {
    if os != [] {
      assert os[|os| - 1] in os;
      assert forall o | o in os[..|os| - 1] :: o in os;
      OpenAtIsStillOpen(os[..|os| - 1], t);
    }
  }

  lemma {:induction false} OpenAtAppend(os: seq<Order>, o: Order, t: int)
    ensures OpenAt(os + [o], t) == OpenAt(os, t) + if o.from <= t < o.until then [o] else []
  {
    assert (os + [o])[..|os|] == os;
  }

  lemma {:induction false} TakenStartedBy(m: Model, q: seq<Order>, n: nat, t: int)
    requires n <= |q| && InOrder(q) && (n > 0 ==> q[n - 1].from <= t)
    ensures forall o | o in TakenOf(m, q, n) :: o.from <= t
  {
    forall o | o in TakenOf(m, q, n) ensures o.from <= t {
      TakenAreQueued(m, q, n, o);
      var i :| 0 <= i < n && q[..n][i] == o;
      assert q[i].from <= q[n - 1].from;
    }
  }

  /** Main result: at every instant, whatever happened in between, the open positions
      number at most `maxPositions` and stake at most `capital`. */
  lemma {:induction false} LimitsHoldAtEveryInstant(m: Model, q: seq<Order>, n: nat, t: int)
    requires n <= |q| && InOrder(q)
    ensures m.maxPositions > 0 ==> |OpenAt(TakenOf(m, q, n), t)| <= m.maxPositions
    ensures NonNegativeStakes(q) && 0.0 <= m.capital ==> Staked(OpenAt(TakenOf(m, q, n), t)) <= m.capital
  {
    if n > 0 {
      if q[n - 1].from <= t {
        TakenStartedBy(m, q, n, t);
        OpenAtIsStillOpen(TakenOf(m, q, n), t);
        LimitsHoldAfterEachStep(m, q, n, t);
      } else {
        LimitsHoldAtEveryInstant(m, q, n - 1, t);
        OpenAtAppend(TakenOf(m, q, n - 1), q[n - 1], t);
      }
    }
  }

  /** A refusal is always forced: at the instant the order wanted to start, it had no
      size, every slot was taken, or the money still free did not cover it. */
  lemma {:induction false} RefusalIsForced(m: Model, q: seq<Order>, n: nat)
    requires n < |q| && InOrder(q) && TakenOf(m, q, n + 1) == TakenOf(m, q, n)
    ensures var open := OpenAt(TakenOf(m, q, n), q[n].from);
            || q[n].stake.None?
            || (m.maxPositions != 0 && |open| >= m.maxPositions)
            || Staked(open) + q[n].stake.value > m.capital
  {
    TakenStartedBy(m, q, n, q[n].from);
    OpenAtIsStillOpen(TakenOf(m, q, n), q[n].from);
    assert !Admits(m, TakenOf(m, q, n), q[n]) by {
      assert |TakenOf(m, q, n) + [q[n]]| != |TakenOf(m, q, n)|;
    }
  }

  // ---- the same at the level of trades --------------------------------------------

  /** Stakes cannot be negative in lot mode; otherwise the fractions must not be. */
  predicate NonNegativeFractions(m: Model, trades: seq<Trade>) {
    m.lotSize > 0 || forall t | t in trades :: 0.0 <= Fraction(m, t)
  }

  lemma {:induction false} StakeNonNegative(m: Model, t: Trade)
    requires 0.0 < m.capital && (m.lotSize > 0 || 0.0 <= Fraction(m, t))
    ensures 0.0 <= Stake(Price(m, t))
  {
    if Size(m, t).Sized? {
      SizedStake(m, t);
      if m.lotSize <= 0 { Arithmetic.ProductNonNegative(m.capital, Fraction(m, t)); }
    }
  }

  lemma {:induction false} QueuedStakes(m: Model, draws: nat -> real, trades: seq<Trade>)
    requires 0.0 < m.capital && NonNegativeFractions(m, trades)
    ensures NonNegativeStakes(QueueOfOrders(m, draws, trades))
  {
    var q := Queue(m, draws, trades);
    QueueIsOrderedRearrangement(m, draws, trades);
    forall o | o in QueueOfOrders(m, draws, trades) ensures 0.0 <= Stake(o) {
      var i :| 0 <= i < |q| && o == Price(m, q[i]);
      assert q[i] in multiset(trades);
      StakeNonNegative(m, q[i]);
    }
  }

  /** For every queue discipline, every random draw and every instant. */
  lemma {:induction false} PortfolioWithinLimits(m: Model, draws: nat -> real, trades: seq<Trade>, t: int)
    requires 0.0 < m.capital
    ensures m.maxPositions > 0 ==>
              |OpenAt(Greedy(m, QueueOfOrders(m, draws, trades)), t)| <= m.maxPositions
    ensures NonNegativeFractions(m, trades) ==>
              Staked(OpenAt(Greedy(m, QueueOfOrders(m, draws, trades)), t)) <= m.capital
  {
    var q := QueueOfOrders(m, draws, trades);
    QueueOfOrdersInOrder(m, draws, trades);
    if NonNegativeFractions(m, trades) { QueuedStakes(m, draws, trades); }
    LimitsHoldAtEveryInstant(m, q, |q|, t);
  }

  // ---- accounting -----------------------------------------------------------------

  /** Money won by an order before the minimum fee. */
  function Gross(m: Model, o: Order): real { Stake(o) * BaseReturn(m, o.trade) }

  function GrossProfit(m: Model, os: seq<Order>): real {
    if os == [] then 0.0 else GrossProfit(m, os[..|os| - 1]) + Gross(m, os[|os| - 1])
  }

  /** The fee that one admitted order pays: twice the minimum fee in lot mode. */
  function Fee(m: Model): real {
    if m.lotSize > 0 && m.minFee > 0.0 then 2.0 * m.minFee else 0.0
  }

  /** The money won: the gross profit less one flat fee per order. */
  function NetProfit(m: Model, os: seq<Order>): real {
    GrossProfit(m, os) - Fee(m) * |os| as real
  }

  ghost predicate Priced(m: Model, os: seq<Order>) {
    m.capital != 0.0 && forall o | o in os :: o == Price(m, o.trade)
  }

  lemma {:induction false} LotSizing(budget: real, lotCost: real, minFee: real)
    requires 0.0 < lotCost && SizeInLots(budget, lotCost, minFee).Sized?
    ensures var size := SizeInLots(budget, lotCost, minFee);
            && 0.0 < size.allocation <= budget
            && size.allocation * size.feeDrag == if minFee > 0.0 then 2.0 * minFee else 0.0
  {
    var lots := (budget / lotCost).Floor as real;
    Arithmetic.PositiveProduct(lots, lotCost);
    Arithmetic.Quotient(2.0 * minFee, lots * lotCost);
    Arithmetic.Quotient(budget, lotCost);
    Arithmetic.ProductNonNegative(budget / lotCost - lots, lotCost);
    Arithmetic.Distribute(budget / lotCost, -lots, lotCost);
  }

  lemma {:induction false} SizedStake(m: Model, t: Trade)
    requires Size(m, t).Sized?
    ensures m.lotSize > 0 ==> 0.0 < Size(m, t).allocation
    ensures Size(m, t).allocation <= Budget(m, t)
    ensures Size(m, t).allocation * Size(m, t).feeDrag == Fee(m)
  {
    if m.lotSize > 0 {
      LotSizing(Budget(m, t), LotCost(m, t), m.minFee);
    }
  }

  lemma {:induction false} PriceOf(m: Model, t: Trade)
    requires m.capital != 0.0 && Price(m, t).stake.Some?
    ensures Size(m, t).Sized? && Stake(Price(m, t)) == Size(m, t).allocation && Price(m, t).trade == t
    ensures Price(m, t).gain == Size(m, t).allocation * (BaseReturn(m, t) - Size(m, t).feeDrag) / m.capital
  {}

  lemma {:induction false} GainOfOne(m: Model, t: Trade)
    requires m.capital != 0.0 && Price(m, t).stake.Some?
    ensures Price(m, t).gain * m.capital == Stake(Price(m, t)) * BaseReturn(m, t) - Fee(m)
  {
    PriceOf(m, t);
    SizedStake(m, t);
    hide *;
    var size := Size(m, t);
    Arithmetic.Quotient(size.allocation * (BaseReturn(m, t) - size.feeDrag), m.capital);
    Arithmetic.Distribute(BaseReturn(m, t), -size.feeDrag, size.allocation);
  }

  lemma {:induction false} LastGross(m: Model, os: seq<Order>)
    ensures os == [] ==> GrossProfit(m, os) == 0.0 && TotalGain(os) == 0.0
    ensures os != [] ==> GrossProfit(m, os) == GrossProfit(m, os[..|os| - 1]) + Gross(m, os[|os| - 1])
  {
    hide Gross;
  }

  lemma {:induction false} NetProfitOf(m: Model, os: seq<Order>)
    ensures NetProfit(m, os) == GrossProfit(m, os) - Fee(m) * |os| as real
  {
    hide GrossProfit, Fee;
  }

  lemma {:induction false} PricedLast(m: Model, os: seq<Order>)
    requires Priced(m, os) && os != []
    ensures Priced(m, os[..|os| - 1]) && m.capital != 0.0
    ensures os[|os| - 1] == Price(m, os[|os| - 1].trade)
    ensures Gross(m, os[|os| - 1]) == Stake(os[|os| - 1]) * BaseReturn(m, os[|os| - 1].trade)
  {
    hide BaseReturn, Stake;
    assert forall o | o in os[..|os| - 1] :: o in os;
  }

  /** The curve ends at 1 plus the gross profit less one flat fee per taken trade, both as
      a share of the capital; nothing is compounded. */
  lemma {:induction false} FinalEquity(m: Model, os: seq<Order>)
    requires Priced(m, os) && forall o | o in os :: o.stake.Some?
    ensures TotalGain(os) * m.capital == NetProfit(m, os)
  {
    hide *;
    LastGross(m, os);
    NetProfitOf(m, os);
    if os != [] {
      var front, last := os[..|os| - 1], os[|os| - 1];
      PricedLast(m, os);
      LastOrder(os);
      NetProfitOf(m, front);
      FinalEquity(m, front);
      GainOfOne(m, last.trade);
      AddUp(TotalGain(front), last.gain, m.capital, GrossProfit(m, front), Gross(m, last), Fee(m), |front|);
    }
  }

  lemma {:induction false} AddUp(a: real, b: real, capital: real, grossA: real, grossB: real, fee: real, n: nat)
    requires a * capital == grossA - fee * n as real && b * capital == grossB - fee
    ensures (a + b) * capital == grossA + grossB - fee * (n + 1) as real
  {
    Arithmetic.Distribute(a, b, capital);
    Arithmetic.Distribute(n as real, 1.0, fee);
  }

  lemma {:induction false} TakenArePriced(m: Model, draws: nat -> real, trades: seq<Trade>)
    requires m.capital != 0.0
    ensures Priced(m, Greedy(m, QueueOfOrders(m, draws, trades)))
    ensures forall o | o in Greedy(m, QueueOfOrders(m, draws, trades)) :: o.stake.Some?
  {
    var q := QueueOfOrders(m, draws, trades);
    forall o | o in Greedy(m, q) ensures o == Price(m, o.trade) && o.stake.Some? {
      TakenAreQueued(m, q, |q|, o);
    }
  }

  lemma {:induction false} FinalEquityOfReplay(m: Model, draws: nat -> real, trades: seq<Trade>)
    requires m.capital != 0.0
    ensures var taken := Greedy(m, QueueOfOrders(m, draws, trades));
            taken != [] ==>
              CurveOf(taken)[|taken| - 1].equity == 1.0 + NetProfit(m, taken) / m.capital
  {
    hide *;
    var taken := Greedy(m, QueueOfOrders(m, draws, trades));
    TakenArePriced(m, draws, trades);
    if taken != [] {
      LastOrder(taken);
      FinalEquity(m, taken);
      Arithmetic.QuotientIs(NetProfit(m, taken), TotalGain(taken), m.capital);
    }
  }

  // ---- a model whose cash test is redundant -----------------------------------------

  lemma {:induction false} StakeWithinBudget(m: Model, t: Trade)
    requires 0.0 < m.capital && !m.qualityAlloc && 0.0 <= m.posCap
    ensures Stake(Price(m, t)) <= m.capital * m.posCap
  {
    Arithmetic.ProductNonNegative(m.capital, m.posCap);
    if Size(m, t).Sized? { SizedStake(m, t); }
  }

  lemma {:induction false} StakedAtMost(os: seq<Order>, each: real)
    requires forall o | o in os :: Stake(o) <= each
    ensures Staked(os) <= |os| as real * each
  {
    if os != [] {
      hide *;
      LastOrder(os);
      StakedAtMost(os[..|os| - 1], each);
      Arithmetic.Distribute((|os| - 1) as real, 1.0, each);
    } else {
      assert Staked(os) == 0.0;
    }
  }

  lemma {:induction false} StillOpenMember(os: seq<Order>, key: int, o: Order)
    requires o in StillOpen(os, key)
    ensures o in os
  {
    if o in StillOpen(os[..|os| - 1], key) { StillOpenMember(os[..|os| - 1], key, o); }
  }

  lemma {:induction false} PricedMember(m: Model, os: seq<Order>, o: Order)
    requires Priced(m, os) && o in os
    ensures o == Price(m, o.trade)
  {}

  lemma {:induction false} OpenStakesWithinBudgets(m: Model, q: seq<Order>, n: nat, key: int)
    requires n <= |q| && Priced(m, q) && 0.0 < m.capital && !m.qualityAlloc && 0.0 <= m.posCap
    ensures var open := StillOpen(TakenOf(m, q, n), key);
            Staked(open) <= |open| as real * (m.capital * m.posCap)
  {
    hide *;
    var open := StillOpen(TakenOf(m, q, n), key);
    forall o | o in open ensures Stake(o) <= m.capital * m.posCap {
      StillOpenMember(TakenOf(m, q, n), key, o);
      TakenAreQueued(m, q, n, o);
      PricedMember(m, q, o);
      StakeWithinBudget(m, o.trade);
    }
    StakedAtMost(open, m.capital * m.posCap);
  }

  lemma {:induction false} FreeSlot(m: Model, open: seq<Order>, o: Order)
    requires m.maxPositions > 0 && SlotFree(m, open) && o.stake.Some?
    ensures |open| + 1 <= m.maxPositions && Stake(o) == o.stake.value
  {}

  lemma {:induction false} StakeFits(m: Model, q: seq<Order>, n: nat)
    requires n < |q| && Priced(m, q) && 0.0 < m.capital && !m.qualityAlloc && 0.0 <= m.posCap
    requires m.maxPositions > 0 && m.maxPositions as real * m.posCap <= 1.0
    requires SlotFree(m, StillOpen(TakenOf(m, q, n), q[n].from)) && q[n].stake.Some?
    ensures q[n].stake.value <= m.capital - Staked(StillOpen(TakenOf(m, q, n), q[n].from))
  {
    hide *;
    var open := StillOpen(TakenOf(m, q, n), q[n].from);
    var o := q[n];
    FreeSlot(m, open, o);
    OpenStakesWithinBudgets(m, q, n, o.from);
    PricedMember(m, q, o);
    StakeWithinBudget(m, o.trade);
    BudgetFits(|open| as real, m.maxPositions as real, m.posCap, m.capital, Staked(open), Stake(o));
  }

  /** With one fixed fraction and maxPositions * posCap <= 1, cash is never the reason for
      a refusal: a sized order enters exactly when a slot is free. */
  lemma {:induction false} CashNeverRefuses(m: Model, q: seq<Order>, n: nat)
    requires n < |q| && Priced(m, q) && 0.0 < m.capital && !m.qualityAlloc && 0.0 <= m.posCap
    requires m.maxPositions > 0 && m.maxPositions as real * m.posCap <= 1.0
    ensures Admits(m, TakenOf(m, q, n), q[n]) <==>
            SlotFree(m, StillOpen(TakenOf(m, q, n), q[n].from)) && q[n].stake.Some?
  {
    if SlotFree(m, StillOpen(TakenOf(m, q, n), q[n].from)) && q[n].stake.Some? {
      StakeFits(m, q, n);
    }
  }

  lemma {:induction false} BudgetFits(held: real, slots: real, posCap: real, capital: real, staked: real, stake: real)
    requires 0.0 <= held && held + 1.0 <= slots && 0.0 <= posCap && 0.0 < capital && slots * posCap <= 1.0
    requires staked <= held * (capital * posCap) && stake <= capital * posCap
    ensures stake <= capital - staked
  {
    Arithmetic.ProductNonNegative(capital, posCap);
    Arithmetic.ProductNonNegative(slots - held - 1.0, capital * posCap);
    Arithmetic.ProductNonNegative(capital, 1.0 - slots * posCap);
    assert slots * (capital * posCap) == capital * (slots * posCap);
  }

  /** At least two trades can be open at once. */
  predicate RoomForTwo(m: Model) { m.maxPositions == 0 || 2 <= m.maxPositions }

  lemma {:induction false} BothEnter(m: Model, a: Order, b: Order)
    requires RoomForTwo(m) && a.stake.Some? && b.stake.Some? && a.until > b.from
    requires a.stake.value <= m.capital && b.stake.value <= m.capital - a.stake.value
    ensures Greedy(m, [a, b]) == [a, b]
  {
    var q := [a, b];
    assert TakenOf(m, q, 1) == [a] by { assert StillOpen([], a.from) == [] && Staked([]) == 0.0; }
    assert StillOpen([a], b.from) == [a] && Staked([a]) == a.stake.value by {
      StillOpenAppend([], a, b.from);
      TakenAppend([], a);
      assert [] + [a] == [a];
    }
    assert Admits(m, [a], b);
  }

  /** Two trades, the first sorting ahead of the second, queue in that order. */
  lemma {:induction false} QueueOfTwo(m: Model, draws: nat -> real, t: Trade, u: Trade)
    requires TicketOrder(m)(Ticket(draws(0), t), Ticket(draws(1), u))
    ensures QueueOfOrders(m, draws, [t, u]) == [Price(m, t), Price(m, u)]
  {
    var le, tickets := TicketOrder(m), Tickets(draws, [t, u]);
    hide TicketOrder, Price;
    var a, b := Ticket(draws(0), t), Ticket(draws(1), u);
    assert tickets == [a, b] && tickets[1..] == [b];
    assert [b][1..] == [];
    assert Sorting.Sort(le, [b]) == [b];
    assert Sorting.Sort(le, tickets) == [a, b];
  }

  lemma {:induction false} LentStake(m: Model, a: Order, b: Order)
    requires RoomForTwo(m) && 0.0 < m.capital && a.stake.Some? && b.stake.Some?
    requires a.stake.value < 0.0 && b.stake.value == m.capital - a.stake.value
    requires a.from == b.from && a.from < a.until < b.until
    ensures Staked(OpenAt(Greedy(m, [a, b]), a.until)) == b.stake.value
  {
    BothEnter(m, a, b);
    OpenAtAppend([], a, a.until);
    OpenAtAppend([a], b, a.until);
    TakenAppend([], b);
    assert [] + [a] == [a] && [a] + [b] == [a, b] && [] + [b] == [b];
    assert Staked([]) == 0.0 && OpenAt([], a.until) == [];
  }

  /** The trade that borrows what a negative stake lends: same start, one day longer. */
  function Borrower(m: Model, t: Trade): Trade
    requires t.exitDate.Some?
  {
    t.(exitDate := Some(t.exitDate.value + 1), posCap := Some(1.0 - Fraction(m, t)))
  }

  lemma {:induction false} StakeWithoutLots(m: Model, t: Trade)
    requires m.lotSize <= 0
    ensures Price(m, t).stake == Some(Budget(m, t)) && Budget(m, t) == m.capital * Fraction(m, t)
  {
    BudgetOf(m, t);
    hide Budget, Fraction;
  }

  lemma {:induction false} BudgetOf(m: Model, t: Trade)
    ensures Budget(m, t) == m.capital * Fraction(m, t)
  {
    hide Fraction;
  }

  lemma {:induction false} BorrowerBreaksTheBound(m: Model, draws: nat -> real, t: Trade)
    requires 0.0 < m.capital && m.lotSize <= 0 && m.qualityAlloc && RoomForTwo(m)
    requires Occupy(m, t) < Exit(t) && Fraction(m, t) < 0.0 && draws(0) <= draws(1)
    ensures t.exitDate.Some? && 0.0 <= Fraction(m, Borrower(m, t))
    ensures Staked(OpenAt(Greedy(m, QueueOfOrders(m, draws, [t, Borrower(m, t)])), Exit(t))) > m.capital
  {
    assert 0 <= Occupy(m, t);
    var u := Borrower(m, t);
    var a, b := Price(m, t), Price(m, u);
    QueueOfTwo(m, draws, t, u);
    BorrowedStakes(m.capital, Fraction(m, t));
    StakeWithoutLots(m, t);
    StakeWithoutLots(m, u);
    assert Fraction(m, u) == 1.0 - Fraction(m, t);
    LentStake(m, a, b);
  }

  lemma {:induction false} BorrowedStakes(capital: real, fraction: real)
    requires 0.0 < capital && fraction < 0.0
    ensures capital * fraction < 0.0
    ensures capital * (1.0 - fraction) == capital - capital * fraction
  {
    Arithmetic.NegativeProduct(fraction, capital);
    Arithmetic.Distribute(1.0, -fraction, capital);
  }

  /** The money bound needs non-negative fractions, exactly: with quality allocation and room for
      two trades, a trade that occupies any time at all keeps every pairing with an ordinary trade
      within the capital, at every instant, if and only if its own fraction is not negative. */
  lemma {:induction false} NegativeFractionBreaksTheBound(m: Model, t: Trade)
    requires 0.0 < m.capital && m.lotSize <= 0 && m.qualityAlloc && RoomForTwo(m)
    requires Occupy(m, t) < Exit(t)
    ensures 0.0 <= Fraction(m, t) <==>
            forall draws: nat -> real, u: Trade, at: int | 0.0 <= Fraction(m, u) ::
              Staked(OpenAt(Greedy(m, QueueOfOrders(m, draws, [t, u])), at)) <= m.capital
  {
    hide Greedy, QueueOfOrders, OpenAt, Staked;
    if 0.0 <= Fraction(m, t) {
      forall draws: nat -> real, u: Trade, at: int | 0.0 <= Fraction(m, u)
        ensures Staked(OpenAt(Greedy(m, QueueOfOrders(m, draws, [t, u])), at)) <= m.capital {
        assert NonNegativeFractions(m, [t, u]);
        PortfolioWithinLimits(m, draws, [t, u], at);
      }
    } else {
      var draws: nat -> real := _ => 0.0;
      BorrowerBreaksTheBound(m, draws, t);
      var u := Borrower(m, t);
      assert Staked(OpenAt(Greedy(m, QueueOfOrders(m, draws, [t, u])), Exit(t))) > m.capital;
    }
  }

  // ---- the order of the curve ---------------------------------------------------------

  ghost predicate DatesAscending(curve: seq<Point>) {
    forall i, j | 0 <= i < j < |curve| :: curve[i].date <= curve[j].date
  }

  /** No order that starts later ends strictly earlier. */
  ghost predicate NoNesting(q: seq<Order>) {
    forall i, j | 0 <= i < |q| && 0 <= j < |q| && q[i].from < q[j].from :: q[i].until <= q[j].until
  }

  /** Simultaneous starts queue by exit, as the default discipline arranges. */
  ghost predicate TiesByExit(q: seq<Order>) {
    forall i, j | 0 <= i < j < |q| && q[i].from == q[j].from :: q[i].until <= q[j].until
  }

  ghost predicate UntilAscending(os: seq<Order>) {
    forall i, j | 0 <= i < j < |os| :: os[i].until <= os[j].until
  }

  lemma {:induction false} CurveDate(os: seq<Order>, i: nat)
    requires i < |os|
    ensures CurveOf(os)[i].date == os[i].until
  {
    if i < |os| - 1 { CurveDate(os[..|os| - 1], i); }
  }

  lemma {:induction false} CurveDates(os: seq<Order>)
    ensures DatesAscending(CurveOf(os)) <==> UntilAscending(os)
  {
    forall i | 0 <= i < |os| ensures CurveOf(os)[i].date == os[i].until { CurveDate(os, i); }
  }

  lemma {:induction false} TakenAscending(m: Model, q: seq<Order>, n: nat)
    requires n <= |q| && UntilAscending(q)
    ensures UntilAscending(TakenOf(m, q, n))
    ensures forall k | n <= k < |q| :: forall o | o in TakenOf(m, q, n) :: o.until <= q[k].until
  {
    if n > 0 { TakenAscending(m, q, n - 1); }
  }

  lemma {:induction false} AscendingIffNotNested(q: seq<Order>)
    requires InOrder(q)
    ensures UntilAscending(q) <==> NoNesting(q) && TiesByExit(q)
  {
    if UntilAscending(q) {
      forall i, j | 0 <= i < |q| && 0 <= j < |q| && q[i].from < q[j].from ensures q[i].until <= q[j].until {
        assert i < j;
      }
    }
    if NoNesting(q) && TiesByExit(q) {
      forall i, j | 0 <= i < j < |q| ensures q[i].until <= q[j].until {
        assert q[i].from < q[j].from || q[i].from == q[j].from;
      }
    }
  }

  lemma {:induction false} TakenKeepsTheQueue(m: Model, q: seq<Order>, n: nat)
    requires n <= |q| && InOrder(q)
    ensures InOrder(TakenOf(m, q, n)) && (TiesByExit(q) ==> TiesByExit(TakenOf(m, q, n)))
    ensures forall o | o in TakenOf(m, q, n) :: exists k :: 0 <= k < n && q[k] == o
  {
    if n > 0 {
      TakenKeepsTheQueue(m, q, n - 1);
      var before, o := TakenOf(m, q, n - 1), q[n - 1];
      forall i | 0 <= i < |before|
        ensures before[i].from <= o.from
        ensures TiesByExit(q) && before[i].from == o.from ==> before[i].until <= o.until {
        assert before[i] in before;
        var k :| 0 <= k < n - 1 && q[k] == before[i];
      }
    }
  }

  /** `build_equity_curve` promises a curve by ascending exit date but writes it in admission
      order. Under every discipline the promise is kept exactly when no taken trade is nested in an
      earlier one and simultaneous starts were taken by exit; under the default discipline the
      second holds by itself. There no nesting in the whole queue is enough, and it is needed when
      nothing is refused. */
  lemma {:induction false} CurveOrder(m: Model, q: seq<Order>)
    requires InOrder(q)
    ensures DatesAscending(CurveOf(Greedy(m, q))) <==> NoNesting(Greedy(m, q)) && TiesByExit(Greedy(m, q))
    ensures TiesByExit(q) ==> (DatesAscending(CurveOf(Greedy(m, q))) <==> NoNesting(Greedy(m, q)))
    ensures TiesByExit(q) && NoNesting(q) ==> DatesAscending(CurveOf(Greedy(m, q)))
    ensures TiesByExit(q) && Greedy(m, q) == q ==> (DatesAscending(CurveOf(Greedy(m, q))) <==> NoNesting(q))
  {
    AscendingIffNotNested(q);
    CurveDates(Greedy(m, q));
    TakenKeepsTheQueue(m, q, |q|);
    AscendingIffNotNested(Greedy(m, q));
    if NoNesting(q) && TiesByExit(q) { TakenAscending(m, q, |q|); }
  }

  lemma {:induction false} DefaultQueueOrdersTies(m: Model, draws: nat -> real, trades: seq<Trade>)
    requires m.queueOrder == ByExitDate
    ensures TiesByExit(QueueOfOrders(m, draws, trades))
  {
    var le, tickets := TicketOrder(m), Tickets(draws, trades);
    TicketOrderIsTotal(m);
    Sorting.SortIsSortedPermutation(le, tickets);
    var sorted, q := Sorting.Sort(le, tickets), QueueOfOrders(m, draws, trades);
    forall i, j | 0 <= i < j < |q| && q[i].from == q[j].from ensures q[i].until <= q[j].until {
      assert le(sorted[i], sorted[j]);
      assert q[i].trade == sorted[i].trade && q[j].trade == sorted[j].trade;
    }
  }

  /** Two trades that are both taken, the second nested in the first: whatever the discipline and
      the draws, their curve is not in exit order. */
  lemma {:induction false} CurveOutOfOrder(m: Model, draws: nat -> real)
    requires 0.0 < m.capital && m.lotSize <= 0 && 0.0 <= m.posCap <= 0.5 && RoomForTwo(m)
    ensures var outer := Trade(1, None, Some(1), Some(9), 1.0, 0.0, 0.0, None, 0.0);
            var inner := Trade(2, None, Some(2), Some(5), 1.0, 0.0, 0.0, None, 0.0);
            !DatesAscending(CurveOf(Greedy(m, QueueOfOrders(m, draws, [outer, inner]))))
  {
    var outer := Trade(1, None, Some(1), Some(9), 1.0, 0.0, 0.0, None, 0.0);
    var inner := Trade(2, None, Some(2), Some(5), 1.0, 0.0, 0.0, None, 0.0);
    hide Price, Budget, Fraction, Size, BaseReturn;
    var a, b := Price(m, outer), Price(m, inner);
    QueueOfTwo(m, draws, outer, inner);
    PlainTrade(m, outer);
    PlainTrade(m, inner);
    BothEnter(m, a, b);
    CurveDates([a, b]);
    assert [a, b][0].until > [a, b][1].until;
  }

  lemma {:induction false} PlainTrade(m: Model, t: Trade)
    requires 0.0 < m.capital && m.lotSize <= 0 && 0.0 <= m.posCap <= 0.5 && t.posCap.None? && t.signalDate.None?
    ensures Price(m, t).stake.Some? && 2.0 * Price(m, t).stake.value <= m.capital
    ensures Price(m, t).from == Iso(t.entryDate) && Price(m, t).until == Iso(t.exitDate)
  {
    StakeWithoutLots(m, t);
    AtMostHalf(m.capital, Fraction(m, t));
    hide Budget, BaseReturn;
  }

  lemma {:induction false} AtMostHalf(capital: real, fraction: real)
    requires 0.0 < capital && fraction <= 0.5
    ensures 2.0 * (capital * fraction) <= capital
  {
    Arithmetic.ProductNonNegative(capital, 0.5 - fraction);
  }
}
