/** What the sweep of backtest/models.py puts at stake and gains, and in which order the trades ask,
    in terms of the trades and the model alone. */
module PositionPricing {
  import Arithmetic
  import opened PositionGuarantees
  import opened PositionSweep
  import opened Sorting
  import opened Wrappers

  // ---- the size of a stake --------------------------------------------------------------------

  /** With whole lots: no stake when there is no price or one lot is too dear; otherwise as many lots
      as the budget holds, and at least one. */
  ghost predicate WholeLots(stake: Option<real>, price: real, budget: real, lotCost: real) {
    && (stake.None? <==> price <= 0.0 || budget < lotCost)
    && (stake.Some? ==> stake.value <= budget < stake.value + lotCost &&
                        exists n: nat :: IsLots(stake.value, lotCost, n))
  }

  ghost predicate IsLots(stake: real, lotCost: real, n: nat) { n >= 1 && stake == n as real * lotCost }

  lemma {:induction false} PositiveTimes(a: real, b: real)
    requires 0.0 < b
    ensures 0.0 < a ==> 0.0 < Times(a, b)
    ensures 0.0 <= a ==> 0.0 <= Times(a, b)
  {
    if 0.0 < a { Arithmetic.PositiveProduct(a, b); }
  }

  lemma {:induction false} WholePart(x: real, k: real, c: real)
    requires 0.0 < c && k <= x < k + 1.0
    ensures Times(k, c) <= Times(x, c) < Times(k, c) + c
    ensures x < 1.0 <==> Times(x, c) < c
  {
    assert Times(x, c) - Times(k, c) == Times(x - k, c);
    assert Times(k, c) + c - Times(x, c) == Times(k + 1.0 - x, c);
    assert c - Times(x, c) == Times(1.0 - x, c);
    assert Times(x, c) - c == Times(x - 1.0, c);
    hide Times;
    PositiveTimes(x - k, c);
    PositiveTimes(k + 1.0 - x, c);
    PositiveTimes(1.0 - x, c);
    PositiveTimes(x - 1.0, c);
  }

  lemma {:induction false} LotsThatFit(budget: real, lotCost: real)
    requires 0.0 < lotCost
    ensures var lots := (budget / lotCost).Floor;
            && Times(lots as real, lotCost) <= budget < Times(lots as real, lotCost) + lotCost
            && (lots <= 0 <==> budget < lotCost)
  {
    var x := budget / lotCost;
    assert Times(x, lotCost) == budget;
    hide Times;
    WholePart(x, x.Floor as real, lotCost);
  }

  lemma {:induction false} AllocationOfLots(budget: real, lotCost: real, minFee: real)
    requires 0.0 < lotCost
    ensures var lots, size := (budget / lotCost).Floor, SizeInLots(budget, lotCost, minFee);
            && (size.Sized? <==> 1 <= lots)
            && (size.Sized? ==> size.allocation == Times(lots as real, lotCost))
  {}

  lemma {:induction false} SizedInLots(budget: real, lotCost: real, minFee: real)
    requires 0.0 < lotCost
    ensures var size := SizeInLots(budget, lotCost, minFee);
            WholeLots(if size.Sized? then Some(size.allocation) else None, 1.0, budget, lotCost)
  {
    var n := (budget / lotCost).Floor;
    assert n >= 1 ==> IsLots(Times(n as real, lotCost), lotCost, n);
    hide SizeInLots, Times, IsLots;
    LotsThatFit(budget, lotCost);
    AllocationOfLots(budget, lotCost, minFee);
  }

  /** A stake: the whole budget, or as many lots as it holds when whole lots are asked for. */
  ghost predicate IsShare(stake: Option<real>, lotSize: int, price: real, budget: real, lotCost: real) {
    if lotSize <= 0 then stake == Some(budget) else WholeLots(stake, price, budget, lotCost)
  }

  /** The money for a trade: its own fraction of the capital if the model heeds it, else the fixed one. */
  ghost predicate IsBudget(m: Model, t: Trade, budget: real) {
    if m.qualityAlloc && t.posCap.Some? then budget == m.capital * t.posCap.value
    else budget == m.capital * m.posCap
  }

  ghost predicate IsStake(m: Model, t: Trade, stake: Option<real>) {
    forall budget | IsBudget(m, t, budget) ::
      IsShare(stake, m.lotSize, t.entryPrice, budget, t.entryPrice * m.lotSize as real)
  }

  lemma {:induction false} StakeIsTheAllocation(m: Model, t: Trade)
    ensures Price(m, t).stake == if Size(m, t).Sized? then Some(Size(m, t).allocation) else None
  {
    hide Size, BaseReturn;
  }

  lemma {:induction false} ShareOfTrade(m: Model, t: Trade, budget: real, lotCost: real)
    requires budget == Budget(m, t) && (m.lotSize > 0 && t.entryPrice > 0.0 ==> lotCost == LotCost(m, t))
    ensures IsShare(Price(m, t).stake, m.lotSize, t.entryPrice, budget, lotCost)
  {
    StakeIsTheAllocation(m, t);
    hide Budget, LotCost, SizeInLots, IsLots, Price;
    if m.lotSize > 0 && t.entryPrice > 0.0 {
      SizedInLots(budget, lotCost, m.minFee);
    }
  }

  lemma {:induction false} BudgetOfTrade(m: Model, t: Trade)
    ensures forall budget :: IsBudget(m, t, budget) <==> budget == Budget(m, t)
  {}

  lemma {:induction false} StakeOfTrade(m: Model, t: Trade)
    ensures IsStake(m, t, Price(m, t).stake)
  {
    BudgetOfTrade(m, t);
    hide Price, Budget;
    ShareOfTrade(m, t, Budget(m, t), t.entryPrice * m.lotSize as real);
  }

  // ---- what it gains --------------------------------------------------------------------------

  /** A stake with the return `net` and flat fees: the money gained, as a share of the capital, and the
      same in percent of the stake. */
  ghost predicate Earns(capital: real, stake: real, net: real, fees: real, gain: real, pnlPct: real) {
    && gain * capital == stake * net - fees
    && (stake != 0.0 ==> pnlPct == 100.0 * gain * capital / stake)
    && (fees == 0.0 ==> pnlPct == 100.0 * net)
  }

  /** What a stake gains: its return after slippage on both sides, less the minimum fee on both sides for
      whole lots. */
  ghost predicate IsGain(m: Model, t: Trade, stake: real, gain: real, pnlPct: real) {
    Earns(m.capital, stake, t.avgPnlPct / 100.0 - 2.0 * m.slippageBps / 10000.0,
          if m.lotSize > 0 && m.minFee > 0.0 then 2.0 * m.minFee else 0.0, gain, pnlPct)
  }

  lemma {:induction false} PercentOfStake(capital: real, stake: real, net: real, drag: real, fees: real, gain: real)
    requires gain * capital == stake * net - fees && stake * drag == fees
    requires fees == 0.0 ==> drag == 0.0
    ensures Earns(capital, stake, net, fees, gain, (net - drag) * 100.0)
  {
    if stake != 0.0 {
      Arithmetic.Distribute(net, -drag, stake);
      assert 100.0 * gain * capital == 100.0 * (gain * capital);
      assert (net - drag) * 100.0 * stake == 100.0 * ((net - drag) * stake);
      Arithmetic.QuotientIs(100.0 * gain * capital, (net - drag) * 100.0, stake);
    }
  }

  lemma {:induction false} DragWithoutFee(m: Model, t: Trade)
    requires Size(m, t).Sized? && (m.lotSize <= 0 || m.minFee <= 0.0)
    ensures Size(m, t).feeDrag == 0.0
  {}

  lemma {:induction false} PercentOfTrade(m: Model, t: Trade)
    requires Price(m, t).stake.Some?
    ensures Size(m, t).Sized? && Price(m, t).stake.value == Size(m, t).allocation
    ensures Price(m, t).pnlPct == (BaseReturn(m, t) - Size(m, t).feeDrag) * 100.0
  {
    hide Size, BaseReturn;
  }

  lemma {:induction false} EarnedByTrade(m: Model, t: Trade)
    requires m.capital != 0.0 && Price(m, t).stake.Some?
    ensures var o := Price(m, t); Earns(m.capital, o.stake.value, BaseReturn(m, t), Fee(m), o.gain, o.pnlPct)
  {
    GainOfOne(m, t);
    SizedStake(m, t);
    PercentOfTrade(m, t);
    if Fee(m) == 0.0 { DragWithoutFee(m, t); }
    hide *;
    PercentOfStake(m.capital, Size(m, t).allocation, BaseReturn(m, t), Size(m, t).feeDrag, Fee(m), Price(m, t).gain);
    StakeOf(Price(m, t));
  }

  lemma {:induction false} StakeOf(o: Order)
    requires o.stake.Some?
    ensures Stake(o) == o.stake.value
  {}

  lemma {:induction false} GainOfTrade(m: Model, t: Trade)
    requires m.capital != 0.0 && Price(m, t).stake.Some?
    ensures var o := Price(m, t); IsGain(m, t, o.stake.value, o.gain, o.pnlPct)
  {
    EarnedByTrade(m, t);
    assert BaseReturn(m, t) == t.avgPnlPct / 100.0 - 2.0 * m.slippageBps / 10000.0;
    assert Fee(m) == if m.lotSize > 0 && m.minFee > 0.0 then 2.0 * m.minFee else 0.0;
    hide Price;
  }

  // ---- the queue ------------------------------------------------------------------------------

  /** A date as a key: later days are greater, and no date comes before every day. */
  ghost predicate IsKey(date: Option<nat>, key: int) {
    key == if date.Some? then date.value + 1 else 0
  }

  /** The occupancy of a trade: from its entry, or from the day after its signal when pending orders
      freeze their money, until its exit. */
  ghost predicate IsOccupancy(m: Model, t: Trade, from: int, until: int) {
    && IsKey(if m.freezePending && t.signalDate.Some? then Some(t.signalDate.value + 1) else t.entryDate, from)
    && IsKey(t.exitDate, until)
  }

  /** Order `a`, made of the i-th trade, asks before order `b`, made of the j-th: by start, then as the
      discipline says, then by exit except at random, and then as the trades were given. */
  ghost predicate AsksBefore(m: Model, draws: nat -> real, a: Order, i: nat, b: Order, j: nat) {
    var later := a.until < b.until || (a.until == b.until && i < j);
    a.from < b.from ||
    (a.from == b.from &&
     match m.queueOrder
     case ByExitDate => later
     case BySymbol => a.trade.symbol < b.trade.symbol || (a.trade.symbol == b.trade.symbol && later)
     case ByRandom => draws(i) < draws(j) || (draws(i) == draws(j) && i < j)
     case ByPriority => b.trade.priority < a.trade.priority || (a.trade.priority == b.trade.priority && later))
  }

  lemma {:induction false} KeysDecide(m: Model, draws: nat -> real, trades: seq<Trade>, i: nat, j: nat)
    requires i < |trades| && j < |trades|
    requires var le, tickets := TicketOrder(m), Tickets(draws, trades);
             le(tickets[i], tickets[j]) && (le(tickets[j], tickets[i]) ==> i < j)
    ensures AsksBefore(m, draws, Price(m, trades[i]), i, Price(m, trades[j]), j)
  {
    PricedKeys(m, trades[i]);
    PricedKeys(m, trades[j]);
    hide Price, Occupy, Exit;
  }

  lemma {:induction false} PricedKeys(m: Model, t: Trade)
    ensures Price(m, t).trade == t && Price(m, t).from == Occupy(m, t) && Price(m, t).until == Exit(t)
    ensures IsOccupancy(m, t, Price(m, t).from, Price(m, t).until)
  {
    hide Size, BaseReturn;
  }

  /** The queue, for every discipline and all draws: each trade once, order k being made of the trade
      at position `at[k]`, with its occupancy; and which of two orders asks first. */
  lemma {:induction false} QueueOfTrades(m: Model, draws: nat -> real, trades: seq<Trade>) returns (at: seq<nat>)
    ensures var q := QueueOfOrders(m, draws, trades);
            && |at| == |q| == |trades|
            && (forall k | 0 <= k < |at| :: at[k] < |trades| && q[k].trade == trades[at[k]])
            && (forall k | 0 <= k < |at| :: IsOccupancy(m, q[k].trade, q[k].from, q[k].until))
            && (forall k, l | 0 <= k < l < |at| :: at[k] != at[l])
            && (forall k, l | 0 <= k < l < |at| :: AsksBefore(m, draws, q[k], at[k], q[l], at[l]))
  {
    var le, tickets := TicketOrder(m), Tickets(draws, trades);
    TicketOrderIsTotal(m);
    at := SortIsStable(le, tickets);
    var q := QueueOfOrders(m, draws, trades);
    assert |q| == |at|;
    forall k | 0 <= k < |at|
      ensures at[k] < |trades| && q[k] == Price(m, trades[at[k]]) && q[k].trade == trades[at[k]]
      ensures IsOccupancy(m, q[k].trade, q[k].from, q[k].until)
    {
      PricedKeys(m, trades[at[k]]);
    }
    hide Price, TicketOrder, AsksBefore, IsOccupancy;
    forall k, l | 0 <= k < l < |at| ensures AsksBefore(m, draws, q[k], at[k], q[l], at[l]) {
      KeysDecide(m, draws, trades, at[k], at[l]);
    }
  }

  /** Every order of the queue has the stake of its trade, and gains what the stake earns. */
  lemma {:induction false} OrdersArePriced(m: Model, draws: nat -> real, trades: seq<Trade>, k: nat)
    requires k < |QueueOfOrders(m, draws, trades)|
    ensures var o := QueueOfOrders(m, draws, trades)[k];
            && IsStake(m, o.trade, o.stake)
            && (o.stake.Some? && m.capital != 0.0 ==> IsGain(m, o.trade, o.stake.value, o.gain, o.pnlPct))
  {
    var t := Queue(m, draws, trades)[k];
    assert QueueOfOrders(m, draws, trades)[k] == Price(m, t);
    PricedKeys(m, t);
    StakeOfTrade(m, t);
    hide Price, IsStake, IsGain;
    if Price(m, t).stake.Some? && m.capital != 0.0 { GainOfTrade(m, t); }
  }

  // ---- the curve ------------------------------------------------------------------------------

  /** Point k of the curve stands at the exit of the k-th order taken, and adds its rr and its gain to
      the point before, the start being 0 and 1. */
  lemma {:induction false} CurvePoints(os: seq<Order>, k: nat)
    requires k < |os|
    ensures var curve := CurveOf(os);
            && curve[k].date == os[k].until && curve[k].pnlPct == os[k].pnlPct
            && curve[k].equity == (if k == 0 then 1.0 else curve[k - 1].equity) + os[k].gain
            && curve[k].cumulativeRr == (if k == 0 then 0.0 else curve[k - 1].cumulativeRr) + os[k].trade.rr
            && OriginalTrades(os)[k] == os[k].trade
  {
    if k < |os| - 1 {
      CurvePoints(os[..|os| - 1], k);
    } else if k > 0 {
      var front := os[..k];
      assert CurveOf(os)[k - 1] == CurveOf(front)[k - 1];
    } else {
      assert os[..0] == [];
    }
  }
}
