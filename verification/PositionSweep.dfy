/** backtest/models.py: which trades of a replay enter the portfolio, and the equity
    they produce.  `BuildEquityCurve` is the loop over `cash`, `active` and `equity`;
    `Greedy` is the same selection with no running state at all. */
module PositionSweep {
  import Arithmetic
  import opened Sorting
  import opened Wrappers

  /** A trade record.  Days are numbered from 0; a missing number reads as 0.0. */
  datatype Trade = Trade(
    symbol: int, signalDate: Option<nat>, entryDate: Option<nat>, exitDate: Option<nat>,
    entryPrice: real, avgPnlPct: real, rr: real, posCap: Option<real>, priority: real)

  datatype QueueOrder = ByExitDate | BySymbol | ByRandom | ByPriority

  datatype Model = Model(
    capital: real, posCap: real, maxPositions: int, slippageBps: real, lotSize: int,
    minFee: real, freezePending: bool, qualityAlloc: bool, queueOrder: QueueOrder, riskFrac: Option<real>)

  /** Dates are compared as text, and a missing date is the empty text: before every day. */
  function Iso(d: Option<nat>): int {
    match d
    case None => 0
    case Some(day) => day + 1
  }

  function Exit(t: Trade): int { Iso(t.exitDate) }

  /** The first instant at which the trade occupies a slot and its money. */
  function Occupy(m: Model, t: Trade): int {
    if m.freezePending && t.signalDate.Some? then Iso(Some(t.signalDate.value + 1)) else Iso(t.entryDate)
  }

  // ---- the queue -----------------------------------------------------------------

  datatype Ticket = Ticket(draw: real, trade: Trade)
  datatype Key = Key(occupy: int, tie: real, exit: int)

  function KeyOf(m: Model, k: Ticket): Key {
    match m.queueOrder
    case ByExitDate => Key(Occupy(m, k.trade), 0.0, Exit(k.trade))
    case BySymbol => Key(Occupy(m, k.trade), k.trade.symbol as real, Exit(k.trade))
    case ByRandom => Key(Occupy(m, k.trade), k.draw, 0)
    case ByPriority => Key(Occupy(m, k.trade), -k.trade.priority, Exit(k.trade))
  }

  predicate KeyLe(a: Key, b: Key) {
    || a.occupy < b.occupy
    || (a.occupy == b.occupy && (a.tie < b.tie || (a.tie == b.tie && a.exit <= b.exit)))
  }

  function TicketOrder(m: Model): (Ticket, Ticket) -> bool {
    (a, b) => KeyLe(KeyOf(m, a), KeyOf(m, b))
  }

  function Tickets(draws: nat -> real, trades: seq<Trade>): (r: seq<Ticket>)
    ensures |r| == |trades|
  {
    seq(|trades|, i requires 0 <= i < |trades| => Ticket(draws(i), trades[i]))
  }

  function Trades(tickets: seq<Ticket>): (r: seq<Trade>)
    ensures |r| == |tickets|
  {
    seq(|tickets|, i requires 0 <= i < |tickets| => tickets[i].trade)
  }

  /** The order in which the trades ask for a slot; `draws` are the seeded random keys. */
  function Queue(m: Model, draws: nat -> real, trades: seq<Trade>): seq<Trade> {
    Trades(Sort(TicketOrder(m), Tickets(draws, trades)))
  }

  lemma {:induction false} TicketOrderIsTotal(m: Model)
    ensures TotalPreorder(TicketOrder(m))
  {
    var le := TicketOrder(m);
    assert forall x, y :: le(x, y) || le(y, x);
    assert forall x, y, z :: le(x, y) && le(y, z) ==> le(x, z);
  }

  /** Whatever the queue discipline and the random draws, the queue is a rearrangement of
      the trades in order of occupancy start. */
  lemma {:induction false} QueueIsOrderedRearrangement(m: Model, draws: nat -> real, trades: seq<Trade>)
    ensures forall i, j | 0 <= i < j < |Queue(m, draws, trades)| ::
              Occupy(m, Queue(m, draws, trades)[i]) <= Occupy(m, Queue(m, draws, trades)[j])
    ensures multiset(Queue(m, draws, trades)) == multiset(trades)
  {
    var tickets := Tickets(draws, trades);
    TicketOrderIsTotal(m);
    SortIsSortedPermutation(TicketOrder(m), tickets);
    TradesOfSort(TicketOrder(m), tickets);
    assert Trades(tickets) == trades;
    var sorted := Sort(TicketOrder(m), tickets);
    forall i, j | 0 <= i < j < |sorted|
      ensures Occupy(m, sorted[i].trade) <= Occupy(m, sorted[j].trade)
    {
      assert TicketOrder(m)(sorted[i], sorted[j]);
    }
  }

  lemma {:induction false} TradesOfInsert(le: (Ticket, Ticket) -> bool, x: Ticket, s: seq<Ticket>)
    ensures multiset(Trades(Insert(le, x, s))) == multiset{x.trade} + multiset(Trades(s))
  {
    assert Trades([x] + s) == [x.trade] + Trades(s);
    if s != [] && !le(x, s[0]) {
      var rest := Insert(le, x, s[1..]);
      TradesOfInsert(le, x, s[1..]);
      assert Trades([s[0]] + rest) == [s[0].trade] + Trades(rest);
      assert Trades(s) == [s[0].trade] + Trades(s[1..]);
    }
  }

  lemma {:induction false} TradesOfSort(le: (Ticket, Ticket) -> bool, s: seq<Ticket>)
    ensures multiset(Trades(Sort(le, s))) == multiset(Trades(s))
  {
    if s != [] {
      TradesOfSort(le, s[1..]);
      TradesOfInsert(le, s[0], Sort(le, s[1..]));
      assert Trades(s) == [s[0].trade] + Trades(s[1..]);
    }
  }

  // ---- pricing one trade ---------------------------------------------------------

  /** What a trade would put at stake: nothing without an entry price or a whole lot. */
  datatype Sizing = NoPrice | NoLot | Sized(allocation: real, feeDrag: real)

  function Fraction(m: Model, t: Trade): real {
    if m.qualityAlloc && t.posCap.Some? then t.posCap.value else m.posCap
  }

  function Budget(m: Model, t: Trade): real { m.capital * Fraction(m, t) }

  /** What one lot costs. */
  function LotCost(m: Model, t: Trade): (r: real)
    requires m.lotSize > 0 && t.entryPrice > 0.0
    ensures 0.0 < r
  {
    Arithmetic.PositiveProduct(t.entryPrice, m.lotSize as real);
    t.entryPrice * m.lotSize as real
  }

  function Size(m: Model, t: Trade): Sizing {
    if m.lotSize <= 0 then Sized(Budget(m, t), 0.0)
    else if t.entryPrice <= 0.0 then NoPrice
    else SizeInLots(Budget(m, t), LotCost(m, t), m.minFee)
  }

  /** Whole lots only; the minimum fee, paid on both sides, becomes a drag on the return. */
  function SizeInLots(budget: real, lotCost: real, minFee: real): Sizing
    requires 0.0 < lotCost
  {
    var lots := (budget / lotCost).Floor;
    if lots <= 0 then NoLot
    else
      var allocation := lots as real * lotCost;
      Sized(allocation, if minFee > 0.0 then 2.0 * minFee / allocation else 0.0)
  }

  /** The return of a trade after slippage on both sides and before the minimum fee. */
  function BaseReturn(m: Model, t: Trade): real {
    t.avgPnlPct / 100.0 - m.slippageBps * 2.0 / 10000.0
  }

  /** A trade with its occupancy interval, its stake (None: cannot be sized), its net
      return in percent and its share of the capital gained; without capital there is no such
      share, and taking the order raises. */
  datatype Order = Order(trade: Trade, from: int, until: int, stake: Option<real>, pnlPct: real, gain: real)

  function Price(m: Model, t: Trade): Order {
    var base := BaseReturn(m, t);
    match Size(m, t)
    case Sized(allocation, drag) =>
      var gain := if m.capital == 0.0 then 0.0 else allocation * (base - drag) / m.capital;
      Order(t, Occupy(m, t), Exit(t), Some(allocation), (base - drag) * 100.0, gain)
    case _ => Order(t, Occupy(m, t), Exit(t), None, base * 100.0, 0.0)
  }

  function PriceAll(m: Model, ts: seq<Trade>): (r: seq<Order>)
    ensures |r| == |ts|
  {
    seq(|ts|, i requires 0 <= i < |ts| => Price(m, ts[i]))
  }

  ghost predicate InOrder(q: seq<Order>) {
    forall i, j | 0 <= i < j < |q| :: q[i].from <= q[j].from
  }

  // ---- the selection without running state ---------------------------------------

  /** The orders that are still held strictly after `key`. */
  function StillOpen(os: seq<Order>, key: int): (r: seq<Order>)
    ensures |r| <= |os|
  {
    if os == [] then []
    else
      var front := StillOpen(os[..|os| - 1], key);
      if os[|os| - 1].until > key then front + [os[|os| - 1]] else front
  }

  function Stake(o: Order): real {
    if o.stake.Some? then o.stake.value else 0.0
  }

  function Staked(os: seq<Order>): real {
    if os == [] then 0.0 else Staked(os[..|os| - 1]) + Stake(os[|os| - 1])
  }

  predicate SlotFree(m: Model, open: seq<Order>) {
    m.maxPositions == 0 || |open| < m.maxPositions
  }

  /** Admission of `o` after `taken`: a free slot, a size, and enough cash. */
  predicate Admits(m: Model, taken: seq<Order>, o: Order) {
    var open := StillOpen(taken, o.from);
    SlotFree(m, open) && o.stake.Some? && o.stake.value <= m.capital - Staked(open)
  }

  /** The orders taken among the first `n` of the queue. */
  function TakenOf(m: Model, q: seq<Order>, n: nat): (r: seq<Order>)
    requires n <= |q|
    ensures |r| <= n
  {
    if n == 0 then []
    else
      var before := TakenOf(m, q, n - 1);
      if Admits(m, before, q[n - 1]) then before + [q[n - 1]] else before
  }

  function Greedy(m: Model, q: seq<Order>): seq<Order> { TakenOf(m, q, |q|) }

  // ---- the sweep of models.py ----------------------------------------------------

  datatype Holding = Holding(symbol: int, allocation: real, exitKey: int)
  datatype Point = Point(date: int, cumulativeRr: real, equity: real, pnlPct: real)
  /** `DividesByZero`: a trade was taken although there is no capital. */
  datatype Report =
    | CurveOnly(curve: seq<Point>)
    | CurveAndTaken(curve: seq<Point>, taken: seq<Trade>)
    | DividesByZero

  function Hold(o: Order): Holding { Holding(o.trade.symbol, Stake(o), o.until) }

  function HoldAll(os: seq<Order>): (r: seq<Holding>)
    ensures |r| == |os|
  {
    seq(|os|, i requires 0 <= i < |os| => Hold(os[i]))
  }

  function Allocated(hs: seq<Holding>): real {
    if hs == [] then 0.0 else Allocated(hs[..|hs| - 1]) + hs[|hs| - 1].allocation
  }

  function Kept(hs: seq<Holding>, key: int): seq<Holding> {
    if hs == [] then []
    else
      var front := Kept(hs[..|hs| - 1], key);
      if hs[|hs| - 1].exitKey > key then front + [hs[|hs| - 1]] else front
  }

  function TotalRr(os: seq<Order>): real {
    if os == [] then 0.0 else TotalRr(os[..|os| - 1]) + os[|os| - 1].trade.rr
  }

  function TotalGain(os: seq<Order>): real {
    if os == [] then 0.0 else TotalGain(os[..|os| - 1]) + os[|os| - 1].gain
  }

  function OriginalTrades(os: seq<Order>): (r: seq<Trade>)
    ensures |r| == |os|
  {
    seq(|os|, i requires 0 <= i < |os| => os[i].trade)
  }

  /** One curve point per taken order, in admission order. */
  function CurveOf(os: seq<Order>): (r: seq<Point>)
    ensures |r| == |os|
  {
    if os == [] then []
    else
      var last := os[|os| - 1];
      CurveOf(os[..|os| - 1]) + [Point(last.until, TotalRr(os), 1.0 + TotalGain(os), last.pnlPct)]
  }

  /** Lazy release is invisible: dropping what expired by an earlier key first changes
      nothing about what is left at a later key. */
  lemma {:induction false} KeptTwice(hs: seq<Holding>, early: int, late: int)
    requires early <= late
    ensures Kept(Kept(hs, early), late) == Kept(hs, late)
  {
    if hs != [] {
      KeptTwice(hs[..|hs| - 1], early, late);
      var front := Kept(hs[..|hs| - 1], early);
      assert (front + [hs[|hs| - 1]])[..|front|] == front;
    }
  }

  lemma {:induction false} KeptAppend(hs: seq<Holding>, h: Holding, key: int)
    ensures Kept(hs + [h], key) == Kept(hs, key) + if h.exitKey > key then [h] else []
    ensures Allocated(hs + [h]) == Allocated(hs) + h.allocation
  {
    assert (hs + [h])[..|hs|] == hs;
  }

  lemma {:induction false} TakenAppend(os: seq<Order>, o: Order)
    ensures TotalGain(os + [o]) == TotalGain(os) + o.gain
    ensures TotalRr(os + [o]) == TotalRr(os) + o.trade.rr
    ensures Staked(os + [o]) == Staked(os) + Stake(o)
  {
    assert (os + [o])[..|os|] == os;
  }

  lemma {:induction false} LastOrder(os: seq<Order>)
    requires os != []
    ensures TotalGain(os) == TotalGain(os[..|os| - 1]) + os[|os| - 1].gain
    ensures Staked(os) == Staked(os[..|os| - 1]) + Stake(os[|os| - 1])
    ensures CurveOf(os)[|os| - 1].equity == 1.0 + TotalGain(os)
    ensures os[|os| - 1] in os && forall o | o in os[..|os| - 1] :: o in os
  {}

  lemma {:induction false} StillOpenAppend(os: seq<Order>, o: Order, key: int)
    ensures StillOpen(os + [o], key) == StillOpen(os, key) + if o.until > key then [o] else []
    ensures HoldAll(os + [o]) == HoldAll(os) + [Hold(o)]
  {
    assert (os + [o])[..|os|] == os;
  }

  lemma {:induction false} KeptIsStillOpen(os: seq<Order>, key: int)
    ensures Kept(HoldAll(os), key) == HoldAll(StillOpen(os, key))
    ensures Allocated(HoldAll(os)) == Staked(os)
  {
    if os != [] {
      var front, last := os[..|os| - 1], os[|os| - 1];
      assert os == front + [last];
      KeptIsStillOpen(front, key);
      TakenAppend(front, last);
      StillOpenAppend(front, last, key);
      StillOpenAppend(StillOpen(front, key), last, key);
      KeptAppend(HoldAll(front), Hold(last), key);
    }
  }

  /** From `key` on, the holdings are exactly the taken orders that are still open. */
  ghost predicate Mirrors(active: seq<Holding>, taken: seq<Order>, from: int) {
    forall key | from <= key :: Kept(active, key) == HoldAll(StillOpen(taken, key))
  }

  lemma {:induction false} MirrorsAfterRelease(held: seq<Holding>, taken: seq<Order>, key: int)
    requires Mirrors(held, taken, key)
    ensures Mirrors(Kept(held, key), taken, key)
    ensures |Kept(held, key)| == |StillOpen(taken, key)|
    ensures Allocated(Kept(held, key)) == Staked(StillOpen(taken, key))
  {
    KeptIsStillOpen(StillOpen(taken, key), key);
    forall k | key <= k ensures Kept(Kept(held, key), k) == HoldAll(StillOpen(taken, k)) {
      KeptTwice(held, key, k);
    }
  }

  lemma {:induction false} MirrorsAfterEntry(active: seq<Holding>, taken: seq<Order>, o: Order, from: int)
    requires Mirrors(active, taken, from)
    ensures Mirrors(active + [Hold(o)], taken + [o], from)
  {
    forall key | from <= key
      ensures Kept(active + [Hold(o)], key) == HoldAll(StillOpen(taken + [o], key))
    {
      StillOpenAppend(taken, o, key);
      StillOpenAppend(StillOpen(taken, key), o, key);
      KeptAppend(active, Hold(o), key);
    }
  }

  lemma {:induction false} CurveAppend(taken: seq<Order>, o: Order)
    ensures CurveOf(taken + [o]) == CurveOf(taken) +
            [Point(o.until, TotalRr(taken) + o.trade.rr, 1.0 + TotalGain(taken) + o.gain, o.pnlPct)]
  {
    TakenAppend(taken, o);
  }

  /** Releases the holdings that expired by `key` and reports the money they free. */
  method Release(active: seq<Holding>, key: int) returns (still: seq<Holding>, freed: real)
    ensures still == Kept(active, key)
    ensures freed == Allocated(active) - Allocated(still)
  {
    still, freed := [], 0.0;
    for i := 0 to |active|
      invariant still == Kept(active[..i], key)
      invariant freed == Allocated(active[..i]) - Allocated(still)
    {
      var h := active[i];
      assert active[..i + 1] == active[..i] + [h];
      KeptAppend(active[..i], h, key);
      KeptAppend(still, h, key);
      if h.exitKey <= key {
        freed := freed + h.allocation;
      } else {
        still := still + [h];
      }
    }
    assert active[..|active|] == active;
  }

  function QueueOfOrders(m: Model, draws: nat -> real, trades: seq<Trade>): seq<Order> {
    PriceAll(m, Queue(m, draws, trades))
  }

  /** The money and the holdings after `i` orders of the queue. */
  ghost predicate Balanced(m: Model, q: seq<Order>, i: nat, taken: seq<Order>, active: seq<Holding>, cash: real)
    requires i <= |q|
  {
    && taken == TakenOf(m, q, i)
    && cash + Allocated(active) == m.capital
    && (i == 0 ==> active == [] && taken == [])
    && (i > 0 ==> Mirrors(active, taken, q[i - 1].from))
  }

  lemma {:induction false} NothingYet(m: Model, q: seq<Order>)
    ensures Balanced(m, q, 0, [], [], m.capital)
    ensures CurveOf([]) == [] && TotalGain([]) == 0.0 && TotalRr([]) == 0.0
  {}

  lemma {:induction false} BalancedAtTheEnd(m: Model, q: seq<Order>, taken: seq<Order>, active: seq<Holding>,
                                            cash: real)
    requires Balanced(m, q, |q|, taken, active, cash)
    ensures taken == Greedy(m, q)
  {}

  lemma {:induction false} ReleaseShowsAdmission(
      m: Model, q: seq<Order>, i: nat, taken: seq<Order>, active: seq<Holding>, cash: real,
      still: seq<Holding>, left: real)
    requires i < |q| && InOrder(q)
    requires Balanced(m, q, i, taken, active, cash)
    requires still == Kept(active, q[i].from) && left == cash + Allocated(active) - Allocated(still)
    ensures Mirrors(still, taken, q[i].from) && left + Allocated(still) == m.capital && taken == TakenOf(m, q, i)
    ensures Admits(m, taken, q[i]) <==>
            (m.maxPositions == 0 || |still| < m.maxPositions) && q[i].stake.Some? && q[i].stake.value <= left
  {
    MirrorsAfterRelease(active, taken, q[i].from);
  }

  lemma {:induction false} SkipKeepsBalance(
      m: Model, q: seq<Order>, i: nat, taken: seq<Order>, active: seq<Holding>, cash: real)
    requires i < |q| && taken == TakenOf(m, q, i) && !Admits(m, taken, q[i])
    requires Mirrors(active, taken, q[i].from) && cash + Allocated(active) == m.capital
    ensures Balanced(m, q, i + 1, taken, active, cash)
  {}

  lemma {:induction false} EnterKeepsBalance(
      m: Model, q: seq<Order>, i: nat, taken: seq<Order>, active: seq<Holding>, cash: real)
    requires i < |q| && taken == TakenOf(m, q, i) && Admits(m, taken, q[i])
    requires Mirrors(active, taken, q[i].from) && cash + Allocated(active) == m.capital
    ensures q[i].stake.Some?
    ensures Balanced(m, q, i + 1, taken + [q[i]], active + [Hold(q[i])], cash - q[i].stake.value)
  {
    MirrorsAfterEntry(active, taken, q[i], q[i].from);
    KeptAppend(active, Hold(q[i]), q[i].from);
  }

  lemma {:induction false} TakenGrows(m: Model, q: seq<Order>, n: nat)
    requires n <= |q|
    ensures |TakenOf(m, q, n)| <= |Greedy(m, q)|
    decreases |q| - n
  {
    if n < |q| { TakenGrows(m, q, n + 1); }
  }

  lemma {:induction false} TakenNext(m: Model, q: seq<Order>, n: nat)
    requires n < |q| && Admits(m, TakenOf(m, q, n), q[n])
    ensures Greedy(m, q) != []
  {
    TakenGrows(m, q, n + 1);
  }

  method Sweep(m: Model, byEntry: seq<Order>) returns (curve: seq<Point>, taken: seq<Order>, raised: bool)
    requires InOrder(byEntry)
    ensures raised <==> m.capital == 0.0 && Greedy(m, byEntry) != []
    ensures !raised ==> taken == Greedy(m, byEntry) && curve == CurveOf(taken)
  {
    curve, taken, raised := [], [], false;
    var active: seq<Holding>, cash, equity, runRr := [], m.capital, 1.0, 0.0;
    NothingYet(m, byEntry);
    hide *;
    for i := 0 to |byEntry|
      invariant Balanced(m, byEntry, i, taken, active, cash)
      invariant curve == CurveOf(taken)
      invariant equity == 1.0 + TotalGain(taken) && runRr == TotalRr(taken)
      invariant m.capital == 0.0 ==> taken == []
    {
      var o := byEntry[i];
      var still, freed := Release(active, o.from);
      ReleaseShowsAdmission(m, byEntry, i, taken, active, cash, still, cash + freed);
      active := still;
      cash := cash + freed;

      if m.maxPositions != 0 && |active| >= m.maxPositions {
        SkipKeepsBalance(m, byEntry, i, taken, active, cash);
        continue;
      }
      if o.stake.None? || o.stake.value > cash {
        SkipKeepsBalance(m, byEntry, i, taken, active, cash);
        continue;
      }
      EnterKeepsBalance(m, byEntry, i, taken, active, cash);
      TakenAppend(taken, o);
      CurveAppend(taken, o);
      cash := cash - o.stake.value;
      active := active + [Hold(o)];
      runRr := runRr + o.trade.rr;
      if m.capital == 0.0 {
        TakenNext(m, byEntry, i);
        raised := true;
        return;
      }
      equity := equity + o.gain;
      curve := curve + [Point(o.until, runRr, equity, o.pnlPct)];
      taken := taken + [o];
    }
    BalancedAtTheEnd(m, byEntry, taken, active, cash);
  }

  lemma {:induction false} QueueOfOrdersInOrder(m: Model, draws: nat -> real, trades: seq<Trade>)
    ensures InOrder(QueueOfOrders(m, draws, trades))
  {
    QueueIsOrderedRearrangement(m, draws, trades);
  }

  // ---- the compounding mode ------------------------------------------------------

  function ByExit(): (Trade, Trade) -> bool {
    (a: Trade, b: Trade) => Exit(a) <= Exit(b)
  }

  function SumRr(ts: seq<Trade>): real {
    if ts == [] then 0.0 else SumRr(ts[..|ts| - 1]) + ts[|ts| - 1].rr
  }

  function Factor(riskFrac: real, t: Trade): real { 1.0 + t.rr * riskFrac }

  function Percentage(riskFrac: real, t: Trade): real { t.rr * riskFrac * 100.0 }

  function Times(a: real, b: real): real { a * b }

  /** What one unit grows to when every trade multiplies it by its factor. */
  function Growth(riskFrac: real, ts: seq<Trade>): real {
    if ts == [] then 1.0 else Times(Growth(riskFrac, ts[..|ts| - 1]), Factor(riskFrac, ts[|ts| - 1]))
  }

  lemma {:induction false} CompoundNext(riskFrac: real, ts: seq<Trade>, i: nat)
    requires i < |ts|
    ensures var done, next := ts[..i], ts[..i + 1];
            && Growth(riskFrac, next) == Times(Growth(riskFrac, done), Factor(riskFrac, ts[i]))
            && SumRr(next) == SumRr(done) + ts[i].rr
            && CompoundCurve(riskFrac, next) == CompoundCurve(riskFrac, done) +
                 [Point(Exit(ts[i]), SumRr(next), Growth(riskFrac, next), Percentage(riskFrac, ts[i]))]
  {
    hide Factor, Percentage, Times;
    assert ts[..i + 1][..i] == ts[..i] && ts[..i + 1][i] == ts[i];
  }

  function CompoundCurve(riskFrac: real, ts: seq<Trade>): (r: seq<Point>)
    ensures |r| == |ts|
  {
    if ts == [] then []
    else
      var last := ts[|ts| - 1];
      CompoundCurve(riskFrac, ts[..|ts| - 1]) +
      [Point(Exit(last), SumRr(ts), Growth(riskFrac, ts), Percentage(riskFrac, last))]
  }

  method Compound(riskFrac: real, ts: seq<Trade>) returns (curve: seq<Point>)
    ensures curve == CompoundCurve(riskFrac, ts)
  {
    hide Factor, Percentage, Times;
    curve := [];
    var eq, runRr := 1.0, 0.0;
    for i := 0 to |ts|
      invariant curve == CompoundCurve(riskFrac, ts[..i])
      invariant eq == Growth(riskFrac, ts[..i]) && runRr == SumRr(ts[..i])
    {
      CompoundNext(riskFrac, ts, i);
      var t := ts[i];
      runRr := runRr + t.rr;
      eq := Times(eq, Factor(riskFrac, t));
      curve := curve + [Point(Exit(t), runRr, eq, Percentage(riskFrac, t))];
    }
    assert ts[..|ts|] == ts;
  }

  method BuildEquityCurve(trades: seq<Trade>, m: Model, draws: nat -> real, returnTaken: bool)
      returns (report: Report)
    ensures trades == [] ==> report == CurveOnly([])
    ensures report.DividesByZero? <==>
              m.riskFrac.None? && m.capital == 0.0 && Greedy(m, QueueOfOrders(m, draws, trades)) != []
    ensures trades != [] && !report.DividesByZero? ==> report.CurveAndTaken? == returnTaken
    ensures m.riskFrac.None? && !report.DividesByZero? ==>
              report.curve == CurveOf(Greedy(m, QueueOfOrders(m, draws, trades)))
    ensures m.riskFrac.None? && report.CurveAndTaken? ==>
              report.taken == OriginalTrades(Greedy(m, QueueOfOrders(m, draws, trades)))
    ensures m.riskFrac.Some? ==> report.curve == CompoundCurve(m.riskFrac.value, Sort(ByExit(), trades))
    ensures m.riskFrac.Some? && report.CurveAndTaken? ==> report.taken == Sort(ByExit(), trades)
  {
    if trades == [] {
      assert QueueOfOrders(m, draws, trades) == [];
      return CurveOnly([]);
    }
    if m.riskFrac.Some? {
      var sorted := Sort(ByExit(), trades);
      var curve := Compound(m.riskFrac.value, sorted);
      return if returnTaken then CurveAndTaken(curve, sorted) else CurveOnly(curve);
    }
    QueueOfOrdersInOrder(m, draws, trades);
    var curve, taken, raised := Sweep(m, QueueOfOrders(m, draws, trades));
    if raised { return DividesByZero; }
    report := if returnTaken then CurveAndTaken(curve, OriginalTrades(taken)) else CurveOnly(curve);
  }

  /** Without capital every stake is zero, so unless whole lots are asked for or no slot exists
      the first trade is taken, and that divides by zero. */
  lemma {:induction false} ZeroCapitalRaisesExactlyWhen(m: Model, draws: nat -> real, trades: seq<Trade>)
    requires m.capital == 0.0
    ensures Greedy(m, QueueOfOrders(m, draws, trades)) != [] <==>
            trades != [] && m.lotSize <= 0 && 0 <= m.maxPositions
  {
    var q := QueueOfOrders(m, draws, trades);
    QueueIsOrderedRearrangement(m, draws, trades);
    assert |Queue(m, draws, trades)| == |trades|;
    if trades != [] && m.lotSize <= 0 && 0 <= m.maxPositions {
      assert q[0].stake == Some(0.0);
      assert StillOpen([], q[0].from) == [] && Staked([]) == 0.0;
      TakenNext(m, q, 0);
    } else if trades != [] {
      NoneEnters(m, q, |q|);
    }
  }

  /** One trade, no capital, four slots: its zero stake is taken. */
  lemma {:induction false} OneTradeWithoutCapital(draws: nat -> real)
    ensures var m := Model(0.0, 0.05, 4, 0.0, 0, 0.0, false, false, ByExitDate, None);
            var t := Trade(1, None, Some(1), Some(2), 1.0, 0.0, 0.0, None, 0.0);
            Greedy(m, QueueOfOrders(m, draws, [t])) != []
  {
    var m := Model(0.0, 0.05, 4, 0.0, 0, 0.0, false, false, ByExitDate, None);
    ZeroCapitalRaisesExactlyWhen(m, draws, [Trade(1, None, Some(1), Some(2), 1.0, 0.0, 0.0, None, 0.0)]);
  }

  lemma {:induction false} NoneEnters(m: Model, q: seq<Order>, n: nat)
    requires n <= |q| && (m.maxPositions < 0 || forall i | 0 <= i < |q| :: q[i].stake.None?)
    ensures TakenOf(m, q, n) == []
  {
    if n > 0 { NoneEnters(m, q, n - 1); }
  }
}
