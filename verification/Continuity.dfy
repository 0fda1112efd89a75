/** data/integrity.py: the gap scanner, the splitting of gaps for repair, and the
    independent window gate. */
module Continuity {
  import opened Sorting
  import opened SortedDays
  import opened Suspension
  import opened Wrappers

  // ---- maximal runs ---------------------------------------------------------------------

  /** The runs already closed and the run still being collected. */
  datatype Runs = Runs(closed: seq<seq<int>>, open: seq<int>)

  function Collect(days: seq<int>, keep: set<int>): Runs {
    if days == [] then Runs([], [])
    else
      var before, d := Collect(days[..|days| - 1], keep), days[|days| - 1];
      if d in keep then Runs(before.closed, before.open + [d])
      else if before.open != [] then Runs(before.closed + [before.open], [])
      else before
  }

  function AllRuns(runs: Runs): seq<seq<int>> {
    if runs.open == [] then runs.closed else runs.closed + [runs.open]
  }

  function RunsOf(days: seq<int>, keep: set<int>): seq<seq<int>> { AllRuns(Collect(days, keep)) }

  datatype Span = Span(lo: nat, hi: nat)

  /** The spans are the maximal runs of kept days: non-empty, in order, separated by at least
      one day that is not kept, and together exactly the kept days. */
  ghost predicate MaximalSpans(days: seq<int>, keep: set<int>, spans: seq<Span>) {
    && (forall k | 0 <= k < |spans| :: spans[k].lo < spans[k].hi <= |days|)
    && (forall k, l | 0 <= k < l < |spans| :: spans[k].hi < spans[l].lo)
    && (forall p | 0 <= p < |days| :: days[p] in keep <==> Covered(spans, p))
  }

  ghost predicate Covered(spans: seq<Span>, p: int) {
    exists k :: 0 <= k < |spans| && spans[k].lo <= p < spans[k].hi
  }

  ghost predicate Cuts(days: seq<int>, spans: seq<Span>, runs: seq<seq<int>>) {
    && |runs| == |spans|
    && forall k | 0 <= k < |spans| :: spans[k].lo <= spans[k].hi <= |days| && runs[k] == days[spans[k].lo..spans[k].hi]
  }

  ghost predicate OpenAtEnd(days: seq<int>, spans: seq<Span>, open: seq<int>) {
    open != [] <==> spans != [] && spans[|spans| - 1].hi == |days|
  }

  lemma {:induction false} CutsLonger(days: seq<int>, d: int, spans: seq<Span>, runs: seq<seq<int>>)
    requires Cuts(days, spans, runs)
    ensures Cuts(days + [d], spans, runs)
  {
    forall k | 0 <= k < |spans| ensures runs[k] == (days + [d])[spans[k].lo..spans[k].hi] {
      assert (days + [d])[spans[k].lo..spans[k].hi] == days[spans[k].lo..spans[k].hi];
    }
  }

  /** A kept day extends the run that ends here, or starts a new one. */
  ghost function Extend(spans: seq<Span>, n: nat): seq<Span> {
    if spans != [] && spans[|spans| - 1].hi == n
    then spans[..|spans| - 1] + [Span(spans[|spans| - 1].lo, n + 1)]
    else spans + [Span(n, n + 1)]
  }

  lemma {:induction false} ExtendCovers(spans: seq<Span>, n: nat, p: int)
    requires forall k | 0 <= k < |spans| :: spans[k].lo < spans[k].hi
    ensures Covered(Extend(spans, n), p) <==> Covered(spans, p) || p == n
  {
    var now := Extend(spans, n);
    if k :| 0 <= k < |spans| && spans[k].lo <= p < spans[k].hi { assert now[k].lo <= p < now[k].hi; }
    if p == n { assert now[|now| - 1].lo <= p < now[|now| - 1].hi; }
    if k :| 0 <= k < |now| && now[k].lo <= p < now[k].hi {
      if k < |spans| && p != n { assert spans[k].lo <= p < spans[k].hi; }
    }
  }

  lemma {:induction false} ExtendIsMaximal(days: seq<int>, keep: set<int>, spans: seq<Span>, d: int)
    requires MaximalSpans(days, keep, spans)
    ensures MaximalSpans(days + [d], keep, if d in keep then Extend(spans, |days|) else spans)
  {
    hide Covered;
    var longer := days + [d];
    forall p | 0 <= p < |longer|
      ensures longer[p] in keep <==> Covered(if d in keep then Extend(spans, |days|) else spans, p)
    {
      ExtendCovers(spans, |days|, p);
      NotCoveredPastEnd(days, keep, spans);
      if p < |days| { assert longer[p] == days[p]; }
    }
  }

  lemma {:induction false} NotCoveredPastEnd(days: seq<int>, keep: set<int>, spans: seq<Span>)
    requires MaximalSpans(days, keep, spans)
    ensures !Covered(spans, |days|)
  {}

  lemma {:induction false} CollectAppend(days: seq<int>, keep: set<int>, d: int)
    ensures Collect(days + [d], keep) ==
            if d in keep then Runs(Collect(days, keep).closed, Collect(days, keep).open + [d])
            else Runs(RunsOf(days, keep), [])
  {
    assert (days + [d])[..|days|] == days;
  }

  lemma {:induction false} CollectMeansSpans(days: seq<int>, keep: set<int>) returns (spans: seq<Span>)
    ensures MaximalSpans(days, keep, spans)
    ensures Cuts(days, spans, RunsOf(days, keep))
    ensures OpenAtEnd(days, spans, Collect(days, keep).open)
  {
    if days == [] {
      spans := [];
    } else {
      var front, d := days[..|days| - 1], days[|days| - 1];
      assert days == front + [d];
      var before := CollectMeansSpans(front, keep);
      spans := if d in keep then Extend(before, |front|) else before;
      ExtendIsMaximal(front, keep, before, d);
      CutsLonger(front, d, before, RunsOf(front, keep));
      CutsExtended(front, keep, before, d);
    }
  }

  lemma {:induction false} CutsExtended(front: seq<int>, keep: set<int>, before: seq<Span>, d: int)
    requires Cuts(front, before, RunsOf(front, keep)) && OpenAtEnd(front, before, Collect(front, keep).open)
    requires Cuts(front + [d], before, RunsOf(front, keep))
    requires forall k | 0 <= k < |before| :: before[k].lo < before[k].hi <= |front|
    ensures var now := if d in keep then Extend(before, |front|) else before;
            && Cuts(front + [d], now, RunsOf(front + [d], keep))
            && OpenAtEnd(front + [d], now, Collect(front + [d], keep).open)
  {
    var days, open := front + [d], Collect(front, keep).open;
    CollectAppend(front, keep, d);
    hide Collect;
    assert days[|front|..|front| + 1] == [d];
    if d in keep && open != [] {
      var last := |before| - 1;
      assert RunsOf(front, keep)[last] == open == front[before[last].lo..|front|];
      assert days[before[last].lo..|front| + 1] == open + [d];
    }
  }

  /** The days to keep, as a test. */
  function Member(keep: set<int>): int -> bool { (d: int) => d in keep }

  function Flatten(runs: seq<seq<int>>): seq<int> {
    if runs == [] then [] else Flatten(runs[..|runs| - 1]) + runs[|runs| - 1]
  }

  lemma {:induction false} FlattenAppend(runs: seq<seq<int>>, run: seq<int>)
    ensures Flatten(runs + [run]) == Flatten(runs) + run
  {
    assert (runs + [run])[..|runs|] == runs;
  }

  /** The runs, in order and concatenated, are exactly the kept days. */
  lemma {:induction false} RunsConcatenate(days: seq<int>, keep: set<int>)
    ensures Flatten(RunsOf(days, keep)) == Filter(Member(keep), days)
  {
    if days != [] {
      var front, d := days[..|days| - 1], days[|days| - 1];
      assert days == front + [d];
      RunsConcatenate(front, keep);
      RunsConcatenateStep(front, keep, d);
    }
  }

  lemma {:induction false} FlattenRuns(runs: Runs)
    ensures Flatten(AllRuns(runs)) == Flatten(runs.closed) + runs.open
  {
    FlattenAppend(runs.closed, runs.open);
  }

  lemma {:induction false} RunsConcatenateStep(front: seq<int>, keep: set<int>, d: int)
    requires Flatten(RunsOf(front, keep)) == Filter(Member(keep), front)
    ensures Flatten(RunsOf(front + [d], keep)) == Filter(Member(keep), front + [d])
  {
    hide Collect, Flatten, Filter, AllRuns;
    CollectAppend(front, keep, d);
    FilterAppend(Member(keep), front, d);
    FlattenRuns(Collect(front, keep));
    FlattenRuns(Collect(front + [d], keep));
  }

  // ---- gaps -------------------------------------------------------------------------------

  datatype GapRange = GapRange(
    symbol: int, start: int, end: int, missingDates: seq<int>, suspendJustified: bool,
    unjustifiedDays: seq<int>, suspendSuspected: bool)

  /** Construction as the dataclass does it: an unjustified gap given no days means all. */
  function NewGap(g: GapRange): GapRange {
    if g.unjustifiedDays == [] && !g.suspendJustified then g.(unjustifiedDays := g.missingDates) else g
  }

  method UnjustifiedSubsegments(gap: GapRange) returns (runs: seq<seq<int>>)
    ensures runs == RunsOf(gap.missingDates, set d | d in gap.unjustifiedDays)
  {
    var keep := set d | d in gap.unjustifiedDays;
    var cur: seq<int> := [];
    runs := [];
    for i := 0 to |gap.missingDates|
      invariant Collect(gap.missingDates[..i], keep) == Runs(runs, cur)
    {
      var d := gap.missingDates[i];
      assert gap.missingDates[..i + 1] == gap.missingDates[..i] + [d];
      CollectAppend(gap.missingDates[..i], keep, d);
      if d in keep {
        cur := cur + [d];
      } else if cur != [] {
        runs := runs + [cur];
        cur := [];
      }
    }
    assert gap.missingDates[..|gap.missingDates|] == gap.missingDates;
    if cur != [] {
      runs := runs + [cur];
    }
  }

  const MIN_DAYS: nat := 10
  const PRESENCE_RATIO: real := 0.8
  const MIN_MARKET_PRESENCE: real := 1000.0

  function AtMostOrder(): (int, int) -> bool { (a: int, b: int) => a <= b }

  /** `statistics.median`. */
  function Median(counts: seq<int>): real
    requires counts != []
  {
    var s := Sort(AtMostOrder(), counts);
    InsertSortLength(counts);
    var n := |s| / 2;
    if |s| % 2 == 1 then s[n] as real else (s[n - 1] + s[n]) as real / 2.0
  }

  lemma {:induction false} InsertSortLength(counts: seq<int>)
    ensures |Sort(AtMostOrder(), counts)| == |counts|
  {
    if counts != [] {
      InsertSortLength(counts[1..]);
      InsertKeepsElements(AtMostOrder(), counts[0], Sort(AtMostOrder(), counts[1..]));
    }
  }

  function Presence(market: map<int, int>, d: int): int { if d in market then market[d] else 0 }

  function Counts(seg: seq<int>, market: map<int, int>): (r: seq<int>)
    ensures |r| == |seg|
  {
    seq(|seg|, i requires 0 <= i < |seg| => Presence(market, seg[i]))
  }

  predicate IsSuspendSuspected(seg: seq<int>, market: map<int, int>, hasDataBefore: bool, hasDataAfter: bool) {
    && |seg| >= MIN_DAYS && hasDataBefore && hasDataAfter
    && (var median := Median(Counts(seg, market));
        && median >= MIN_MARKET_PRESENCE
        && forall i | 0 <= i < |seg| :: Presence(market, seg[i]) as real >= median * PRESENCE_RATIO)
  }

  /** Only a long hole is ever presumed a suspension, and only if at least 800 symbols traded
      on every one of its days. */
  lemma {:induction false} PresumptionNeedsAHealthyMarket(seg: seq<int>, market: map<int, int>, before: bool,
                                                          after: bool)
    requires IsSuspendSuspected(seg, market, before, after)
    ensures |seg| >= 10 && forall i | 0 <= i < |seg| :: Presence(market, seg[i]) >= 800
  {
    var median := Median(Counts(seg, market));
    forall i | 0 <= i < |seg| ensures Presence(market, seg[i]) >= 800 {
      assert Presence(market, seg[i]) as real >= median * PRESENCE_RATIO >= 800.0;
    }
  }

  function SuspendedOf(intervals: Intervals, symbol: int): set<int> {
    if symbol in intervals then intervals[symbol] else {}
  }

  function Unexplained(intervals: Intervals, symbol: int): int -> bool {
    (d: int) => d !in SuspendedOf(intervals, symbol)
  }

  function BuildGap(symbol: int, seg: seq<int>, intervals: Intervals, market: Option<map<int, int>>,
                    first: int, last: int): GapRange
    requires seg != []
  {
    var unjustified := Filter(Unexplained(intervals, symbol), seg);
    var suspected := unjustified != [] && market.Some? &&
                     IsSuspendSuspected(seg, market.value, seg[0] > first, seg[|seg| - 1] < last);
    var days := if suspected then [] else unjustified;
    NewGap(GapRange(symbol, seg[0], seg[|seg| - 1], seg, days == [], days, suspected))
  }

  // ---- one symbol -----------------------------------------------------------------------

  function ExpectedDays(actual: set<int>, tradeDays: set<int>): set<int>
    requires actual != {}
  {
    set d | d in tradeDays && MinOf(actual) <= d <= MaxOf(actual)
  }

  function MissingDays(actual: set<int>, tradeDays: set<int>): set<int>
    requires actual != {}
  {
    ExpectedDays(actual, tradeDays) - actual
  }

  function BuildAll(symbol: int, segs: seq<seq<int>>, intervals: Intervals, market: Option<map<int, int>>,
                    first: int, last: int): (r: seq<GapRange>)
    requires forall k | 0 <= k < |segs| :: segs[k] != []
    ensures |r| == |segs|
  {
    seq(|segs|, k requires 0 <= k < |segs| => BuildGap(symbol, segs[k], intervals, market, first, last))
  }

  lemma {:induction false} ClosedRunsNonEmpty(days: seq<int>, keep: set<int>)
    ensures forall k | 0 <= k < |Collect(days, keep).closed| :: Collect(days, keep).closed[k] != []
    ensures forall k | 0 <= k < |RunsOf(days, keep)| :: RunsOf(days, keep)[k] != []
  {
    if days != [] { ClosedRunsNonEmpty(days[..|days| - 1], keep); }
  }

  /** The runs of expected days without a row. */
  function MissingRuns(actual: set<int>, tradeDays: set<int>): (r: seq<seq<int>>)
    requires actual != {}
    ensures forall k | 0 <= k < |r| :: r[k] != []
  {
    var days := SortedSet(ExpectedDays(actual, tradeDays));
    ClosedRunsNonEmpty(days, MissingDays(actual, tradeDays));
    RunsOf(days, MissingDays(actual, tradeDays))
  }

  /** The gaps of one symbol: the maximal runs of expected days without a row. */
  function SymbolGaps(symbol: int, actual: set<int>, tradeDays: set<int>, intervals: Intervals,
                      market: Option<map<int, int>>): seq<GapRange>
  {
    if actual == {} then []
    else BuildAll(symbol, MissingRuns(actual, tradeDays), intervals, market, MinOf(actual), MaxOf(actual))
  }

  lemma {:induction false} BuildAllAppend(symbol: int, segs: seq<seq<int>>, seg: seq<int>, intervals: Intervals,
                                          market: Option<map<int, int>>, first: int, last: int)
    requires seg != [] && forall k | 0 <= k < |segs| :: segs[k] != []
    ensures forall k | 0 <= k < |segs + [seg]| :: (segs + [seg])[k] != []
    ensures BuildAll(symbol, segs + [seg], intervals, market, first, last) ==
            BuildAll(symbol, segs, intervals, market, first, last) +
            [BuildGap(symbol, seg, intervals, market, first, last)]
  {
    hide BuildGap;
  }

  method ScanSymbol(symbol: int, actual: set<int>, tradeDays: set<int>, intervals: Intervals,
                    market: Option<map<int, int>>) returns (gaps: seq<GapRange>)
    ensures gaps == SymbolGaps(symbol, actual, tradeDays, intervals, market)
  {
    hide BuildGap, BuildAll, Collect;
    gaps := [];
    if actual == {} {
      return;
    }
    var first, last := MinOf(actual), MaxOf(actual);
    var days := SortedSet(ExpectedDays(actual, tradeDays));
    ghost var missing := MissingDays(actual, tradeDays);
    var seg: seq<int> := [];
    ghost var closed: seq<seq<int>> := [];
    NothingCollected(symbol, missing, intervals, market, first, last);
    for i := 0 to |days|
      invariant Collect(days[..i], missing) == Runs(closed, seg)
      invariant forall k | 0 <= k < |closed| :: closed[k] != []
      invariant gaps == BuildAll(symbol, closed, intervals, market, first, last)
    {
      var d := days[i];
      assert days[..i + 1] == days[..i] + [d];
      CollectAppend(days[..i], missing, d);
      assert d in days;
      if d in actual {
        if seg != [] {
          BuildAllAppend(symbol, closed, seg, intervals, market, first, last);
          gaps := gaps + [BuildGap(symbol, seg, intervals, market, first, last)];
          closed := closed + [seg];
          seg := [];
        }
      } else {
        seg := seg + [d];
      }
    }
    assert days[..|days|] == days;
    if seg != [] {
      BuildAllAppend(symbol, closed, seg, intervals, market, first, last);
      gaps := gaps + [BuildGap(symbol, seg, intervals, market, first, last)];
      closed := closed + [seg];
    }
    assert closed == RunsOf(days, missing);
  }

  lemma {:induction false} NothingCollected(symbol: int, missing: set<int>, intervals: Intervals,
                                            market: Option<map<int, int>>, first: int, last: int)
    ensures Collect([], missing) == Runs([], [])
    ensures BuildAll(symbol, [], intervals, market, first, last) == []
  {}

  // ---- the window gate ----------------------------------------------------------------------

  datatype Continuity = Continuity(ok: bool, missingDates: seq<int>, unjustified: seq<int>)

  function Window(dates: seq<int>): set<int> { set d | d in dates }

  function CheckWindow(dates: seq<int>, tradeDays: set<int>, intervals: Intervals, symbol: int): Continuity {
    if Window(dates) == {} then Continuity(true, [], [])
    else
      var missing := SortedSet(MissingDays(Window(dates), tradeDays));
      var unjustified := Filter(Unexplained(intervals, symbol), missing);
      Continuity(unjustified == [], missing, unjustified)
  }

  function Tail(dates: seq<int>, window: nat): seq<int> {
    if |dates| <= window then dates else dates[|dates| - window..]
  }

  /** The symbols of the universe whose last `window` rows pass, in the given order; a symbol
      without rows does not pass. */
  predicate Passes(frames: map<int, seq<int>>, window: nat, intervals: Intervals, tradeDays: set<int>, symbol: int) {
    && symbol in frames && frames[symbol] != []
    && CheckWindow(Tail(frames[symbol], window), tradeDays, intervals, symbol).ok
  }

  function PassesIn(frames: map<int, seq<int>>, window: nat, intervals: Intervals, tradeDays: set<int>): int -> bool {
    (symbol: int) => Passes(frames, window, intervals, tradeDays, symbol)
  }

  method FilterUniverse(universe: seq<int>, frames: map<int, seq<int>>, window: nat, intervals: Intervals,
                        tradeDays: set<int>) returns (clean: seq<int>)
    ensures clean == Filter(PassesIn(frames, window, intervals, tradeDays), universe)
  {
    clean := [];
    for i := 0 to |universe|
      invariant clean == Filter(PassesIn(frames, window, intervals, tradeDays), universe[..i])
    {
      var symbol := universe[i];
      assert universe[..i + 1] == universe[..i] + [symbol];
      FilterAppend(PassesIn(frames, window, intervals, tradeDays), universe[..i], symbol);
      if symbol !in frames || frames[symbol] == [] {
        continue;
      }
      var result := CheckWindow(Tail(frames[symbol], window), tradeDays, intervals, symbol);
      if result.ok {
        clean := clean + [symbol];
      }
    }
    assert universe[..|universe|] == universe;
  }
}
