/** data/integrity.py: what the gap scanner's output means, and that the window gate, which
    is written independently, agrees with it. */
module ContinuityAgreement {
  import opened Sorting
  import opened SortedDays
  import opened Wrappers
  import opened Suspension
  import opened Continuity

  type Market = Option<map<int, int>>

  // ---- filtering ------------------------------------------------------------------------

  lemma {:induction false} FilterAscending(p: int -> bool, s: seq<int>)
    requires StrictlyAscending(s)
    ensures StrictlyAscending(Filter(p, s))
  {
    if s != [] {
      FilterAscending(p, s[1..]);
      var rest := Filter(p, s[1..]);
      forall j | 0 <= j < |rest| ensures s[0] < rest[j] {
        FilterMember(p, s[1..], rest[j]);
      }
    }
  }

  lemma {:induction false} FilterIs(p: int -> bool, s: seq<int>, r: seq<int>)
    requires StrictlyAscending(s) && StrictlyAscending(r)
    requires forall d :: d in r <==> d in s && p(d)
    ensures Filter(p, s) == r
  {
    FilterAscending(p, s);
    forall d ensures d in Filter(p, s) <==> d in r { FilterMember(p, s, d); }
    AscendingUnique(Filter(p, s), r);
  }

  function FilterEach(p: int -> bool, runs: seq<seq<int>>): (r: seq<seq<int>>)
    ensures |r| == |runs|
  {
    seq(|runs|, k requires 0 <= k < |runs| => Filter(p, runs[k]))
  }

  lemma {:induction false} FlattenFilter(p: int -> bool, runs: seq<seq<int>>)
    ensures Flatten(FilterEach(p, runs)) == Filter(p, Flatten(runs))
  {
    if runs != [] {
      var front, last := runs[..|runs| - 1], runs[|runs| - 1];
      assert runs == front + [last];
      FlattenFilter(p, front);
      assert FilterEach(p, runs) == FilterEach(p, front) + [Filter(p, last)];
      FlattenAppend(FilterEach(p, front), Filter(p, last));
      FlattenAppend(front, last);
      FilterConcat(p, Flatten(front), last);
    }
  }

  lemma {:induction false} FlattenEmpty(runs: seq<seq<int>>)
    ensures Flatten(runs) == [] <==> forall k | 0 <= k < |runs| :: runs[k] == []
  {
    if runs != [] { FlattenEmpty(runs[..|runs| - 1]); }
  }

  // ---- the scanner ------------------------------------------------------------------------

  function MissingOf(gaps: seq<GapRange>): (r: seq<seq<int>>)
    ensures |r| == |gaps|
  {
    seq(|gaps|, k requires 0 <= k < |gaps| => gaps[k].missingDates)
  }

  function UnjustifiedOf(gaps: seq<GapRange>): (r: seq<seq<int>>)
    ensures |r| == |gaps|
  {
    seq(|gaps|, k requires 0 <= k < |gaps| => gaps[k].unjustifiedDays)
  }

  lemma {:induction false} MissingListed(actual: set<int>, tradeDays: set<int>)
    requires actual != {}
    ensures var missing := MissingDays(actual, tradeDays);
            Filter(Member(missing), SortedSet(ExpectedDays(actual, tradeDays))) == SortedSet(missing)
  {
    var missing := MissingDays(actual, tradeDays);
    FilterIs(Member(missing), SortedSet(ExpectedDays(actual, tradeDays)), SortedSet(missing));
  }

  lemma {:induction false} SymbolGapsMissing(symbol: int, actual: set<int>, tradeDays: set<int>,
                                             intervals: Intervals, market: Market)
    requires actual != {}
    ensures MissingOf(SymbolGaps(symbol, actual, tradeDays, intervals, market)) ==
            RunsOf(SortedSet(ExpectedDays(actual, tradeDays)), MissingDays(actual, tradeDays))
  {
    ClosedRunsNonEmpty(SortedSet(ExpectedDays(actual, tradeDays)), MissingDays(actual, tradeDays));
  }

  /** The gaps, in order and concatenated, are exactly the trade days between the first and
      the last row that have no row. */
  lemma {:induction false} GapsAreTheMissingDays(symbol: int, actual: set<int>, tradeDays: set<int>,
                                                 intervals: Intervals, market: Market)
    requires actual != {}
    ensures Flatten(MissingOf(SymbolGaps(symbol, actual, tradeDays, intervals, market))) ==
            SortedSet(MissingDays(actual, tradeDays))
  {
    hide SymbolGaps, Flatten, MissingOf, RunsOf, MissingDays, ExpectedDays;
    SymbolGapsMissing(symbol, actual, tradeDays, intervals, market);
    RunsConcatenate(SortedSet(ExpectedDays(actual, tradeDays)), MissingDays(actual, tradeDays));
    MissingListed(actual, tradeDays);
  }

  /** Gap `k` covers the expected days from position lo to position hi. */
  ghost predicate GapAt(g: GapRange, days: seq<int>, span: Span, actual: set<int>)
    requires actual != {}
  {
    && span.lo < span.hi <= |days|
    && g.missingDates == days[span.lo..span.hi]
    && g.start == days[span.lo] && g.end == days[span.hi - 1]
    && MinOf(actual) < g.start <= g.end < MaxOf(actual)
  }

  /** The gaps are the maximal runs of missing days: disjoint, with a present day between any
      two of them, and each strictly between the symbol's first and last real row. */
  lemma {:induction false} GapsAreMaximal(symbol: int, actual: set<int>, tradeDays: set<int>,
                                          intervals: Intervals, market: Market)
      returns (spans: seq<Span>)
    requires actual != {}
    ensures var gaps := SymbolGaps(symbol, actual, tradeDays, intervals, market);
            var days := SortedSet(ExpectedDays(actual, tradeDays));
            && MaximalSpans(days, MissingDays(actual, tradeDays), spans)
            && |gaps| == |spans|
            && forall k | 0 <= k < |spans| :: GapAt(gaps[k], days, spans[k], actual)
  {
    hide SymbolGaps, RunsOf, MaximalSpans, MissingDays, ExpectedDays, SortedSet, GapAt;
    spans := CollectMeansSpans(SortedSet(ExpectedDays(actual, tradeDays)), MissingDays(actual, tradeDays));
    SymbolGapsMissing(symbol, actual, tradeDays, intervals, market);
    forall k | 0 <= k < |spans|
      ensures GapAt(SymbolGaps(symbol, actual, tradeDays, intervals, market)[k],
                    SortedSet(ExpectedDays(actual, tradeDays)), spans[k], actual)
    {
      GapIsAtSpan(symbol, actual, tradeDays, intervals, market, spans, k);
    }
  }

  lemma {:induction false} GapIsAtSpan(symbol: int, actual: set<int>, tradeDays: set<int>, intervals: Intervals,
                                       market: Market, spans: seq<Span>, k: nat)
    requires actual != {}
    requires var days, missing := SortedSet(ExpectedDays(actual, tradeDays)), MissingDays(actual, tradeDays);
             MaximalSpans(days, missing, spans) && Cuts(days, spans, RunsOf(days, missing))
    requires MissingOf(SymbolGaps(symbol, actual, tradeDays, intervals, market)) ==
             RunsOf(SortedSet(ExpectedDays(actual, tradeDays)), MissingDays(actual, tradeDays))
    requires k < |spans|
    ensures k < |SymbolGaps(symbol, actual, tradeDays, intervals, market)|
    ensures GapAt(SymbolGaps(symbol, actual, tradeDays, intervals, market)[k],
                  SortedSet(ExpectedDays(actual, tradeDays)), spans[k], actual)
  {
    hide SymbolGaps, RunsOf, MissingDays, ExpectedDays, SortedSet;
    var gaps := SymbolGaps(symbol, actual, tradeDays, intervals, market);
    assert MissingOf(gaps)[k] == gaps[k].missingDates;
    StrictlyInside(actual, tradeDays, spans, spans[k].lo, k);
    StrictlyInside(actual, tradeDays, spans, spans[k].hi - 1, k);
    GapEnds(symbol, actual, tradeDays, intervals, market, k);
    var days := SortedSet(ExpectedDays(actual, tradeDays));
    assert days[spans[k].lo] <= days[spans[k].hi - 1] by { assert StrictlyAscending(days); }
  }

  lemma {:induction false} StrictlyInside(actual: set<int>, tradeDays: set<int>, spans: seq<Span>, p: nat, k: nat)
    requires actual != {}
    requires MaximalSpans(SortedSet(ExpectedDays(actual, tradeDays)), MissingDays(actual, tradeDays), spans)
    requires k < |spans| && spans[k].lo <= p < spans[k].hi
    ensures MinOf(actual) < SortedSet(ExpectedDays(actual, tradeDays))[p] < MaxOf(actual)
  {
    assert Covered(spans, p);
  }

  lemma {:induction false} GapEnds(symbol: int, actual: set<int>, tradeDays: set<int>, intervals: Intervals,
                                   market: Market, k: nat)
    requires actual != {} && k < |SymbolGaps(symbol, actual, tradeDays, intervals, market)|
    ensures var g := SymbolGaps(symbol, actual, tradeDays, intervals, market)[k];
            g.missingDates != [] && g.start == g.missingDates[0] && g.end == g.missingDates[|g.missingDates| - 1]
  {
    hide SymbolGaps, IsSuspendSuspected, Filter, MinOf, MaxOf;
    GapIsBuilt(symbol, actual, tradeDays, intervals, market, k);
  }

  /** Because every gap lies strictly inside, the presumption's two neighbour conditions hold by
      themselves: only length and market presence decide it. */
  lemma {:induction false} NeighboursAlwaysHaveData(symbol: int, actual: set<int>, tradeDays: set<int>,
                                                    intervals: Intervals, market: map<int, int>, k: nat)
    requires actual != {} && k < |SymbolGaps(symbol, actual, tradeDays, intervals, Some(market))|
    ensures var g := SymbolGaps(symbol, actual, tradeDays, intervals, Some(market))[k];
            g.suspendSuspected <==>
              && Filter(Unexplained(intervals, symbol), g.missingDates) != []
              && IsSuspendSuspected(g.missingDates, market, true, true)
  {
    var spans := GapsAreMaximal(symbol, actual, tradeDays, intervals, Some(market));
    var gaps := SymbolGaps(symbol, actual, tradeDays, intervals, Some(market));
    assert GapAt(gaps[k], SortedSet(ExpectedDays(actual, tradeDays)), spans[k], actual);
    GapEnds(symbol, actual, tradeDays, intervals, Some(market), k);
    hide IsSuspendSuspected, Filter, SortedSet, ExpectedDays, MissingDays, RunsOf;
    GapIsBuilt(symbol, actual, tradeDays, intervals, Some(market), k);
  }

  lemma {:induction false} GapIsBuilt(symbol: int, actual: set<int>, tradeDays: set<int>, intervals: Intervals,
                                      market: Market, k: nat)
    requires actual != {} && k < |SymbolGaps(symbol, actual, tradeDays, intervals, market)|
    ensures var g := SymbolGaps(symbol, actual, tradeDays, intervals, market)[k];
            g.missingDates != [] &&
            g == BuildGap(symbol, g.missingDates, intervals, market, MinOf(actual), MaxOf(actual))
  {}

  /** A gap's flags: justified without presumption exactly when every missing day is explained;
      a presumption clears the list; and the dataclass's fill-in never applies. */
  lemma {:induction false} GapFlags(symbol: int, seg: seq<int>, intervals: Intervals, market: Market,
                                    first: int, last: int)
    requires seg != []
    ensures var g := BuildGap(symbol, seg, intervals, market, first, last);
            var unexplained := Filter(Unexplained(intervals, symbol), seg);
            && (g.suspendJustified && !g.suspendSuspected <==> unexplained == [])
            && g.unjustifiedDays == (if g.suspendSuspected then [] else unexplained)
            && (g.suspendJustified <==> g.unjustifiedDays == [])
            && (market.None? ==> !g.suspendSuspected)
  {}

  /** Repair works on the sub-segments of a gap: they are its maximal runs of unjustified days,
      and put together they are exactly its unjustified days. */
  lemma {:induction false} SubsegmentsAreTheUnjustifiedDays(symbol: int, seg: seq<int>, intervals: Intervals,
                                                            market: Market, first: int, last: int)
      returns (spans: seq<Span>)
    requires seg != [] && StrictlyAscending(seg)
    ensures var g := BuildGap(symbol, seg, intervals, market, first, last);
            var keep := set d | d in g.unjustifiedDays;
            && MaximalSpans(g.missingDates, keep, spans)
            && Cuts(g.missingDates, spans, RunsOf(g.missingDates, keep))
            && Flatten(RunsOf(g.missingDates, keep)) == g.unjustifiedDays
  {
    var g := BuildGap(symbol, seg, intervals, market, first, last);
    var keep := set d | d in g.unjustifiedDays;
    GapFlags(symbol, seg, intervals, market, first, last);
    RunsConcatenate(seg, keep);
    FilterAscending(Unexplained(intervals, symbol), seg);
    forall d | d in g.unjustifiedDays ensures d in seg { FilterMember(Unexplained(intervals, symbol), seg, d); }
    FilterIs(Member(keep), seg, g.unjustifiedDays);
    spans := CollectMeansSpans(g.missingDates, keep);
  }

  // ---- scanner and gate ---------------------------------------------------------------------

  lemma {:induction false} GateSeesTheGaps(dates: seq<int>, tradeDays: set<int>, intervals: Intervals,
                                           symbol: int, market: Market)
    requires Window(dates) != {}
    ensures CheckWindow(dates, tradeDays, intervals, symbol).unjustified ==
            Flatten(FilterEach(Unexplained(intervals, symbol),
                               MissingOf(SymbolGaps(symbol, Window(dates), tradeDays, intervals, market))))
  {
    hide SymbolGaps, MissingDays, Flatten, FilterEach, Filter, MissingOf;
    GapsAreTheMissingDays(symbol, Window(dates), tradeDays, intervals, market);
    FlattenFilter(Unexplained(intervals, symbol),
                  MissingOf(SymbolGaps(symbol, Window(dates), tradeDays, intervals, market)));
  }

  /** With the heuristic on, the gate still judges by the S/R events alone: it lets a symbol
      through exactly when every gap is justified and none only by presumption. */
  lemma {:induction false} GateIsStricterThanPresumption(dates: seq<int>, tradeDays: set<int>,
                                                         intervals: Intervals, symbol: int, market: Market)
    ensures CheckWindow(dates, tradeDays, intervals, symbol).ok <==>
            forall g | g in SymbolGaps(symbol, Window(dates), tradeDays, intervals, market) ::
              g.suspendJustified && !g.suspendSuspected
  {
    var gaps := SymbolGaps(symbol, Window(dates), tradeDays, intervals, market);
    if Window(dates) != {} {
      var each := FilterEach(Unexplained(intervals, symbol), MissingOf(gaps));
      GateSeesTheGaps(dates, tradeDays, intervals, symbol, market);
      FlattenEmpty(each);
      forall k | 0 <= k < |gaps|
        ensures gaps[k].suspendJustified && !gaps[k].suspendSuspected <==> each[k] == []
      {
        GapIsBuilt(symbol, Window(dates), tradeDays, intervals, market, k);
        GapFlags(symbol, gaps[k].missingDates, intervals, market, MinOf(Window(dates)), MaxOf(Window(dates)));
      }
      hide SymbolGaps, FilterEach, Flatten, MissingOf, CheckWindow;
      GateOkIsEmpty(dates, tradeDays, intervals, symbol);
    }
  }

  lemma {:induction false} GateOkIsEmpty(dates: seq<int>, tradeDays: set<int>, intervals: Intervals, symbol: int)
    ensures var r := CheckWindow(dates, tradeDays, intervals, symbol); r.ok <==> r.unjustified == []
  {}

  /** Without the market heuristic the gate's unjustified days are the scanner's, in order, and it
      lets the symbol through exactly when every gap is justified. */
  lemma {:induction false} ScannerAndGateAgree(dates: seq<int>, tradeDays: set<int>, intervals: Intervals, symbol: int)
    ensures CheckWindow(dates, tradeDays, intervals, symbol).unjustified ==
            Flatten(UnjustifiedOf(SymbolGaps(symbol, Window(dates), tradeDays, intervals, None)))
    ensures CheckWindow(dates, tradeDays, intervals, symbol).ok <==>
            forall g | g in SymbolGaps(symbol, Window(dates), tradeDays, intervals, None) :: g.suspendJustified
  {
    GateIsStricterThanPresumption(dates, tradeDays, intervals, symbol, None);
    NonePresumed(dates, tradeDays, intervals, symbol);
    UnjustifiedAgree(dates, tradeDays, intervals, symbol);
    hide *;
  }

  lemma {:induction false} NonePresumed(dates: seq<int>, tradeDays: set<int>, intervals: Intervals, symbol: int)
    ensures forall g | g in SymbolGaps(symbol, Window(dates), tradeDays, intervals, None) :: !g.suspendSuspected
  {
    var gaps := SymbolGaps(symbol, Window(dates), tradeDays, intervals, None);
    if Window(dates) != {} {
      forall k | 0 <= k < |gaps| ensures !gaps[k].suspendSuspected {
        GapIsBuilt(symbol, Window(dates), tradeDays, intervals, None, k);
        GapFlags(symbol, gaps[k].missingDates, intervals, None, MinOf(Window(dates)), MaxOf(Window(dates)));
      }
    }
  }

  lemma {:induction false} UnjustifiedAgree(dates: seq<int>, tradeDays: set<int>, intervals: Intervals, symbol: int)
    ensures CheckWindow(dates, tradeDays, intervals, symbol).unjustified ==
            Flatten(UnjustifiedOf(SymbolGaps(symbol, Window(dates), tradeDays, intervals, None)))
  {
    var gaps := SymbolGaps(symbol, Window(dates), tradeDays, intervals, None);
    if Window(dates) != {} {
      GateSeesTheGaps(dates, tradeDays, intervals, symbol, None);
      forall k | 0 <= k < |gaps|
        ensures gaps[k].unjustifiedDays == Filter(Unexplained(intervals, symbol), gaps[k].missingDates)
      {
        GapIsBuilt(symbol, Window(dates), tradeDays, intervals, None, k);
        GapFlags(symbol, gaps[k].missingDates, intervals, None, MinOf(Window(dates)), MaxOf(Window(dates)));
      }
      assert FilterEach(Unexplained(intervals, symbol), MissingOf(gaps)) == UnjustifiedOf(gaps);
    }
  }

  // ---- shorter windows ------------------------------------------------------------------------

  ghost predicate DateSorted(dates: seq<int>) {
    forall i, j | 0 <= i < j < |dates| :: dates[i] <= dates[j]
  }

  function NotBefore(lo: int): int -> bool { (d: int) => lo <= d }

  lemma {:induction false} TailMembers(dates: seq<int>, window: nat)
    requires DateSorted(dates) && dates != [] && window > 0
    ensures var t := Tail(dates, window);
            && t != []
            && (forall d :: d in t ==> d in dates && t[0] <= d <= dates[|dates| - 1])
            && (forall d :: d in dates && t[0] < d ==> d in t)
            && (forall d :: d in dates ==> dates[0] <= d <= dates[|dates| - 1])
            && dates[0] <= t[0] && dates[|dates| - 1] in t
  {
    var t := Tail(dates, window);
    var k := |dates| - |t|;
    assert t == dates[k..];
    assert t[|t| - 1] == dates[|dates| - 1];
    forall d | d in dates && t[0] < d ensures d in t {
      var i :| 0 <= i < |dates| && dates[i] == d;
      assert i >= k;
      assert t[i - k] == d;
    }
  }

  lemma {:induction false} WindowEnds(dates: seq<int>, lo: int, hi: int)
    requires lo in dates && hi in dates && forall d :: d in dates ==> lo <= d <= hi
    ensures Window(dates) != {} && MinOf(Window(dates)) == lo && MaxOf(Window(dates)) == hi
  {
    assert lo in Window(dates) && hi in Window(dates);
  }

  lemma {:induction false} TailMissing(dates: seq<int>, window: nat, tradeDays: set<int>)
    requires DateSorted(dates) && dates != [] && window > 0
    ensures var t := Tail(dates, window);
            && t != [] && Window(t) != {} && Window(dates) != {}
            && MissingDays(Window(t), tradeDays) ==
               set d | d in MissingDays(Window(dates), tradeDays) && t[0] <= d
  {
    hide Tail;
    var t := Tail(dates, window);
    TailMembers(dates, window);
    WindowEnds(t, t[0], dates[|dates| - 1]);
    WindowEnds(dates, dates[0], dates[|dates| - 1]);
    hide MinOf, MaxOf;
    assert t[0] in t;
  }

  /** A tail window of a sorted frame sees exactly the part of the full verdict from its first
      day on; so a frame that passes in full passes in every tail window. */
  lemma {:induction false} TailSeesTheRestriction(dates: seq<int>, window: nat, tradeDays: set<int>,
                                                  intervals: Intervals, symbol: int)
    requires DateSorted(dates)
    ensures Tail(dates, window) != [] ==>
              CheckWindow(Tail(dates, window), tradeDays, intervals, symbol).unjustified ==
              Filter(NotBefore(Tail(dates, window)[0]), CheckWindow(dates, tradeDays, intervals, symbol).unjustified)
    ensures CheckWindow(dates, tradeDays, intervals, symbol).ok ==>
              CheckWindow(Tail(dates, window), tradeDays, intervals, symbol).ok
  {
    var t := Tail(dates, window);
    if t == [] {
      assert Window(t) == {};
    } else {
      TailMissing(dates, window, tradeDays);
      var p, q := Unexplained(intervals, symbol), NotBefore(t[0]);
      var full, part := SortedSet(MissingDays(Window(dates), tradeDays)), SortedSet(MissingDays(Window(t), tradeDays));
      FilterAscending(p, full);
      FilterAscending(p, part);
      forall d ensures d in Filter(p, part) <==> d in Filter(p, full) && q(d) {
        FilterMember(p, part, d);
        FilterMember(p, full, d);
      }
      FilterIs(q, Filter(p, full), Filter(p, part));
      assert Filter(q, []) == [];
    }
  }

  /** With no trade calendar the gate lets every symbol with rows through. */
  lemma {:induction false} NoCalendarLetsAllThrough(frames: map<int, seq<int>>, window: nat,
                                                    intervals: Intervals, symbol: int)
    requires symbol in frames && frames[symbol] != []
    ensures Passes(frames, window, intervals, {}, symbol)
  {
    var t := Tail(frames[symbol], window);
    if Window(t) != {} {
      assert MissingDays(Window(t), {}) == {};
    }
  }
}
