/** data/integrity.py 506-528: the gaps of a whole lake. */
module LakeGaps {
  import opened Continuity
  import opened ContinuityAgreement
  import opened SortedDays
  import opened Sorting
  import opened Suspension
  import opened Wrappers

  datatype Row = Row(date: int, symbol: int)

  /** The symbols in order of first appearance, as an unsorted group-by yields them. */
  function Groups(rows: seq<Row>): seq<int> {
    if rows == [] then []
    else
      var before, s := Groups(rows[..|rows| - 1]), rows[|rows| - 1].symbol;
      if s in before then before else before + [s]
  }

  function DatesOf(rows: seq<Row>, symbol: int): set<int> { set r | r in rows && r.symbol == symbol :: r.date }

  function AllGaps(rows: seq<Row>, symbols: seq<int>, tradeDays: set<int>, intervals: Intervals,
                   market: Market): seq<GapRange>
  {
    if symbols == [] then []
    else AllGaps(rows, symbols[..|symbols| - 1], tradeDays, intervals, market) +
         SymbolGaps(symbols[|symbols| - 1], DatesOf(rows, symbols[|symbols| - 1]), tradeDays, intervals, market)
  }

  lemma {:induction false} AllGapsStep(rows: seq<Row>, symbols: seq<int>, i: nat, tradeDays: set<int>,
                                       intervals: Intervals, market: Market)
    requires i < |symbols|
    ensures AllGaps(rows, symbols[..i + 1], tradeDays, intervals, market) ==
            AllGaps(rows, symbols[..i], tradeDays, intervals, market) +
            SymbolGaps(symbols[i], DatesOf(rows, symbols[i]), tradeDays, intervals, market)
  {
    hide SymbolGaps;
    assert symbols[..i + 1][..i] == symbols[..i];
  }

  // ---- what is missing, row by row ------------------------------------------------------------

  /** A trade day on which the symbol has no row, although it has an earlier and a later one. */
  ghost predicate IsHole(rows: seq<Row>, tradeDays: set<int>, symbol: int, d: int) {
    && d in tradeDays && Row(d, symbol) !in rows
    && (exists r :: r in rows && r.symbol == symbol && r.date < d)
    && (exists r :: r in rows && r.symbol == symbol && d < r.date)
  }

  lemma {:induction false} GroupsAreTheSymbols(rows: seq<Row>)
    ensures forall s :: s in Groups(rows) <==> exists r :: r in rows && r.symbol == s
    ensures forall i, j | 0 <= i < j < |Groups(rows)| :: Groups(rows)[i] != Groups(rows)[j]
  {
    if rows != [] {
      var front, last := rows[..|rows| - 1], rows[|rows| - 1];
      assert rows == front + [last];
      GroupsAreTheSymbols(front);
      forall s ensures s in Groups(rows) <==> exists r :: r in rows && r.symbol == s {
        if s in Groups(front) {
          var r :| r in front && r.symbol == s;
          assert r in rows;
        }
        if s == last.symbol { assert last in rows; }
      }
    }
  }

  lemma {:induction false} DatesAreTheRows(rows: seq<Row>, symbol: int)
    ensures forall d :: d in DatesOf(rows, symbol) <==> Row(d, symbol) in rows
  {
    forall d | d in DatesOf(rows, symbol) ensures Row(d, symbol) in rows {
      var r :| r in rows && r.symbol == symbol && r.date == d;
      assert r == Row(d, symbol);
    }
    forall d | Row(d, symbol) in rows ensures d in DatesOf(rows, symbol) {
      assert Row(d, symbol).symbol == symbol;
    }
  }

  /** The missing days of a symbol are its holes. */
  lemma {:induction false} MissingAreHoles(rows: seq<Row>, tradeDays: set<int>, symbol: int)
    requires DatesOf(rows, symbol) != {}
    ensures forall d :: d in MissingDays(DatesOf(rows, symbol), tradeDays) <==> IsHole(rows, tradeDays, symbol, d)
  {
    var actual := DatesOf(rows, symbol);
    DatesAreTheRows(rows, symbol);
    var first, last := Row(MinOf(actual), symbol), Row(MaxOf(actual), symbol);
    assert first in rows && last in rows;
    forall d ensures d in MissingDays(actual, tradeDays) <==> IsHole(rows, tradeDays, symbol, d) {
      if d in MissingDays(actual, tradeDays) {
        assert d != first.date && d != last.date;
      }
      if IsHole(rows, tradeDays, symbol, d) {
        var early :| early in rows && early.symbol == symbol && early.date < d;
        var late :| late in rows && late.symbol == symbol && d < late.date;
        assert early == Row(early.date, symbol) && late == Row(late.date, symbol);
        assert early.date in actual && late.date in actual;
      }
    }
  }

  lemma {:induction false} NoHolesWithoutRows(rows: seq<Row>, tradeDays: set<int>, symbol: int, d: int)
    requires IsHole(rows, tradeDays, symbol, d)
    ensures symbol in Groups(rows) && DatesOf(rows, symbol) != {}
  {
    GroupsAreTheSymbols(rows);
    DatesAreTheRows(rows, symbol);
    var r :| r in rows && r.symbol == symbol && r.date < d;
    assert r == Row(r.date, symbol);
    assert r.date in DatesOf(rows, symbol);
  }

  // ---- one symbol's gaps ------------------------------------------------------------------------

  /** A gap lists, in order, the trade days from its start to its end, both included. */
  ghost predicate IsWhole(g: GapRange, tradeDays: set<int>) {
    && StrictlyAscending(g.missingDates) && g.missingDates != []
    && g.start == g.missingDates[0] && g.end == g.missingDates[|g.missingDates| - 1]
    && forall d :: d in g.missingDates <==> d in tradeDays && g.start <= d <= g.end
  }

  /** One gap ends before the other starts, with a trade day in between on which there is a row. */
  ghost predicate AreApart(rows: seq<Row>, tradeDays: set<int>, g: GapRange, h: GapRange) {
    exists d :: g.end < d < h.start && d in tradeDays && Row(d, g.symbol) in rows
  }

  /** The flags of a gap follow from the S/R events and the presumption. */
  ghost predicate FlagsFollow(g: GapRange, intervals: Intervals, market: Market) {
    && g.suspendSuspected == (market.Some? && Presumed(g, intervals, market.value))
    && (forall d :: d in g.unjustifiedDays <==>
          d in g.missingDates && !(g.symbol in intervals && d in intervals[g.symbol]) && !g.suspendSuspected)
    && StrictlyAscending(g.unjustifiedDays)
    && (g.suspendJustified <==> g.unjustifiedDays == [])
  }

  /** Presumed suspended: some day is unexplained, and the hole is long while the market is healthy. */
  ghost predicate Presumed(g: GapRange, intervals: Intervals, market: map<int, int>) {
    && (exists d :: d in g.missingDates && !(g.symbol in intervals && d in intervals[g.symbol]))
    && IsSuspendSuspected(g.missingDates, market, true, true)
  }

  /** The days between two positions of a sorted day list. */
  lemma {:induction false} SliceOfDays(days: seq<int>, lo: nat, hi: nat)
    requires StrictlyAscending(days) && lo < hi <= |days|
    ensures var s := days[lo..hi];
            StrictlyAscending(s) && forall d :: d in s <==> d in days && days[lo] <= d <= days[hi - 1]
  {
    var s := days[lo..hi];
    forall d ensures d in s <==> d in days && days[lo] <= d <= days[hi - 1] {
      if d in s {
        var k :| 0 <= k < |s| && s[k] == d;
        assert days[lo + k] == d;
      }
      if d in days && days[lo] <= d <= days[hi - 1] {
        var k :| 0 <= k < |days| && days[k] == d;
        assert s[k - lo] == d;
      }
    }
  }

  lemma {:induction false} SymbolGapIsWhole(symbol: int, actual: set<int>, tradeDays: set<int>, intervals: Intervals,
                                            market: Market, k: nat)
    requires actual != {} && k < |SymbolGaps(symbol, actual, tradeDays, intervals, market)|
    ensures var g := SymbolGaps(symbol, actual, tradeDays, intervals, market)[k];
            IsWhole(g, tradeDays) && forall d | d in g.missingDates :: d in MissingDays(actual, tradeDays)
  {
    hide SymbolGaps, MissingDays, MaximalSpans, IsWhole, ExpectedDays, SortedSet;
    var spans := GapsAreMaximal(symbol, actual, tradeDays, intervals, market);
    var days := SortedSet(ExpectedDays(actual, tradeDays));
    var g := SymbolGaps(symbol, actual, tradeDays, intervals, market)[k];
    assert GapAt(g, days, spans[k], actual);
    DaysAreExpected(actual, tradeDays);
    GapOnSpan(g, days, tradeDays, MinOf(actual), MaxOf(actual), MissingDays(actual, tradeDays), spans, k);
  }

  lemma {:induction false} DaysAreExpected(actual: set<int>, tradeDays: set<int>)
    requires actual != {}
    ensures forall d :: d in SortedSet(ExpectedDays(actual, tradeDays)) <==>
                        d in tradeDays && MinOf(actual) <= d <= MaxOf(actual)
  {}

  lemma {:induction false} GapOnSpan(g: GapRange, days: seq<int>, tradeDays: set<int>, lo: int, hi: int,
                                     missing: set<int>, spans: seq<Span>, k: nat)
    requires StrictlyAscending(days) && forall d :: d in days <==> d in tradeDays && lo <= d <= hi
    requires MaximalSpans(days, missing, spans) && k < |spans|
    requires g.missingDates == days[spans[k].lo..spans[k].hi]
    requires g.start == days[spans[k].lo] && g.end == days[spans[k].hi - 1] && lo <= g.start <= g.end <= hi
    ensures IsWhole(g, tradeDays) && forall d | d in g.missingDates :: d in missing
  {
    SliceOfDays(days, spans[k].lo, spans[k].hi);
    forall d | d in g.missingDates ensures d in missing {
      var p :| 0 <= p < |g.missingDates| && g.missingDates[p] == d;
      InsideSpan(days, missing, spans, k, spans[k].lo + p);
    }
  }

  lemma {:induction false} AfterSpan(days: seq<int>, keep: set<int>, spans: seq<Span>, k: nat, l: nat)
    requires MaximalSpans(days, keep, spans) && k < l < |spans|
    ensures spans[k].hi < spans[l].lo && spans[k].hi < |days| && days[spans[k].hi] !in keep
  {}

  /** Between two gaps there is an expected day with a row. */
  lemma {:induction false} GapsAreApart(symbol: int, actual: set<int>, tradeDays: set<int>, intervals: Intervals,
                                        market: Market, k: nat, l: nat)
    requires actual != {} && k < l < |SymbolGaps(symbol, actual, tradeDays, intervals, market)|
    ensures var gaps := SymbolGaps(symbol, actual, tradeDays, intervals, market);
            exists d :: gaps[k].end < d < gaps[l].start && d in tradeDays && d in actual
  {
    hide SymbolGaps, SortedSet, MaximalSpans, MinOf, MaxOf;
    var days, missing := SortedSet(ExpectedDays(actual, tradeDays)), MissingDays(actual, tradeDays);
    var spans := GapsAreMaximal(symbol, actual, tradeDays, intervals, market);
    var gaps := SymbolGaps(symbol, actual, tradeDays, intervals, market);
    assert GapAt(gaps[k], days, spans[k], actual) && GapAt(gaps[l], days, spans[l], actual);
    AfterSpan(days, missing, spans, k, l);
    var d := days[spans[k].hi];
    assert d in days && d in ExpectedDays(actual, tradeDays);
    assert gaps[k].end < d < gaps[l].start;
  }

  /** Every missing day is in some gap. */
  lemma {:induction false} MissingIsInAGap(symbol: int, actual: set<int>, tradeDays: set<int>, intervals: Intervals,
                                           market: Market, d: int) returns (k: nat)
    requires actual != {} && d in MissingDays(actual, tradeDays)
    ensures k < |SymbolGaps(symbol, actual, tradeDays, intervals, market)|
    ensures d in SymbolGaps(symbol, actual, tradeDays, intervals, market)[k].missingDates
  {
    hide SymbolGaps, SortedSet, MissingDays, ExpectedDays, MaximalSpans;
    var days := SortedSet(ExpectedDays(actual, tradeDays));
    var spans := GapsAreMaximal(symbol, actual, tradeDays, intervals, market);
    MissingIsExpected(actual, tradeDays, d);
    var p := PositionIn(days, d);
    k := SpanOf(days, MissingDays(actual, tradeDays), spans, p);
    var g := SymbolGaps(symbol, actual, tradeDays, intervals, market)[k];
    assert GapAt(g, days, spans[k], actual);
    assert g.missingDates[p - spans[k].lo] == d;
  }

  lemma {:induction false} MissingIsExpected(actual: set<int>, tradeDays: set<int>, d: int)
    requires actual != {} && d in MissingDays(actual, tradeDays)
    ensures d in SortedSet(ExpectedDays(actual, tradeDays))
  {}

  lemma {:induction false} PositionIn(days: seq<int>, d: int) returns (p: nat)
    requires d in days
    ensures p < |days| && days[p] == d
  {
    p :| p < |days| && days[p] == d;
  }

  lemma {:induction false} SpanOf(days: seq<int>, keep: set<int>, spans: seq<Span>, p: nat) returns (k: nat)
    requires MaximalSpans(days, keep, spans) && p < |days| && days[p] in keep
    ensures k < |spans| && spans[k].lo <= p < spans[k].hi <= |days|
  {
    assert Covered(spans, p);
    k :| k < |spans| && spans[k].lo <= p < spans[k].hi;
  }

  lemma {:induction false} InsideSpan(days: seq<int>, keep: set<int>, spans: seq<Span>, k: nat, p: nat)
    requires MaximalSpans(days, keep, spans) && k < |spans| && spans[k].lo <= p < spans[k].hi
    ensures p < |days| && days[p] in keep
  {
    assert Covered(spans, p);
  }

  // ---- its flags ------------------------------------------------------------------------------

  lemma {:induction false} UnexplainedDays(g: GapRange, intervals: Intervals)
    ensures forall d :: d in Filter(Unexplained(intervals, g.symbol), g.missingDates) <==>
                        d in g.missingDates && !(g.symbol in intervals && d in intervals[g.symbol])
    ensures Filter(Unexplained(intervals, g.symbol), g.missingDates) != [] <==>
            exists d :: d in g.missingDates && !(g.symbol in intervals && d in intervals[g.symbol])
  {
    var left := Filter(Unexplained(intervals, g.symbol), g.missingDates);
    forall d ensures d in left <==> d in g.missingDates && !(g.symbol in intervals && d in intervals[g.symbol]) {
      FilterMember(Unexplained(intervals, g.symbol), g.missingDates, d);
    }
    if left != [] {
      var d := left[0];
      assert d in left;
      assert d in g.missingDates && !(g.symbol in intervals && d in intervals[g.symbol]);
    }
  }

  lemma {:induction false} SymbolGapFlags(symbol: int, actual: set<int>, tradeDays: set<int>, intervals: Intervals,
                                          market: Market, k: nat)
    requires actual != {} && k < |SymbolGaps(symbol, actual, tradeDays, intervals, market)|
    requires StrictlyAscending(SymbolGaps(symbol, actual, tradeDays, intervals, market)[k].missingDates)
    ensures var g := SymbolGaps(symbol, actual, tradeDays, intervals, market)[k];
            g.symbol == symbol && FlagsFollow(g, intervals, market)
  {
    hide SymbolGaps, BuildGap, IsSuspendSuspected, Filter, MinOf, MaxOf, FlagsFollow;
    var g := SymbolGaps(symbol, actual, tradeDays, intervals, market)[k];
    GapIsBuilt(symbol, actual, tradeDays, intervals, market, k);
    SymbolOfGap(symbol, g.missingDates, intervals, market, MinOf(actual), MaxOf(actual));
    GapFlags(symbol, g.missingDates, intervals, market, MinOf(actual), MaxOf(actual));
    if market.Some? { NeighboursAlwaysHaveData(symbol, actual, tradeDays, intervals, market.value, k); }
    BuiltFlagsFollow(g, intervals, market);
  }

  lemma {:induction false} BuiltFlagsFollow(g: GapRange, intervals: Intervals, market: Market)
    requires StrictlyAscending(g.missingDates)
    requires g.unjustifiedDays ==
             if g.suspendSuspected then [] else Filter(Unexplained(intervals, g.symbol), g.missingDates)
    requires g.suspendJustified <==> g.unjustifiedDays == []
    requires market.None? ==> !g.suspendSuspected
    requires market.Some? ==>
               (g.suspendSuspected <==> Filter(Unexplained(intervals, g.symbol), g.missingDates) != [] &&
                                        IsSuspendSuspected(g.missingDates, market.value, true, true))
    ensures FlagsFollow(g, intervals, market)
  {
    hide IsSuspendSuspected, Filter;
    UnexplainedDays(g, intervals);
    FilterAscending(Unexplained(intervals, g.symbol), g.missingDates);
  }

  lemma {:induction false} SymbolOfGap(symbol: int, seg: seq<int>, intervals: Intervals, market: Market,
                                       first: int, last: int)
    requires seg != []
    ensures BuildGap(symbol, seg, intervals, market, first, last).symbol == symbol
  {}

  // ---- the whole list ---------------------------------------------------------------------------

  ghost predicate GapOk(rows: seq<Row>, tradeDays: set<int>, intervals: Intervals, market: Market, g: GapRange) {
    && IsWhole(g, tradeDays) && FlagsFollow(g, intervals, market)
    && forall d | d in g.missingDates :: IsHole(rows, tradeDays, g.symbol, d)
  }

  lemma {:induction false} SymbolGapOk(rows: seq<Row>, symbol: int, tradeDays: set<int>, intervals: Intervals,
                                       market: Market, k: nat)
    requires k < |SymbolGaps(symbol, DatesOf(rows, symbol), tradeDays, intervals, market)|
    ensures var g := SymbolGaps(symbol, DatesOf(rows, symbol), tradeDays, intervals, market)[k];
            g.symbol == symbol && GapOk(rows, tradeDays, intervals, market, g)
  {
    var actual := DatesOf(rows, symbol);
    assert actual != {};
    hide SymbolGaps, DatesOf, IsHole, FlagsFollow;
    SymbolGapIsWhole(symbol, actual, tradeDays, intervals, market, k);
    SymbolGapFlags(symbol, actual, tradeDays, intervals, market, k);
    MissingAreHoles(rows, tradeDays, symbol);
  }

  lemma {:induction false} SymbolGapsApart(rows: seq<Row>, symbol: int, tradeDays: set<int>, intervals: Intervals,
                                           market: Market, k: nat, l: nat)
    requires k < l < |SymbolGaps(symbol, DatesOf(rows, symbol), tradeDays, intervals, market)|
    ensures var gaps := SymbolGaps(symbol, DatesOf(rows, symbol), tradeDays, intervals, market);
            AreApart(rows, tradeDays, gaps[k], gaps[l])
  {
    var gaps := SymbolGaps(symbol, DatesOf(rows, symbol), tradeDays, intervals, market);
    assert DatesOf(rows, symbol) != {};
    SymbolGapOk(rows, symbol, tradeDays, intervals, market, k);
    GapsAreApart(symbol, DatesOf(rows, symbol), tradeDays, intervals, market, k, l);
    DatesAreTheRows(rows, symbol);
    hide SymbolGaps, DatesOf;
    var d :| gaps[k].end < d < gaps[l].start && d in tradeDays && d in DatesOf(rows, symbol);
    assert Row(d, gaps[k].symbol) in rows;
  }

  /** The gaps of the first symbols: each is sound, those of one symbol are apart, and every hole of
      these symbols is in one. */
  ghost predicate ListOk(rows: seq<Row>, symbols: seq<int>, tradeDays: set<int>, intervals: Intervals, market: Market,
                         gaps: seq<GapRange>) {
    && (forall k | 0 <= k < |gaps| :: gaps[k].symbol in symbols && GapOk(rows, tradeDays, intervals, market, gaps[k]))
    && (forall k, l | 0 <= k < l < |gaps| && gaps[k].symbol == gaps[l].symbol ::
          AreApart(rows, tradeDays, gaps[k], gaps[l]))
    && (forall s, d | s in symbols && IsHole(rows, tradeDays, s, d) :: Lists(gaps, s, d))
  }

  /** Some gap of the symbol lists the day. */
  ghost predicate Lists(gaps: seq<GapRange>, symbol: int, d: int) {
    exists k :: 0 <= k < |gaps| && gaps[k].symbol == symbol && d in gaps[k].missingDates
  }

  lemma {:induction false} HolesAreListed(rows: seq<Row>, symbol: int, tradeDays: set<int>, intervals: Intervals,
                                          market: Market, d: int)
    requires IsHole(rows, tradeDays, symbol, d)
    ensures Lists(SymbolGaps(symbol, DatesOf(rows, symbol), tradeDays, intervals, market), symbol, d)
  {
    NoHolesWithoutRows(rows, tradeDays, symbol, d);
    MissingAreHoles(rows, tradeDays, symbol);
    hide SymbolGaps, DatesOf, IsHole, GapOk;
    var k := MissingIsInAGap(symbol, DatesOf(rows, symbol), tradeDays, intervals, market, d);
    SymbolGapOk(rows, symbol, tradeDays, intervals, market, k);
  }

  lemma {:induction false} OneSymbolOk(rows: seq<Row>, symbol: int, tradeDays: set<int>, intervals: Intervals,
                                       market: Market)
    ensures ListOk(rows, [symbol], tradeDays, intervals, market,
                   SymbolGaps(symbol, DatesOf(rows, symbol), tradeDays, intervals, market))
  {
    hide SymbolGaps, DatesOf, IsHole, GapOk, AreApart, Lists;
    var gaps := SymbolGaps(symbol, DatesOf(rows, symbol), tradeDays, intervals, market);
    forall k | 0 <= k < |gaps| ensures gaps[k].symbol == symbol && GapOk(rows, tradeDays, intervals, market, gaps[k]) {
      SymbolGapOk(rows, symbol, tradeDays, intervals, market, k);
    }
    forall k, l | 0 <= k < l < |gaps| ensures AreApart(rows, tradeDays, gaps[k], gaps[l]) {
      SymbolGapsApart(rows, symbol, tradeDays, intervals, market, k, l);
    }
    forall d | IsHole(rows, tradeDays, symbol, d) ensures Lists(gaps, symbol, d) {
      HolesAreListed(rows, symbol, tradeDays, intervals, market, d);
    }
  }

  lemma {:induction false} ListsLonger(a: seq<GapRange>, b: seq<GapRange>, symbol: int, d: int)
    ensures Lists(a + b, symbol, d) <==> Lists(a, symbol, d) || Lists(b, symbol, d)
  {
    if Lists(b, symbol, d) {
      var k :| 0 <= k < |b| && b[k].symbol == symbol && d in b[k].missingDates;
      assert (a + b)[|a| + k] == b[k];
    }
    if Lists(a, symbol, d) {
      var k :| 0 <= k < |a| && a[k].symbol == symbol && d in a[k].missingDates;
      assert (a + b)[k] == a[k];
    }
  }

  lemma {:induction false} ListsJoin(rows: seq<Row>, symbols: seq<int>, symbol: int, tradeDays: set<int>,
                                     intervals: Intervals, market: Market, a: seq<GapRange>, b: seq<GapRange>)
    requires symbol !in symbols
    requires ListOk(rows, symbols, tradeDays, intervals, market, a)
    requires ListOk(rows, [symbol], tradeDays, intervals, market, b)
    ensures ListOk(rows, symbols + [symbol], tradeDays, intervals, market, a + b)
  {
    hide GapOk, AreApart, IsHole, Lists;
    forall s, d | s in symbols + [symbol] && IsHole(rows, tradeDays, s, d) ensures Lists(a + b, s, d) {
      ListsLonger(a, b, s, d);
    }
  }

  lemma {:induction false} AllGapsOk(rows: seq<Row>, symbols: seq<int>, tradeDays: set<int>, intervals: Intervals,
                                     market: Market)
    requires forall i, j | 0 <= i < j < |symbols| :: symbols[i] != symbols[j]
    ensures ListOk(rows, symbols, tradeDays, intervals, market, AllGaps(rows, symbols, tradeDays, intervals, market))
  {
    hide SymbolGaps, DatesOf, GapOk, AreApart, IsHole, Lists;
    if symbols != [] {
      var front, last := symbols[..|symbols| - 1], symbols[|symbols| - 1];
      assert symbols == front + [last];
      AllGapsOk(rows, front, tradeDays, intervals, market);
      OneSymbolOk(rows, last, tradeDays, intervals, market);
      ListsJoin(rows, front, last, tradeDays, intervals, market,
                AllGaps(rows, front, tradeDays, intervals, market),
                SymbolGaps(last, DatesOf(rows, last), tradeDays, intervals, market));
    }
  }

  /** What the returned list means, for every symbol and day of the lake: a day is listed for a symbol
      exactly when it is a hole, and then in one gap only; each gap is the whole run of trade days
      from its start to its end; two gaps of one symbol have a trade day with a row in between; and
      the flags follow from the S/R events and the presumption. */
  lemma {:induction false} GapsAreTheHoles(rows: seq<Row>, tradeDays: set<int>, intervals: Intervals, market: Market)
    ensures var gaps := AllGaps(rows, Groups(rows), tradeDays, intervals, market);
            && (forall s, d :: Lists(gaps, s, d) <==> IsHole(rows, tradeDays, s, d))
            && (forall k, l, d | 0 <= k < l < |gaps| && gaps[k].symbol == gaps[l].symbol && d in gaps[k].missingDates ::
                  d !in gaps[l].missingDates)
            && (forall k, l | 0 <= k < l < |gaps| && gaps[k].symbol == gaps[l].symbol ::
                  AreApart(rows, tradeDays, gaps[k], gaps[l]))
            && (forall k | 0 <= k < |gaps| :: IsWhole(gaps[k], tradeDays) && FlagsFollow(gaps[k], intervals, market))
  {
    var gaps := AllGaps(rows, Groups(rows), tradeDays, intervals, market);
    GroupsAreTheSymbols(rows);
    AllGapsOk(rows, Groups(rows), tradeDays, intervals, market);
    hide AllGaps, Groups, FlagsFollow, IsHole;
    forall s, d ensures Lists(gaps, s, d) <==> IsHole(rows, tradeDays, s, d) {
      if IsHole(rows, tradeDays, s, d) { NoHolesWithoutRows(rows, tradeDays, s, d); }
    }
    forall k, l, d | 0 <= k < l < |gaps| && gaps[k].symbol == gaps[l].symbol && d in gaps[k].missingDates
      ensures d !in gaps[l].missingDates
    {
      assert AreApart(rows, tradeDays, gaps[k], gaps[l]);
      assert GapOk(rows, tradeDays, intervals, market, gaps[k]) && GapOk(rows, tradeDays, intervals, market, gaps[l]);
    }
    forall k | 0 <= k < |gaps| ensures IsWhole(gaps[k], tradeDays) && FlagsFollow(gaps[k], intervals, market) {
      assert GapOk(rows, tradeDays, intervals, market, gaps[k]);
    }
  }

  method FindGaps(rows: seq<Row>, tradeDays: set<int>, intervals: Intervals, market: Market)
      returns (gaps: seq<GapRange>)
    ensures gaps == AllGaps(rows, Groups(rows), tradeDays, intervals, market)
    // A day is listed for a symbol exactly when it is a hole, and then once.
    ensures forall s, d :: Lists(gaps, s, d) <==> IsHole(rows, tradeDays, s, d)
    ensures forall k, l, d | 0 <= k < l < |gaps| && gaps[k].symbol == gaps[l].symbol && d in gaps[k].missingDates ::
              d !in gaps[l].missingDates
    ensures forall k | 0 <= k < |gaps| :: IsWhole(gaps[k], tradeDays) && FlagsFollow(gaps[k], intervals, market)
  {
    GapsAreTheHoles(rows, tradeDays, intervals, market);
    var symbols := Groups(rows);
    gaps := [];
    assert AllGaps(rows, [], tradeDays, intervals, market) == [];
    hide *;
    for i := 0 to |symbols|
      invariant gaps == AllGaps(rows, symbols[..i], tradeDays, intervals, market)
    {
      AllGapsStep(rows, symbols, i, tradeDays, intervals, market);
      var found := ScanSymbol(symbols[i], DatesOf(rows, symbols[i]), tradeDays, intervals, market);
      gaps := gaps + found;
    }
    assert symbols[..|symbols|] == symbols;
  }
}
