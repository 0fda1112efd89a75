/** data/integrity.py: what the market presumption, the window gate and the universe filter decide,
    in terms of the rows and numbers they are given. */
module WindowGate {
  import opened Continuity
  import opened SortedDays
  import opened Sorting
  import opened Suspension

  // ---- the presumption ------------------------------------------------------------------------

  ghost predicate Ascending(s: seq<int>) {
    forall i, j | 0 <= i < j < |s| :: s[i] <= s[j]
  }

  lemma {:induction false} FirstIsLeast(s: seq<int>)
    requires s != [] && Ascending(s)
    ensures s[0] in multiset(s) && forall x | x in multiset(s) :: s[0] <= x
    ensures Ascending(s[1..]) && multiset(s[1..]) == multiset(s) - multiset{s[0]}
  {
    assert s == [s[0]] + s[1..];
    forall x | x in multiset(s) ensures s[0] <= x {
      assert x in s;
    }
  }

  lemma {:induction false} SameFirstAndRest(a: seq<int>, b: seq<int>)
    requires a != [] && b != [] && a[0] == b[0] && a[1..] == b[1..]
    ensures a == b
  {
    assert a == [a[0]] + a[1..] && b == [b[0]] + b[1..];
  }

  lemma {:induction false} AscendingListsAreUnique(a: seq<int>, b: seq<int>)
    requires Ascending(a) && Ascending(b) && multiset(a) == multiset(b)
    ensures a == b
    decreases |a|
  {
    assert a == [] ==> b == [] by { assert b != [] ==> b[0] in multiset(b); }
    if a != [] {
      assert a[0] in multiset(b);
      assert b != [];
      hide Ascending;
      FirstIsLeast(a);
      FirstIsLeast(b);
      assert a[0] == b[0];
      AscendingListsAreUnique(a[1..], b[1..]);
      SameFirstAndRest(a, b);
    }
  }

  /** The middle number of an ascending list, or the mean of the two in the middle. */
  function Middle(ascending: seq<int>): real
    requires ascending != []
  {
    var half := |ascending| / 2;
    if |ascending| % 2 == 1 then ascending[half] as real
    else (ascending[half - 1] as real + ascending[half] as real) / 2.0
  }

  /** The median is the middle of any ascending rearrangement. */
  lemma {:induction false} MedianIsTheMiddle(counts: seq<int>, ascending: seq<int>)
    requires counts != [] && Ascending(ascending) && multiset(ascending) == multiset(counts)
    ensures ascending != [] && Median(counts) == Middle(ascending)
  {
    var le := AtMostOrder();
    assert forall x, y :: le(x, y) || le(y, x);
    assert forall x, y, z :: le(x, y) && le(y, z) ==> le(x, z);
    SortIsSortedPermutation(le, counts);
    assert Ascending(Sort(le, counts)) by {
      forall i, j | 0 <= i < j < |Sort(le, counts)| ensures Sort(le, counts)[i] <= Sort(le, counts)[j] {
        assert le(Sort(le, counts)[i], Sort(le, counts)[j]);
      }
    }
    AscendingListsAreUnique(Sort(le, counts), ascending);
  }

  /** A hole is presumed a suspension exactly when it has ten days or more, the symbol trades before
      and after it, the median of the daily symbol counts is a thousand or more, and no day has
      fewer than eight tenths of that median. A day without a count counts as none. */
  lemma {:induction false} PresumedExactlyWhen(seg: seq<int>, market: map<int, int>, before: bool, after: bool,
                                               ascending: seq<int>)
    requires Ascending(ascending)
    requires multiset(ascending) ==
             multiset(seq(|seg|, i requires 0 <= i < |seg| => if seg[i] in market then market[seg[i]] else 0))
    ensures IsSuspendSuspected(seg, market, before, after) <==>
            && |seg| >= 10 && before && after && ascending != []
            && Middle(ascending) >= 1000.0
            && forall d | d in seg ::
                 10.0 * (if d in market then market[d] else 0) as real >= 8.0 * Middle(ascending)
  {
    var counts := seq(|seg|, i requires 0 <= i < |seg| => if seg[i] in market then market[seg[i]] else 0);
    assert counts == Counts(seg, market);
    if |seg| >= 10 {
      assert counts != [];
      MedianIsTheMiddle(counts, ascending);
    }
    hide Median, Middle;
  }

  // ---- the gate -----------------------------------------------------------------------------------

  /** A trade day between the first and the last row that has no row. */
  ghost predicate IsGap(dates: seq<int>, tradeDays: set<int>, d: int) {
    && d in tradeDays && d !in dates
    && (exists a :: a in dates && a < d)
    && (exists b :: b in dates && d < b)
  }

  predicate IsExplained(intervals: Intervals, symbol: int, d: int) {
    symbol in intervals && d in intervals[symbol]
  }

  lemma {:induction false} MissingIsGap(dates: seq<int>, tradeDays: set<int>, d: int)
    requires Window(dates) != {}
    ensures d in MissingDays(Window(dates), tradeDays) <==> IsGap(dates, tradeDays, d)
  {
    var lo, hi := MinOf(Window(dates)), MaxOf(Window(dates));
    assert lo in dates && hi in dates;
    if IsGap(dates, tradeDays, d) {
      var a :| a in dates && a < d;
      var b :| b in dates && d < b;
      assert a in Window(dates) && b in Window(dates);
    }
  }

  lemma {:induction false} EmptyWindow(dates: seq<int>)
    ensures Window(dates) == {} <==> dates == []
  {
    if dates != [] { assert dates[0] in Window(dates); }
  }

  /** The gate's verdict on a window, for every day: it lists the gaps in order, calls those
      unjustified that no suspension explains, and passes exactly when there are none of these. */
  lemma {:induction false} GateMeaning(dates: seq<int>, tradeDays: set<int>, intervals: Intervals, symbol: int)
    ensures var r := CheckWindow(dates, tradeDays, intervals, symbol);
            && StrictlyAscending(r.missingDates) && StrictlyAscending(r.unjustified)
            && (forall d :: d in r.missingDates <==> IsGap(dates, tradeDays, d))
            && (forall d :: d in r.unjustified <==>
                            IsGap(dates, tradeDays, d) && !IsExplained(intervals, symbol, d))
            && (r.ok <==> forall d | IsGap(dates, tradeDays, d) :: IsExplained(intervals, symbol, d))
  {
    var r := CheckWindow(dates, tradeDays, intervals, symbol);
    EmptyWindow(dates);
    if dates != [] {
      var missing := SortedSet(MissingDays(Window(dates), tradeDays));
      FilterAscends(Unexplained(intervals, symbol), missing);
      forall d
        ensures d in missing <==> IsGap(dates, tradeDays, d)
        ensures d in r.unjustified <==> IsGap(dates, tradeDays, d) && !IsExplained(intervals, symbol, d)
      {
        MissingIsGap(dates, tradeDays, d);
        FilterMember(Unexplained(intervals, symbol), missing, d);
      }
      if r.unjustified != [] {
        var d := r.unjustified[0];
        assert d in r.unjustified;
        assert IsGap(dates, tradeDays, d) && !IsExplained(intervals, symbol, d);
      }
    }
  }

  lemma {:induction false} FilterAscends(p: int -> bool, s: seq<int>)
    requires StrictlyAscending(s)
    ensures StrictlyAscending(Filter(p, s))
  {
    var at := FilterSelects(p, s);
  }

  // ---- the universe -------------------------------------------------------------------------------

  /** The last `window` rows, or all of them when there are no more. */
  ghost predicate IsLast(dates: seq<int>, window: nat, t: seq<int>) {
    && |t| == (if |dates| <= window then |dates| else window)
    && t == dates[|dates| - |t|..]
  }

  lemma {:induction false} TailIsLast(dates: seq<int>, window: nat)
    ensures IsLast(dates, window, Tail(dates, window))
    ensures forall t | IsLast(dates, window, t) :: t == Tail(dates, window)
  {}

  /** What a symbol needs to stay in the universe. */
  ghost predicate IsClean(frames: map<int, seq<int>>, window: nat, intervals: Intervals, tradeDays: set<int>,
                          symbol: int) {
    && symbol in frames && frames[symbol] != []
    && forall t, d | IsLast(frames[symbol], window, t) && IsGap(t, tradeDays, d) :: IsExplained(intervals, symbol, d)
  }

  lemma {:induction false} PassesExactlyWhen(frames: map<int, seq<int>>, window: nat, intervals: Intervals,
                                             tradeDays: set<int>, symbol: int)
    ensures Passes(frames, window, intervals, tradeDays, symbol) <==>
            IsClean(frames, window, intervals, tradeDays, symbol)
  {
    if symbol in frames {
      TailIsLast(frames[symbol], window);
      GateMeaning(Tail(frames[symbol], window), tradeDays, intervals, symbol);
      hide CheckWindow, Tail, IsGap, IsExplained, IsLast;
    }
  }

  /** The filtered universe is the clean symbols of the given one, in its order and as often as it
      names them. */
  lemma {:induction false} CleanSymbolsStay(universe: seq<int>, frames: map<int, seq<int>>, window: nat,
                                            intervals: Intervals, tradeDays: set<int>) returns (at: seq<nat>)
    ensures Selects(universe, at, Filter(PassesIn(frames, window, intervals, tradeDays), universe))
    ensures forall i: nat | i < |universe| :: i in at <==> IsClean(frames, window, intervals, tradeDays, universe[i])
  {
    hide Passes, IsClean;
    at := FilterSelects(PassesIn(frames, window, intervals, tradeDays), universe);
    forall i: nat | i < |universe| ensures i in at <==> IsClean(frames, window, intervals, tradeDays, universe[i]) {
      PassesExactlyWhen(frames, window, intervals, tradeDays, universe[i]);
    }
  }
}
