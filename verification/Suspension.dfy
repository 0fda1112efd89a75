/** data/integrity.py: rebuilding every symbol's suspended days from S/R events. */
module Suspension {
  import opened Sorting
  import opened SortedDays
  import opened Wrappers

  datatype Kind = S | R | Unknown
  datatype Event = Event(symbol: int, date: int, kind: Kind)
  type Intervals = map<int, set<int>>

  function TableOrder(): (Event, Event) -> bool {
    (a: Event, b: Event) => a.symbol < b.symbol || (a.symbol == b.symbol && a.date <= b.date)
  }

  function DateOrder(): (Event, Event) -> bool {
    (a: Event, b: Event) => a.date <= b.date
  }

  function OfSymbol(symbol: int): Event -> bool {
    (e: Event) => e.symbol == symbol
  }

  function SymbolEvents(events: seq<Event>, symbol: int): seq<Event> {
    Filter(OfSymbol(symbol), events)
  }

  /** One symbol's events by date, simultaneous ones in their original order: what a
      per-symbol group-and-sort gives. */
  function History(events: seq<Event>, symbol: int): seq<Event> {
    Sort(DateOrder(), SymbolEvents(events, symbol))
  }

  function IsMark(): Event -> bool {
    (e: Event) => e.kind != Unknown
  }

  function Marks(es: seq<Event>): seq<Event> { Filter(IsMark(), es) }

  /** The definition: `d` is an S date, or a trade day from an S date on that comes before
      the R that directly follows that S, or any later trade day if nothing follows it. */
  ghost predicate SuspendedAfter(marks: seq<Event>, tradeDays: set<int>, d: int, i: nat)
    requires i < |marks|
  {
    && marks[i].kind == S
    && (|| marks[i].date == d
        || (&& d in tradeDays && marks[i].date <= d
            && (i + 1 == |marks| || (marks[i + 1].kind == R && d < marks[i + 1].date))))
  }

  ghost predicate Suspended(marks: seq<Event>, tradeDays: set<int>, d: int) {
    exists i :: 0 <= i < |marks| && SuspendedAfter(marks, tradeDays, d, i)
  }

  ghost function SuspendedDays(history: seq<Event>, tradeDays: set<int>): (r: set<int>)
    ensures forall d :: d in r <==> Suspended(Marks(history), tradeDays, d)
  {
    var marks := Marks(history);
    var candidates := tradeDays + set e | e in marks :: e.date;
    assert forall d | Suspended(marks, tradeDays, d) :: d in candidates by {
      forall d | Suspended(marks, tradeDays, d) ensures d in candidates {
        var i :| 0 <= i < |marks| && SuspendedAfter(marks, tradeDays, d, i);
        assert marks[i] in marks;
      }
    }
    set d | d in candidates && Suspended(marks, tradeDays, d)
  }

  // ---- the one-pass scan -----------------------------------------------------------------

  /** The scan's two variables for the current symbol. */
  datatype Scan = Scan(days: set<int>, pending: Option<int>)

  function From(tradeDays: set<int>, lo: int): set<int> { set d | d in tradeDays && lo <= d }

  function Between(tradeDays: set<int>, lo: int, hi: int): set<int> { set d | d in tradeDays && lo <= d < hi }

  function Step(scan: Scan, e: Event, tradeDays: set<int>): Scan {
    match e.kind
    case S => Scan(scan.days + {e.date}, Some(e.date))
    case R =>
      if scan.pending.Some? then Scan(scan.days + Between(tradeDays, scan.pending.value, e.date), None)
      else Scan(scan.days, None)
    case Unknown => scan
  }

  function ScanAll(es: seq<Event>, tradeDays: set<int>): Scan {
    if es == [] then Scan({}, None) else Step(ScanAll(es[..|es| - 1], tradeDays), es[|es| - 1], tradeDays)
  }

  function Settle(scan: Scan, tradeDays: set<int>): set<int> {
    if scan.pending.Some? then scan.days + From(tradeDays, scan.pending.value) else scan.days
  }

  /** What the scan has settled so far: the definition without the open interval. */
  ghost predicate Closed(marks: seq<Event>, tradeDays: set<int>, d: int, i: nat)
    requires i < |marks|
  {
    && marks[i].kind == S
    && (|| marks[i].date == d
        || (&& d in tradeDays && marks[i].date <= d
            && i + 1 < |marks| && marks[i + 1].kind == R && d < marks[i + 1].date))
  }

  ghost predicate ScanMeans(marks: seq<Event>, tradeDays: set<int>, scan: Scan) {
    && (forall d :: d in scan.days <==> exists i :: 0 <= i < |marks| && Closed(marks, tradeDays, d, i))
    && scan.pending == if marks != [] && marks[|marks| - 1].kind == S then Some(marks[|marks| - 1].date) else None
  }

  lemma {:induction false} MarksAppend(es: seq<Event>, e: Event)
    ensures Marks(es + [e]) == Marks(es) + if e.kind == Unknown then [] else [e]
  {
    FilterConcat(IsMark(), es, [e]);
    assert Filter(IsMark(), [e]) == if e.kind == Unknown then [] else [e];
  }

  lemma {:induction false} ScanMeansStep(marks: seq<Event>, tradeDays: set<int>, scan: Scan, e: Event)
    requires ScanMeans(marks, tradeDays, scan) && e.kind != Unknown
    ensures ScanMeans(marks + [e], tradeDays, Step(scan, e, tradeDays))
  {
    var now, after, n := marks + [e], Step(scan, e, tradeDays), |marks|;
    forall d ensures d in after.days <==> exists i :: 0 <= i < |now| && Closed(now, tradeDays, d, i) {
      if d in scan.days {
        var i :| 0 <= i < n && Closed(marks, tradeDays, d, i);
        assert Closed(now, tradeDays, d, i);
      }
      if e.kind == S && d == e.date { assert Closed(now, tradeDays, d, n); }
      if e.kind == R && scan.pending.Some? && d in Between(tradeDays, scan.pending.value, e.date) {
        assert Closed(now, tradeDays, d, n - 1);
      }
      if i :| 0 <= i < |now| && Closed(now, tradeDays, d, i) {
        if i < n - 1 { assert Closed(marks, tradeDays, d, i); }
        if i == n - 1 && now[i].date == d { assert Closed(marks, tradeDays, d, i); }
      }
    }
  }

  lemma {:induction false} ScanMeaning(es: seq<Event>, tradeDays: set<int>)
    ensures ScanMeans(Marks(es), tradeDays, ScanAll(es, tradeDays))
  {
    if es == [] {
      assert Marks(es) == [];
    } else {
      var front, last := es[..|es| - 1], es[|es| - 1];
      ScanMeaning(front, tradeDays);
      MarksAppend(front, last);
      assert es == front + [last];
      assert ScanAll(es, tradeDays) == Step(ScanAll(front, tradeDays), last, tradeDays);
      if last.kind == Unknown {
        assert Marks(es) == Marks(front);
      } else {
        ScanMeansStep(Marks(front), tradeDays, ScanAll(front, tradeDays), last);
      }
    }
  }

  /** The scan of one symbol computes the definition. */
  lemma {:induction false} ScanIsDefinition(es: seq<Event>, tradeDays: set<int>)
    ensures Settle(ScanAll(es, tradeDays), tradeDays) == SuspendedDays(es, tradeDays)
  {
    ScanMeaning(es, tradeDays);
    var marks, scan := Marks(es), ScanAll(es, tradeDays);
    forall d ensures d in Settle(scan, tradeDays) <==> Suspended(marks, tradeDays, d) {
      if d in scan.days {
        var i :| 0 <= i < |marks| && Closed(marks, tradeDays, d, i);
        assert SuspendedAfter(marks, tradeDays, d, i);
      }
      if scan.pending.Some? && d in From(tradeDays, scan.pending.value) {
        assert SuspendedAfter(marks, tradeDays, d, |marks| - 1);
      }
      if i :| 0 <= i < |marks| && SuspendedAfter(marks, tradeDays, d, i) {
        if i + 1 < |marks| || marks[i].date == d { assert Closed(marks, tradeDays, d, i); }
      }
    }
    assert forall d :: d in Settle(scan, tradeDays) <==> d in SuspendedDays(es, tradeDays);
  }

  // ---- bisect over the sorted trade days ---------------------------------------------------

  /** The first position whose day is not before `x`. */
  method BisectLeft(days: seq<int>, x: int) returns (lo: nat)
    requires StrictlyAscending(days)
    ensures lo <= |days|
    ensures forall k | 0 <= k < lo :: days[k] < x
    ensures forall k | lo <= k < |days| :: x <= days[k]
  {
    lo := 0;
    var hi := |days|;
    while lo < hi
      invariant 0 <= lo <= hi <= |days|
      invariant forall k | 0 <= k < lo :: days[k] < x
      invariant forall k | hi <= k < |days| :: x <= days[k]
    {
      var mid := (lo + hi) / 2;
      if days[mid] < x { lo := mid + 1; } else { hi := mid; }
    }
  }

  /** `sorted_days[bisect(lo):]` as a set. */
  method DaysFrom(days: seq<int>, tradeDays: set<int>, lo: int) returns (r: set<int>)
    requires days == SortedSet(tradeDays)
    ensures r == From(tradeDays, lo)
  {
    var k := BisectLeft(days, lo);
    r := set d | d in days[k..];
    forall d ensures d in r <==> d in From(tradeDays, lo) {
      if d in From(tradeDays, lo) {
        assert d in days;
        var i :| 0 <= i < |days| && days[i] == d;
        assert days[k..][i - k] == d;
      }
    }
  }

  /** `sorted_days[bisect(lo):bisect(hi)]` as a set; Python reads a crossed slice as empty. */
  method DaysBetween(days: seq<int>, tradeDays: set<int>, lo: int, hi: int) returns (r: set<int>)
    requires days == SortedSet(tradeDays)
    ensures r == Between(tradeDays, lo, hi)
  {
    var k := BisectLeft(days, lo);
    var n := BisectLeft(days, hi);
    r := if k <= n then set d | d in days[k..n] else {};
    forall d ensures d in r <==> d in Between(tradeDays, lo, hi) {
      if d in Between(tradeDays, lo, hi) {
        assert d in days;
        var i :| 0 <= i < |days| && days[i] == d;
        assert days[k..n][i - k] == d;
      }
    }
  }

  // ---- the whole table ---------------------------------------------------------------------

  ghost function Symbols(events: seq<Event>): set<int> { set e | e in events :: e.symbol }

  /** Every symbol that was ever suspended, with its suspended days. */
  ghost function SuspensionMap(events: seq<Event>, tradeDays: set<int>): Intervals {
    map s | s in Symbols(events) && SuspendedDays(History(events, s), tradeDays) != {}
      :: SuspendedDays(History(events, s), tradeDays)
  }

  /** What the scan has stored after the events `done`, the symbol `current` excepted. */
  ghost predicate Stored(intervals: Intervals, done: seq<Event>, tradeDays: set<int>, current: Option<int>) {
    && (forall s :: s in intervals <==>
          && Some(s) != current && s in Symbols(done)
          && Settle(ScanAll(SymbolEvents(done, s), tradeDays), tradeDays) != {})
    && (forall s | s in intervals ::
          intervals[s] == Settle(ScanAll(SymbolEvents(done, s), tradeDays), tradeDays))
  }

  lemma {:induction false} SymbolEventsAppend(done: seq<Event>, e: Event, s: int)
    ensures SymbolEvents(done + [e], s) == SymbolEvents(done, s) + if e.symbol == s then [e] else []
  {
    FilterConcat(OfSymbol(s), done, [e]);
    assert Filter(OfSymbol(s), [e]) == if e.symbol == s then [e] else [];
  }

  lemma {:induction false} NoEventsYet(done: seq<Event>, s: int)
    requires s !in Symbols(done)
    ensures SymbolEvents(done, s) == []
  {
    if SymbolEvents(done, s) != [] {
      var e := SymbolEvents(done, s)[0];
      FilterMember(OfSymbol(s), done, e);
      assert false;
    }
  }

  lemma {:induction false} StoredStep(intervals: Intervals, done: seq<Event>, tradeDays: set<int>, e: Event)
    requires Stored(intervals, done, tradeDays, Some(e.symbol))
    ensures Stored(intervals, done + [e], tradeDays, Some(e.symbol))
  {
    forall s | s != e.symbol ensures SymbolEvents(done + [e], s) == SymbolEvents(done, s) {
      SymbolEventsAppend(done, e, s);
    }
    assert Symbols(done + [e]) == Symbols(done) + {e.symbol};
  }

  lemma {:induction false} SymbolSeen(done: seq<Event>, i: nat)
    requires i < |done|
    ensures done[i].symbol in Symbols(done)
  {}

  lemma {:induction false} NothingStored(tradeDays: set<int>)
    ensures Stored(map[], [], tradeDays, None)
  {}

  /** `intervals[cur_sym] = sym_days`, when there is a current symbol with suspended days. */
  method StoreCurrent(intervals: Intervals, current: Option<int>, scan: Scan, days: seq<int>, tradeDays: set<int>,
                      ghost done: seq<Event>) returns (r: Intervals)
    requires days == SortedSet(tradeDays) && Stored(intervals, done, tradeDays, current)
    requires current.Some? ==> current.value in Symbols(done) &&
                               scan == ScanAll(SymbolEvents(done, current.value), tradeDays)
    requires current.None? ==> scan.pending.None?
    ensures Stored(r, done, tradeDays, None)
  {
    var symDays := scan.days;
    if scan.pending.Some? {
      var open := DaysFrom(days, tradeDays, scan.pending.value);
      symDays := symDays + open;
    }
    r := intervals;
    if current.Some? && symDays != {} {
      r := r[current.value := symDays];
    }
  }

  method LoadSuspendIntervals(events: seq<Event>, tradeDays: set<int>) returns (intervals: Intervals)
    ensures intervals == SuspensionMap(events, tradeDays)
  {
    hide SymbolEvents, Symbols, Settle, Sort, SortedSet, SortedBy, SuspensionMap, TableOrder, Between;
    var table := Sort(TableOrder(), events);
    TableIsSorted(events);
    var days := SortedSet(tradeDays);
    intervals := map[];
    var scan := Scan({}, None);
    var current: Option<int> := None;
    NothingStored(tradeDays);
    for i := 0 to |table|
      invariant Stored(intervals, table[..i], tradeDays, current)
      invariant current.None? ==> i == 0 && scan.pending.None?
      invariant current.Some? ==> i > 0 && current.value == table[i - 1].symbol
      invariant current.Some? ==> scan == ScanAll(SymbolEvents(table[..i], current.value), tradeDays)
    {
      var e := table[i];
      assert table[..i + 1] == table[..i] + [e];
      if current != Some(e.symbol) {
        if current.Some? { SymbolSeen(table[..i], i - 1); }
        intervals := StoreCurrent(intervals, current, scan, days, tradeDays, table[..i]);
        scan, current := Scan({}, None), Some(e.symbol);
        NewSymbol(events, table, i);
        NoEventsYet(table[..i], e.symbol);
      }
      StoredStep(intervals, table[..i], tradeDays, e);
      SymbolEventsAppend(table[..i], e, e.symbol);
      ghost var before := scan;
      if e.kind == S {
        scan := Scan(scan.days + {e.date}, Some(e.date));
      } else if e.kind == R {
        if scan.pending.Some? {
          var block := DaysBetween(days, tradeDays, scan.pending.value, e.date);
          scan := scan.(days := scan.days + block);
        }
        scan := scan.(pending := None);
      }
      ScanAppend(SymbolEvents(table[..i], e.symbol), e, tradeDays);
    }
    assert table[..|table|] == table;
    if current.Some? { SymbolSeen(table, |table| - 1); }
    intervals := StoreCurrent(intervals, current, scan, days, tradeDays, table);
    StoredIsMap(intervals, events, table, tradeDays);
  }

  lemma {:induction false} ScanAppend(es: seq<Event>, e: Event, tradeDays: set<int>)
    ensures ScanAll(es + [e], tradeDays) == Step(ScanAll(es, tradeDays), e, tradeDays)
  {
    assert (es + [e])[..|es|] == es;
  }

  lemma {:induction false} OrdersAreTotal()
    ensures TotalPreorder(TableOrder()) && TotalPreorder(DateOrder())
  {
    var le := TableOrder();
    assert forall x, y :: le(x, y) || le(y, x);
    assert forall x, y, z :: le(x, y) && le(y, z) ==> le(x, z);
    var ld := DateOrder();
    assert forall x, y :: ld(x, y) || ld(y, x);
    assert forall x, y, z :: ld(x, y) && ld(y, z) ==> ld(x, z);
  }

  lemma {:induction false} TableIsSorted(events: seq<Event>)
    ensures SortedBy(TableOrder(), Sort(TableOrder(), events))
    ensures forall e :: e in Sort(TableOrder(), events) <==> e in events
  {
    OrdersAreTotal();
    SortIsSortedPermutation(TableOrder(), events);
  }

  /** In the sorted table a new symbol has no earlier rows. */
  lemma {:induction false} NewSymbol(events: seq<Event>, table: seq<Event>, i: nat)
    requires SortedBy(TableOrder(), table) && i < |table|
    requires i > 0 ==> table[i - 1].symbol != table[i].symbol
    ensures table[i].symbol !in Symbols(table[..i])
  {
    forall e | e in table[..i] ensures e.symbol != table[i].symbol {
      var k :| 0 <= k < i && table[..i][k] == e;
      var le := TableOrder();
      assert le(table[i - 1], table[i]);
      assert k < i - 1 ==> le(table[k], table[i - 1]);
    }
  }

  /** Sorting the whole table once and reading off one symbol's rows gives the same rows in
      the same order as sorting that symbol's rows on their own. */
  lemma {:induction false} OneSortServesAll(events: seq<Event>, symbol: int)
    ensures SymbolEvents(Sort(TableOrder(), events), symbol) == History(events, symbol)
  {
    OrdersAreTotal();
    FilterSort(OfSymbol(symbol), TableOrder(), events);
    forall e | e in SymbolEvents(events, symbol) ensures e.symbol == symbol {
      FilterMember(OfSymbol(symbol), events, e);
    }
    SameWithinSymbol(SymbolEvents(events, symbol), symbol);
  }

  lemma {:induction false} SameWithinSymbol(es: seq<Event>, symbol: int)
    requires forall e | e in es :: e.symbol == symbol
    ensures Sort(TableOrder(), es) == Sort(DateOrder(), es)
  {
    if es != [] {
      SameWithinSymbol(es[1..], symbol);
      OrdersAreTotal();
      SortIsSortedPermutation(DateOrder(), es[1..]);
      SameInsert(es[0], Sort(DateOrder(), es[1..]), symbol);
    }
  }

  lemma {:induction false} SameInsert(x: Event, es: seq<Event>, symbol: int)
    requires x.symbol == symbol && forall e | e in es :: e.symbol == symbol
    ensures Insert(TableOrder(), x, es) == Insert(DateOrder(), x, es)
  {
    if es != [] { SameInsert(x, es[1..], symbol); }
  }

  lemma {:induction false} SettledIsDefinition(events: seq<Event>, symbol: int, tradeDays: set<int>)
    ensures Settle(ScanAll(SymbolEvents(Sort(TableOrder(), events), symbol), tradeDays), tradeDays) ==
            SuspendedDays(History(events, symbol), tradeDays)
  {
    OneSortServesAll(events, symbol);
    ScanIsDefinition(History(events, symbol), tradeDays);
  }

  lemma {:induction false} SameSymbols(a: seq<Event>, b: seq<Event>)
    requires forall e :: e in a <==> e in b
    ensures Symbols(a) == Symbols(b)
  {}

  lemma {:induction false} StoredIsMap(intervals: Intervals, events: seq<Event>, table: seq<Event>, tradeDays: set<int>)
    requires table == Sort(TableOrder(), events) && Stored(intervals, table, tradeDays, None)
    ensures intervals == SuspensionMap(events, tradeDays)
  {
    hide Settle, ScanAll, SuspendedDays, SymbolEvents, History, Symbols, Sort;
    TableIsSorted(events);
    SameSymbols(table, events);
    forall s ensures Settle(ScanAll(SymbolEvents(table, s), tradeDays), tradeDays) ==
                     SuspendedDays(History(events, s), tradeDays) {
      SettledIsDefinition(events, s, tradeDays);
    }
    var expected := SuspensionMap(events, tradeDays);
    assert forall s :: s in intervals <==> s in expected;
    assert forall s | s in intervals :: intervals[s] == expected[s];
  }
}
