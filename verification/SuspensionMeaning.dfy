/** data/integrity.py: what the rebuilt suspensions promise for any table of S/R events, and when. */
module SuspensionMeaning {
  import opened Sorting
  import opened Suspension

  // ---- reading the map -----------------------------------------------------------------------

  /** The suspended days on record for a symbol. */
  ghost function DaysOf(events: seq<Event>, symbol: int, tradeDays: set<int>): set<int> {
    var intervals := SuspensionMap(events, tradeDays);
    if symbol in intervals then intervals[symbol] else {}
  }

  /** One symbol's S and R events in the order in which they are scanned. */
  function MarksOf(events: seq<Event>, symbol: int): seq<Event> { Marks(History(events, symbol)) }

  lemma {:induction false} FilterKeepsOrder(p: Event -> bool, es: seq<Event>)
    requires SortedBy(DateOrder(), es)
    ensures SortedBy(DateOrder(), Filter(p, es))
  {
    if es != [] {
      FilterKeepsOrder(p, es[1..]);
      var rest := Filter(p, es[1..]);
      forall j | 0 <= j < |rest| ensures DateOrder()(es[0], rest[j]) {
        FilterMember(p, es[1..], rest[j]);
        var k :| 0 <= k < |es[1..]| && es[1..][k] == rest[j];
        assert es[k + 1] == rest[j];
      }
    }
  }

  lemma {:induction false} MarksAreSorted(events: seq<Event>, symbol: int)
    ensures SortedBy(DateOrder(), MarksOf(events, symbol))
    ensures forall e :: e in MarksOf(events, symbol) <==> e in events && e.symbol == symbol && e.kind != Unknown
  {
    OrdersAreTotal();
    var own := SymbolEvents(events, symbol);
    SortIsSortedPermutation(DateOrder(), own);
    FilterKeepsOrder(IsMark(), History(events, symbol));
    forall e ensures e in MarksOf(events, symbol) <==> e in events && e.symbol == symbol && e.kind != Unknown {
      FilterMember(IsMark(), History(events, symbol), e);
      FilterMember(OfSymbol(symbol), events, e);
    }
  }

  /** Where the marks stand in the table: picked, sorted and picked again. */
  lemma {:induction false} MarksAt(events: seq<Event>, symbol: int, own: seq<nat>, order: seq<nat>, kept: seq<nat>)
      returns (at: seq<nat>)
    requires Selects(events, own, SymbolEvents(events, symbol))
    requires Rearranges(SymbolEvents(events, symbol), order, History(events, symbol))
    requires StablyOrdered(DateOrder(), SymbolEvents(events, symbol), order)
    requires Selects(History(events, symbol), kept, MarksOf(events, symbol))
    ensures |at| == |MarksOf(events, symbol)|
    ensures forall k | 0 <= k < |at| :: at[k] < |events| && MarksOf(events, symbol)[k] == events[at[k]]
    ensures forall k, l | 0 <= k < l < |at| :: at[k] != at[l]
    ensures forall k, l | 0 <= k < l < |at| && events[at[k]].date == events[at[l]].date :: at[k] < at[l]
  {
    hide SymbolEvents, History, MarksOf;
    at := seq(|kept|, k requires 0 <= k < |kept| => own[order[kept[k]]]);
    var rows := SymbolEvents(events, symbol);
    forall k, l | 0 <= k < l < |at|
      ensures at[k] != at[l] && (events[at[k]].date == events[at[l]].date ==> at[k] < at[l]) {
      var i, j := order[kept[k]], order[kept[l]];
      assert kept[k] < kept[l] && i != j;
      assert i < j ==> own[i] < own[j];
      assert j < i ==> own[j] < own[i];
      assert rows[i].date == rows[j].date ==> DateOrder()(rows[j], rows[i]) && i < j;
    }
  }

  /** The marks are the symbol's S and R rows of the table, no row twice, by date, and rows of one
      date in the order of the table. */
  lemma {:induction false} MarksKeepTableOrder(events: seq<Event>, symbol: int) returns (at: seq<nat>)
    ensures var marks := MarksOf(events, symbol);
            && |at| == |marks|
            && (forall k | 0 <= k < |at| :: at[k] < |events| && marks[k] == events[at[k]])
            && (forall k, l | 0 <= k < l < |at| :: at[k] != at[l])
            && (forall k, l | 0 <= k < l < |at| :: marks[k].date <= marks[l].date &&
                                                   (marks[k].date == marks[l].date ==> at[k] < at[l]))
            && (forall e :: e in marks <==> e in events && e.symbol == symbol && e.kind != Unknown)
  {
    OrdersAreTotal();
    MarksAreSorted(events, symbol);
    var own := FilterSelects(OfSymbol(symbol), events);
    var order := SortIsStable(DateOrder(), SymbolEvents(events, symbol));
    var kept := FilterSelects(IsMark(), History(events, symbol));
    at := MarksAt(events, symbol, own, order, kept);
    hide MarksOf, SymbolEvents, History, StablyOrdered, Rearranges, Selects;
    forall k, l | 0 <= k < l < |at| ensures MarksOf(events, symbol)[k].date <= MarksOf(events, symbol)[l].date {
      assert DateOrder()(MarksOf(events, symbol)[k], MarksOf(events, symbol)[l]);
    }
  }

  lemma {:induction false} DaysOfMeaning(events: seq<Event>, symbol: int, tradeDays: set<int>)
    ensures forall d :: d in DaysOf(events, symbol, tradeDays) <==> Suspended(MarksOf(events, symbol), tradeDays, d)
  {
    hide Sort, Filter, Suspended, SortedBy;
    forall d | Suspended(MarksOf(events, symbol), tradeDays, d) ensures symbol in Symbols(events) {
      AMarkExists(MarksOf(events, symbol), tradeDays, d);
      MarksAreSorted(events, symbol);
      var e := MarksOf(events, symbol)[0];
      assert e in MarksOf(events, symbol);
      assert e in events && e.symbol == symbol;
    }
    var days := SuspendedDays(History(events, symbol), tradeDays);
    assert forall d :: d in days <==> Suspended(MarksOf(events, symbol), tradeDays, d);
  }

  lemma {:induction false} AMarkExists(marks: seq<Event>, tradeDays: set<int>, d: int)
    requires Suspended(marks, tradeDays, d)
    ensures marks != []
  {}

  // ---- resumption --------------------------------------------------------------------------

  /** A resumption day is not suspended, unless the symbol also has an S on that date. */
  lemma {:induction false} ResumptionDayTrades(events: seq<Event>, symbol: int, tradeDays: set<int>, d: int)
    requires Event(symbol, d, R) in events && Event(symbol, d, S) !in events
    ensures d !in DaysOf(events, symbol, tradeDays)
  {
    var marks := MarksOf(events, symbol);
    MarksAreSorted(events, symbol);
    DaysOfMeaning(events, symbol, tradeDays);
    assert Event(symbol, d, R) in marks;
    var r :| 0 <= r < |marks| && marks[r] == Event(symbol, d, R);
    hide MarksOf, DaysOf;
    forall i | 0 <= i < |marks| && marks[i].kind == S ensures marks[i].date != d {
      assert marks[i] in marks && marks[i] in events;
      assert marks[i] == Event(marks[i].symbol, marks[i].date, S);
    }
    ResumedAt(marks, tradeDays, r);
  }

  lemma {:induction false} ResumedAt(marks: seq<Event>, tradeDays: set<int>, r: nat)
    requires SortedBy(DateOrder(), marks) && r < |marks| && marks[r].kind == R
    requires forall i | 0 <= i < |marks| && marks[i].kind == S :: marks[i].date != marks[r].date
    ensures !Suspended(marks, tradeDays, marks[r].date)
  {
    var le := DateOrder();
    forall i | 0 <= i < |marks| && marks[i].kind == S
      ensures !SuspendedAfter(marks, tradeDays, marks[r].date, i)
    {
      if i < r {
        assert i + 1 < |marks|;
        assert i + 1 < r ==> le(marks[i + 1], marks[r]);
      } else {
        assert le(marks[r], marks[i]);
      }
    }
  }

  // ---- what the documentation promises ------------------------------------------------------

  /** Suspended as documented: on an S date, or on a trade day from an S on that comes before every
      later R, so to the end when there is none. */
  ghost predicate Promised(marks: seq<Event>, tradeDays: set<int>, d: int) {
    exists i :: 0 <= i < |marks| && PromisedFrom(marks, tradeDays, d, i)
  }

  ghost predicate PromisedFrom(marks: seq<Event>, tradeDays: set<int>, d: int, i: nat)
    requires i < |marks|
  {
    && marks[i].kind == S
    && (|| marks[i].date == d
        || (&& d in tradeDays && marks[i].date <= d
            && forall j | i < j < |marks| && marks[j].kind == R :: d < marks[j].date))
  }

  /** The day falls strictly between two S events with no event in between. */
  ghost predicate BetweenSuspensions(marks: seq<Event>, d: int) {
    exists i :: 0 <= i < |marks| - 1 && StrictlyBetween(marks, d, i)
  }

  ghost predicate StrictlyBetween(marks: seq<Event>, d: int, i: nat)
    requires i < |marks| - 1
  {
    marks[i].kind == S && marks[i + 1].kind == S && marks[i].date < d < marks[i + 1].date
  }

  lemma {:induction false} SuspendedIsPromised(marks: seq<Event>, tradeDays: set<int>, d: int, i: nat)
    requires SortedBy(DateOrder(), marks) && i < |marks| && SuspendedAfter(marks, tradeDays, d, i)
    ensures PromisedFrom(marks, tradeDays, d, i) && !BetweenSuspensions(marks, d)
  {
    var le := DateOrder();
    forall j | i < j < |marks| ensures marks[i].date <= marks[j].date && marks[i + 1].date <= marks[j].date {
      assert le(marks[i], marks[j]);
      assert i + 1 < j ==> le(marks[i + 1], marks[j]);
    }
    forall k | 0 <= k < |marks| - 1 ensures !StrictlyBetween(marks, d, k) {
      assert k < i ==> le(marks[k], marks[i]) && (k + 1 < i ==> le(marks[k + 1], marks[i]));
      assert i < k ==> le(marks[i], marks[k]);
    }
  }

  /** From a promised S on, the last event not after the day is an S, too. */
  lemma {:induction false} LastNotAfter(marks: seq<Event>, tradeDays: set<int>, d: int, i: nat) returns (k: nat)
    requires i < |marks| && PromisedFrom(marks, tradeDays, d, i) && marks[i].date != d
    ensures i <= k < |marks| && marks[k].kind != R && marks[k].date <= d
    ensures k + 1 == |marks| || d < marks[k + 1].date
    decreases |marks| - i
  {
    k := i;
    while k + 1 < |marks| && marks[k + 1].date <= d
      invariant i <= k < |marks| && marks[k].kind != R && marks[k].date <= d
    {
      k := k + 1;
    }
  }

  lemma {:induction false} PromisedIsSuspended(marks: seq<Event>, tradeDays: set<int>, d: int, i: nat)
    requires SortedBy(DateOrder(), marks) && forall j | 0 <= j < |marks| :: marks[j].kind != Unknown
    requires i < |marks| && PromisedFrom(marks, tradeDays, d, i) && !BetweenSuspensions(marks, d)
    ensures Suspended(marks, tradeDays, d)
  {
    if marks[i].date == d {
      assert SuspendedAfter(marks, tradeDays, d, i);
    } else {
      var k := LastNotAfter(marks, tradeDays, d, i);
      assert marks[k].kind == S;
      assert k + 1 < |marks| ==> !StrictlyBetween(marks, d, k);
      assert SuspendedAfter(marks, tradeDays, d, k);
    }
  }

  /** For any table, symbol and day: the day is on record exactly when the documentation promises it
      and it does not fall strictly between two successive S events. */
  lemma {:induction false} OnRecordExactlyWhen(events: seq<Event>, symbol: int, tradeDays: set<int>, d: int)
    ensures d in DaysOf(events, symbol, tradeDays) <==>
            Promised(MarksOf(events, symbol), tradeDays, d) && !BetweenSuspensions(MarksOf(events, symbol), d)
  {
    var marks := MarksOf(events, symbol);
    MarksAreSorted(events, symbol);
    DaysOfMeaning(events, symbol, tradeDays);
    forall j | 0 <= j < |marks| ensures marks[j].kind != Unknown { assert marks[j] in marks; }
    hide MarksOf, DaysOf, BetweenSuspensions, PromisedFrom, SuspendedAfter;
    if Suspended(marks, tradeDays, d) {
      var i :| 0 <= i < |marks| && SuspendedAfter(marks, tradeDays, d, i);
      SuspendedIsPromised(marks, tradeDays, d, i);
    }
    if Promised(marks, tradeDays, d) && !BetweenSuspensions(marks, d) {
      var i :| 0 <= i < |marks| && PromisedFrom(marks, tradeDays, d, i);
      PromisedIsSuspended(marks, tradeDays, d, i);
    }
  }

  lemma {:induction false} BetweenIsPromised(marks: seq<Event>, tradeDays: set<int>, d: int)
    requires SortedBy(DateOrder(), marks) && d in tradeDays && BetweenSuspensions(marks, d)
    ensures Promised(marks, tradeDays, d)
  {
    var i :| 0 <= i < |marks| - 1 && StrictlyBetween(marks, d, i);
    var le := DateOrder();
    forall j | i < j < |marks| && marks[j].kind == R ensures d < marks[j].date {
      assert j > i + 1 && le(marks[i + 1], marks[j]);
    }
    assert PromisedFrom(marks, tradeDays, d, i);
  }

  lemma {:induction false} PromisedOnTradeDay(marks: seq<Event>, tradeDays: set<int>, d: int)
    requires SortedBy(DateOrder(), marks) && Promised(marks, tradeDays, d) && BetweenSuspensions(marks, d)
    ensures d in tradeDays
  {
    var i :| 0 <= i < |marks| && PromisedFrom(marks, tradeDays, d, i);
    var k :| 0 <= k < |marks| - 1 && StrictlyBetween(marks, d, k);
    var le := DateOrder();
    assert i < k ==> le(marks[i], marks[k]);
    assert k + 1 < i ==> le(marks[k + 1], marks[i]);
  }

  /** The loader keeps the documented promise for a symbol, on all days, exactly when no trade day
      falls strictly between two of its successive S events; resumed or not makes no difference. */
  lemma {:induction false} PromiseKeptExactlyWhen(events: seq<Event>, symbol: int, tradeDays: set<int>)
    ensures (forall d :: d in DaysOf(events, symbol, tradeDays) <==> Promised(MarksOf(events, symbol), tradeDays, d))
       <==> (forall d | d in tradeDays :: !BetweenSuspensions(MarksOf(events, symbol), d))
  {
    var marks := MarksOf(events, symbol);
    MarksAreSorted(events, symbol);
    hide MarksOf, DaysOf, Promised, BetweenSuspensions;
    forall d ensures d in DaysOf(events, symbol, tradeDays) <==>
                     Promised(marks, tradeDays, d) && !BetweenSuspensions(marks, d) {
      OnRecordExactlyWhen(events, symbol, tradeDays, d);
    }
    forall d | BetweenSuspensions(marks, d) ensures d in tradeDays <==> Promised(marks, tradeDays, d) {
      if d in tradeDays { BetweenIsPromised(marks, tradeDays, d); }
      if Promised(marks, tradeDays, d) { PromisedOnTradeDay(marks, tradeDays, d); }
    }
  }

  // ---- a table that breaks it ----------------------------------------------------------------

  lemma {:induction false} FilterAll(p: Event -> bool, es: seq<Event>)
    requires forall i | 0 <= i < |es| :: p(es[i])
    ensures Filter(p, es) == es
  {
    if es != [] {
      FilterAll(p, es[1..]);
      assert es == [es[0]] + es[1..];
    }
  }

  lemma {:induction false} SortOfSorted(es: seq<Event>)
    requires SortedBy(DateOrder(), es)
    ensures Sort(DateOrder(), es) == es
  {
    if es != [] {
      SortOfSorted(es[1..]);
      assert es == [es[0]] + es[1..];
      assert |es| > 1 ==> DateOrder()(es[0], es[1]);
    }
  }

  /** A table of one symbol's marks in date order yields exactly their suspended days. */
  lemma {:induction false} OneSymbolTable(events: seq<Event>, symbol: int, tradeDays: set<int>)
    requires SortedBy(DateOrder(), events)
    requires forall i | 0 <= i < |events| :: events[i].symbol == symbol && events[i].kind != Unknown
    ensures forall s :: s in SuspensionMap(events, tradeDays) <==>
              s == symbol && exists d :: Suspended(events, tradeDays, d)
    ensures forall d :: symbol in SuspensionMap(events, tradeDays) ==>
              (d in SuspensionMap(events, tradeDays)[symbol] <==> Suspended(events, tradeDays, d))
  {
    hide Sort, Filter, Suspended, SortedBy;
    FilterAll(OfSymbol(symbol), events);
    SortOfSorted(events);
    FilterAll(IsMark(), events);
    assert Marks(History(events, symbol)) == events;
    var days := SuspendedDays(History(events, symbol), tradeDays);
    assert forall d :: d in days <==> Suspended(events, tradeDays, d);
    assert forall s | s in Symbols(events) :: s == symbol;
    if d :| Suspended(events, tradeDays, d) {
      AMarkExists(events, tradeDays, d);
      assert events[0].symbol in Symbols(events);
    }
  }

  /** Suspended from day 10, suspended again on day 20, resumed on day 30. */
  const TWO_SUSPENSIONS := [Event(1, 10, S), Event(1, 20, S), Event(1, 30, R)]
  const FIVE_DAYS: set<int> := {10, 15, 20, 25, 30}

  lemma {:induction false} SuspendedTwice(d: int)
    ensures Suspended(TWO_SUSPENSIONS, FIVE_DAYS, d) <==> d == 10 || d == 20 || d == 25
  {
    var marks := TWO_SUSPENSIONS;
    assert !SuspendedAfter(marks, FIVE_DAYS, d, 2);
    assert SuspendedAfter(marks, FIVE_DAYS, d, 0) <==> d == 10;
    assert SuspendedAfter(marks, FIVE_DAYS, d, 1) <==> d == 20 || d == 25;
    hide SuspendedAfter;
    assert |marks| == 3;
  }

  lemma {:induction false} TwoSuspensionsTable()
    ensures SortedBy(DateOrder(), TWO_SUSPENSIONS)
    ensures forall i | 0 <= i < |TWO_SUSPENSIONS| ::
              TWO_SUSPENSIONS[i].symbol == 1 && TWO_SUSPENSIONS[i].kind != Unknown
  {}

  /** Two S events in a row leave the trade days strictly between them unsuspended. */
  lemma {:induction false} ConsecutiveSuspensionsLeaveAGap()
    ensures SuspensionMap(TWO_SUSPENSIONS, FIVE_DAYS) == map[1 := {10, 20, 25}]
  {
    hide SuspensionMap, Suspended, SortedBy, TWO_SUSPENSIONS, FIVE_DAYS;
    TwoSuspensionsTable();
    OneSymbolTable(TWO_SUSPENSIONS, 1, FIVE_DAYS);
    forall d ensures Suspended(TWO_SUSPENSIONS, FIVE_DAYS, d) <==> d in {10, 20, 25} {
      SuspendedTwice(d);
    }
    var m := SuspensionMap(TWO_SUSPENSIONS, FIVE_DAYS);
    assert Suspended(TWO_SUSPENSIONS, FIVE_DAYS, 10);
    assert forall s :: s in m <==> s == 1;
    assert m.Keys == {1};
    assert forall d :: d in m[1] <==> d in {10, 20, 25};
    assert m[1] == {10, 20, 25};
  }
}
