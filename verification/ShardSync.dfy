/** data/tushare_sync.py: one symbol's shard under resumed syncs, `_sync_by_symbol` and `_cleanse`. */
module ShardSync {
  import opened Wrappers
  import opened Sorting

  /** A row as the API returns it; an unparseable date is `None`. */
  datatype Raw<V> = Raw(day: Option<int>, value: V)

  datatype Row<V> = Row(day: int, value: V)

  /** A shard file. `Unreadable` is what a write that was cut short leaves behind. */
  datatype Shard<V> = Missing | Unreadable | Stored(rows: seq<Row<V>>)

  // ---------------------------------------------------------------- frames

  function ByDay<V>(): (Row<V>, Row<V>) -> bool {
    (a: Row<V>, b: Row<V>) => a.day <= b.day
  }

  function Days<V>(rows: seq<Row<V>>): set<int> {
    set i | 0 <= i < |rows| :: rows[i].day
  }

  function Dated<V>(frame: seq<Raw<V>>): seq<Row<V>> {
    if frame == [] then []
    else if frame[0].day.None? then Dated(frame[1..])
    else [Row(frame[0].day.value, frame[0].value)] + Dated(frame[1..])
  }

  /** `_cleanse`: rows without a date are dropped, the rest sorted by date. */
  function Cleanse<V>(frame: seq<Raw<V>>): seq<Row<V>> {
    Sort(ByDay(), Dated(frame))
  }

  /** `drop_duplicates(subset=[date_col], keep="last")` */
  function KeepLast<V>(rows: seq<Row<V>>): seq<Row<V>> {
    if rows == [] then []
    else if rows[0].day in Days(rows[1..]) then KeepLast(rows[1..])
    else [rows[0]] + KeepLast(rows[1..])
  }

  function Merge<V>(existing: seq<Row<V>>, frame: seq<Raw<V>>): seq<Row<V>> {
    Sort(ByDay(), KeepLast(existing + Cleanse(frame)))
  }

  function LastDay<V>(rows: seq<Row<V>>): int
    requires rows != []
  {
    if |rows| == 1 || LastDay(rows[1..]) <= rows[0].day then rows[0].day else LastDay(rows[1..])
  }

  function FirstDay<V>(rows: seq<Row<V>>): int
    requires rows != []
  {
    if |rows| == 1 || rows[0].day <= FirstDay(rows[1..]) then rows[0].day else FirstDay(rows[1..])
  }

  // ---------------------------------------------------------------- one sync

  /** The shard is merged into rather than replaced. */
  predicate Resumes<V>(shard: Shard<V>, resume: bool) {
    resume && shard.Stored? && shard.rows != []
  }

  /** Where the pull begins; `None` when the shard is up to date and nothing is pulled. Datasets
      with an adjustment factor re-pull the whole shard, the others only what is missing. */
  function FetchFrom<V>(shard: Shard<V>, start: int, end: int, resume: bool, adjusted: bool): Option<int> {
    if !Resumes(shard, resume) then Some(start)
    else if end <= LastDay(shard.rows) then None
    else if adjusted then Some(FirstDay(shard.rows))
    else Some(LastDay(shard.rows) + 1)
  }

  /** The shard after a pull that returned `frame`. */
  function AfterPull<V>(shard: Shard<V>, resume: bool, frame: seq<Raw<V>>): Shard<V> {
    if frame == [] then shard
    else if Resumes(shard, resume) then Stored(Merge(shard.rows, frame))
    else Stored(Cleanse(frame))
  }

  // ---------------------------------------------------------------- what a merge means

  predicate StrictlySorted<V>(rows: seq<Row<V>>) {
    forall i, j | 0 <= i < j < |rows| :: rows[i].day < rows[j].day
  }

  ghost predicate OneRowPerDay<V>(rows: seq<Row<V>>) {
    forall i, j | 0 <= i < j < |rows| :: rows[i].day != rows[j].day
  }

  /** The value of the last row for a day. */
  function LastOn<V>(rows: seq<Row<V>>, day: int): Option<V> {
    if rows == [] then None
    else if rows[|rows| - 1].day == day then Some(rows[|rows| - 1].value)
    else LastOn(rows[..|rows| - 1], day)
  }

  lemma {:induction false} DayOf<V>(rows: seq<Row<V>>, r: Row<V>)
    requires r in rows
    ensures r.day in Days(rows)
  {}

  lemma {:induction false} RowOf<V>(rows: seq<Row<V>>, day: int) returns (r: Row<V>)
    requires day in Days(rows)
    ensures r in rows && r.day == day
  {
    var i :| 0 <= i < |rows| && rows[i].day == day;
    r := rows[i];
  }

  lemma {:induction false} ByDayIsTotal<V(!new)>()
    ensures TotalPreorder(ByDay<V>())
  {}

  /** Strictly sorted rows are determined by which rows they are. */
  lemma {:induction false} SortedRowsAreUnique<V>(a: seq<Row<V>>, b: seq<Row<V>>)
    requires StrictlySorted(a) && StrictlySorted(b)
    requires forall r :: r in a <==> r in b
    ensures a == b
  {
    assert a != [] ==> a[0] in a;
    assert b != [] ==> b[0] in b;
    if a != [] && b != [] {
      assert a[0] == b[0];
      forall r ensures r in a[1..] <==> r in b[1..] {
        TailMember(a, r);
        TailMember(b, r);
      }
      SortedRowsAreUnique(a[1..], b[1..]);
      assert a == [a[0]] + a[1..] && b == [b[0]] + b[1..];
    }
  }

  lemma {:induction false} TailMember<V>(s: seq<Row<V>>, r: Row<V>)
    requires StrictlySorted(s) && s != []
    ensures r in s[1..] <==> r in s && r != s[0]
  {
    assert s == [s[0]] + s[1..];
    if r in s[1..] {
      var k :| 0 <= k < |s[1..]| && s[1..][k] == r;
      assert s[k + 1] == r;
    }
  }

  lemma {:induction false} InsertIsStrict<V(!new)>(x: Row<V>, s: seq<Row<V>>)
    requires StrictlySorted(s) && x.day !in Days(s)
    ensures StrictlySorted(Insert(ByDay(), x, s))
    ensures forall r :: r in Insert(ByDay(), x, s) <==> r == x || r in s
  {
    if s == [] || ByDay<V>()(x, s[0]) {
      assert s != [] ==> s[0] in s && s[0].day in Days(s);
    } else {
      var rest := Insert(ByDay(), x, s[1..]);
      assert s == [s[0]] + s[1..];
      forall d | d in Days(s[1..]) ensures d in Days(s) {}
      InsertIsStrict(x, s[1..]);
      forall j | 0 <= j < |rest| ensures s[0].day < rest[j].day {
        assert rest[j] in rest;
      }
    }
  }

  /** Sorting rows of distinct days puts each day's row strictly in order. */
  lemma {:induction false} SortIsStrict<V(!new)>(rows: seq<Row<V>>)
    requires OneRowPerDay(rows)
    ensures StrictlySorted(Sort(ByDay(), rows))
    ensures forall r :: r in Sort(ByDay(), rows) <==> r in rows
  {
    if rows != [] {
      assert rows == [rows[0]] + rows[1..];
      var sorted := Sort(ByDay(), rows[1..]);
      SortIsStrict(rows[1..]);
      forall d | d in Days(sorted) ensures d != rows[0].day {
        var r := RowOf(sorted, d);
        assert r in rows[1..];
      }
      InsertIsStrict(rows[0], sorted);
    }
  }

  lemma {:induction false} LastOnSplits<V>(a: seq<Row<V>>, b: seq<Row<V>>, day: int)
    ensures LastOn(a + b, day) == if LastOn(b, day).Some? then LastOn(b, day) else LastOn(a, day)
  {
    if b == [] {
      assert a + b == a;
    } else {
      assert (a + b)[..|a + b| - 1] == a + b[..|b| - 1];
      LastOnSplits(a, b[..|b| - 1], day);
    }
  }

  lemma {:induction false} LastOnCovers<V>(rows: seq<Row<V>>, day: int)
    ensures LastOn(rows, day).Some? <==> day in Days(rows)
    ensures LastOn(rows, day).Some? ==> Row(day, LastOn(rows, day).value) in rows
  {
    if rows != [] {
      var init := rows[..|rows| - 1];
      assert rows == init + [rows[|rows| - 1]];
      LastOnCovers(init, day);
    }
  }

  /** Among distinct days, a row is the last of its day. */
  lemma {:induction false} LastOnUnique<V>(rows: seq<Row<V>>, r: Row<V>)
    requires OneRowPerDay(rows)
    ensures r in rows <==> LastOn(rows, r.day) == Some(r.value)
  {
    LastOnCovers(rows, r.day);
    if r in rows {
      assert r.day in Days(rows);
      var s := Row(r.day, LastOn(rows, r.day).value);
      assert s in rows;
      var i :| 0 <= i < |rows| && rows[i] == r;
      var j :| 0 <= j < |rows| && rows[j] == s;
      assert i == j;
    }
  }

  lemma {:induction false} LastOnFirst<V>(rows: seq<Row<V>>, day: int)
    requires rows != []
    ensures LastOn(rows, day) == if day in Days(rows[1..]) then LastOn(rows[1..], day)
                                 else if day == rows[0].day then Some(rows[0].value) else None
  {
    assert rows == [rows[0]] + rows[1..];
    LastOnSplits([rows[0]], rows[1..], day);
    LastOnCovers(rows[1..], day);
  }

  lemma {:induction false} KeptRow<V>(rows: seq<Row<V>>, r: Row<V>)
    ensures r in KeepLast(rows) <==> LastOn(rows, r.day) == Some(r.value)
  {
    if rows != [] {
      KeptRow(rows[1..], r);
      LastOnFirst(rows, r.day);
      LastOnCovers(rows[1..], r.day);
    }
  }

  lemma {:induction false} KeptDaysDiffer<V>(rows: seq<Row<V>>)
    ensures OneRowPerDay(KeepLast(rows))
  {
    if rows != [] {
      var kept := KeepLast(rows[1..]);
      KeptDaysDiffer(rows[1..]);
      forall j | 0 <= j < |kept| ensures kept[j].day in Days(rows[1..]) {
        KeptRow(rows[1..], kept[j]);
        LastOnCovers(rows[1..], kept[j].day);
      }
    }
  }

  /** What is kept is the last row of each day. */
  lemma {:induction false} KeepLastMeaning<V>(rows: seq<Row<V>>)
    ensures OneRowPerDay(KeepLast(rows))
    ensures forall r :: r in KeepLast(rows) <==> LastOn(rows, r.day) == Some(r.value)
  {
    KeptDaysDiffer(rows);
    forall r ensures r in KeepLast(rows) <==> LastOn(rows, r.day) == Some(r.value) {
      KeptRow(rows, r);
    }
  }

  /** A merge holds exactly one row a day, in date order: the pulled row where there is one, else
      the stored row. So no stored day is ever lost. */
  lemma {:induction false} MergeMeaning<V(!new)>(existing: seq<Row<V>>, frame: seq<Raw<V>>)
    ensures StrictlySorted(Merge(existing, frame))
    ensures forall r :: r in Merge(existing, frame) <==>
              if r.day in Days(Cleanse(frame)) then LastOn(Cleanse(frame), r.day) == Some(r.value)
              else LastOn(existing, r.day) == Some(r.value)
    ensures Days(Merge(existing, frame)) == Days(existing) + Days(Cleanse(frame))
  {
    var all := existing + Cleanse(frame);
    KeepLastMeaning(all);
    SortIsStrict(KeepLast(all));
    var merged := Merge(existing, frame);
    forall r ensures r in merged <==>
                     if r.day in Days(Cleanse(frame)) then LastOn(Cleanse(frame), r.day) == Some(r.value)
                     else LastOn(existing, r.day) == Some(r.value) {
      LastOnSplits(existing, Cleanse(frame), r.day);
      LastOnCovers(Cleanse(frame), r.day);
    }
    forall d ensures d in Days(merged) <==> d in Days(existing) || d in Days(Cleanse(frame)) {
      LastOnCovers(existing, d);
      LastOnCovers(Cleanse(frame), d);
      if d in Days(Cleanse(frame)) {
        assert Row(d, LastOn(Cleanse(frame), d).value) in merged;
      } else if d in Days(existing) {
        assert Row(d, LastOn(existing, d).value) in merged;
      }
      if d in Days(merged) {
        var r :| r in merged && r.day == d;
      }
    }
  }

  lemma {:induction false} OneRowPerDayUnrolls<V>(rows: seq<Row<V>>)
    requires rows != []
    ensures OneRowPerDay(rows) <==> rows[0].day !in Days(rows[1..]) && OneRowPerDay(rows[1..])
  {
    var tail := rows[1..];
    forall j | 0 < j < |rows| ensures rows[j].day in Days(tail) {
      assert rows[j] == tail[j - 1];
    }
    forall d | d in Days(tail) ensures exists j :: 0 < j < |rows| && rows[j].day == d {
      var i :| 0 <= i < |tail| && tail[i].day == d;
      assert rows[i + 1].day == d;
    }
    assert OneRowPerDay(tail) <==> forall i, j | 1 <= i < j < |rows| :: rows[i].day != rows[j].day by {
      assert forall i | 0 <= i < |tail| :: tail[i] == rows[i + 1];
      assert forall i | 1 <= i < |rows| :: rows[i] == tail[i - 1];
    }
  }

  lemma {:induction false} KeepLastShrinks<V>(rows: seq<Row<V>>)
    ensures |KeepLast(rows)| <= |rows|
    ensures |KeepLast(rows)| == |rows| <==> OneRowPerDay(rows)
    ensures OneRowPerDay(rows) ==> KeepLast(rows) == rows
  {
    if rows != [] {
      KeepLastShrinks(rows[1..]);
      OneRowPerDayUnrolls(rows);
    }
  }

  /** The merge keeps every row exactly when no two of them share a date; datasets with several
      rows a day lose all but the last. */
  lemma {:induction false} MergeKeepsAllExactlyWhen<V(!new)>(existing: seq<Row<V>>, frame: seq<Raw<V>>)
    ensures multiset(Merge(existing, frame)) == multiset(existing + Cleanse(frame))
       <==> OneRowPerDay(existing + Cleanse(frame))
  {
    var all := existing + Cleanse(frame);
    KeepLastShrinks(all);
    ByDayIsTotal<V>();
    SortIsSortedPermutation(ByDay(), KeepLast(all));
    assert |multiset(Merge(existing, frame))| == |KeepLast(all)|;
    assert |multiset(all)| == |all|;
  }

  lemma {:induction false} DatedPair<V>(a: Raw<V>, b: Raw<V>)
    requires a.day.Some? && b.day.Some?
    ensures Dated([a]) == [Row(a.day.value, a.value)]
    ensures Dated([a, b]) == [Row(a.day.value, a.value), Row(b.day.value, b.value)]
  {
    assert [a, b][1..] == [b] && [a][1..] == [] && [b][1..] == [];
    assert Dated([b]) == [Row(b.day.value, b.value)] + Dated([]);
  }

  /** Two price levels of one date, pulled onto a shard of the day before: one is lost. */
  lemma {:induction false} OneOfTwoLevelsIsLost()
    ensures var frame := [Raw(Some(2), 21), Raw(Some(2), 22)];
            Merge([Row(1, 10)], frame) == [Row(1, 10), Row(2, 22)] && |Cleanse(frame)| == 2
  {
    var a, b := Raw(Some(2), 21), Raw(Some(2), 22);
    DatedPair(a, b);
    var x, y := Row(2, 21), Row(2, 22);
    assert [x, y][1..] == [y] && [y][1..] == [];
    assert Sort(ByDay(), [y]) == [y];
    assert Cleanse([a, b]) == [x, y];
    var all := [Row(1, 10)] + [x, y];
    assert all[1..] == [x, y];
    assert Days([y]) == {2} && Days([x, y]) == {2} by { assert [y][0].day == 2 && [x, y][0].day == 2; }
    assert KeepLast([y]) == [y] + KeepLast([]);
    assert KeepLast([x, y]) == [y];
    assert KeepLast(all) == [Row(1, 10)] + [y];
    var kept := [Row(1, 10), y];
    assert KeepLast(all) == kept && kept[1..] == [y];
    assert Sort(ByDay(), kept) == kept;
  }

  // ---------------------------------------------------------------- an append-only source

  /** One pull of `[lo, hi]`, day by day: the upstream has at most one row a date. */
  function Pull<V>(up: map<int, V>, lo: int, hi: int): seq<Row<V>>
    decreases hi - lo
  {
    if hi < lo then [] else
    (if lo in up then [Row(lo, up[lo])] else []) + Pull(up, lo + 1, hi)
  }

  /** The API answers with exactly the requested rows, in any order; rows without a usable date
      may be mixed in. */
  ghost predicate Answers<V(!new)>(up: map<int, V>, lo: int, hi: int, frame: seq<Raw<V>>) {
    && OneRowPerDay(Dated(frame))
    && (forall r: Row<V> :: r in Dated(frame) <==> InRange(up, lo, hi, r))
  }

  ghost predicate InRange<V>(up: map<int, V>, lo: int, hi: int, r: Row<V>) {
    lo <= r.day <= hi && LastKnown(up, r.day) == Some(r.value)
  }

  function LastKnown<V>(up: map<int, V>, day: int): Option<V> {
    if day in up then Some(up[day]) else None
  }

  /** Row k stands at position `at[k]` of the frame, and every dated row is there. */
  ghost predicate StandAt<V>(frame: seq<Raw<V>>, rows: seq<Row<V>>, at: seq<nat>) {
    && |at| == |rows|
    && (forall k | 0 <= k < |at| :: at[k] < |frame| && frame[at[k]] == Raw(Some(rows[k].day), rows[k].value))
    && (forall k, l | 0 <= k < l < |at| :: at[k] < at[l])
    && (forall i: nat | i < |frame| && frame[i].day.Some? :: i in at)
  }

  lemma {:induction false} DatedAppend<V>(frame: seq<Raw<V>>, x: Raw<V>)
    ensures Dated(frame + [x]) == Dated(frame) + if x.day.Some? then [Row(x.day.value, x.value)] else []
  {
    if frame == [] {
      assert frame + [x] == [x] && [x][1..] == [];
    } else {
      assert (frame + [x])[1..] == frame[1..] + [x];
      DatedAppend(frame[1..], x);
    }
  }

  lemma {:induction false} StandLonger<V>(frame: seq<Raw<V>>, rows: seq<Row<V>>, at: seq<nat>, x: Raw<V>)
    requires StandAt(frame, rows, at)
    ensures x.day.None? ==> StandAt(frame + [x], rows, at)
    ensures x.day.Some? ==> StandAt(frame + [x], rows + [Row(x.day.value, x.value)], at + [|frame|])
  {
    forall i: nat | i < |frame + [x]| && (frame + [x])[i].day.Some? ensures i in at + [|frame|] {
      if i < |frame| { assert frame[i].day.Some? && i in at; }
    }
  }

  lemma {:induction false} DatedRowsAt<V>(frame: seq<Raw<V>>) returns (at: seq<nat>)
    ensures StandAt(frame, Dated(frame), at)
  {
    if frame == [] {
      at := [];
    } else {
      var front, last := frame[..|frame| - 1], frame[|frame| - 1];
      assert frame == front + [last];
      var before := DatedRowsAt(front);
      DatedAppend(front, last);
      hide StandAt, Dated;
      StandLonger(front, Dated(front), before, last);
      at := if last.day.Some? then before + [|front|] else before;
    }
  }

  /** An answer is exact when its dated rows have different dates, these are the source's dates of the
      range, and each carries the source's value. */
  lemma {:induction false} AnswersExactlyWhen<V(!new)>(up: map<int, V>, lo: int, hi: int, frame: seq<Raw<V>>)
    ensures Answers(up, lo, hi, frame) <==>
            && (forall i, j | 0 <= i < j < |frame| && frame[i].day.Some? :: frame[i].day != frame[j].day)
            && (forall d | lo <= d <= hi && d in up :: Raw(Some(d), up[d]) in frame)
            && (forall r | r in frame && r.day.Some? ::
                  lo <= r.day.value <= hi && r.day.value in up && r.value == up[r.day.value])
  {
    var at := DatedRowsAt(frame);
    var rows := Dated(frame);
    hide Dated;
    forall r: Row<V> ensures r in rows <==> Raw(Some(r.day), r.value) in frame {
      if r in rows {
        var k :| 0 <= k < |rows| && rows[k] == r;
        assert frame[at[k]] in frame;
      }
      if Raw(Some(r.day), r.value) in frame {
        var i :| 0 <= i < |frame| && frame[i] == Raw(Some(r.day), r.value);
        var k :| 0 <= k < |at| && at[k] == i;
        assert rows[k] == r;
      }
    }
    DistinctDates(frame, rows, at);
    RangeRows(up, lo, hi, frame);
  }

  lemma {:induction false} DistinctDates<V>(frame: seq<Raw<V>>, rows: seq<Row<V>>, at: seq<nat>)
    requires StandAt(frame, rows, at)
    ensures OneRowPerDay(rows) <==>
            forall i, j | 0 <= i < j < |frame| && frame[i].day.Some? :: frame[i].day != frame[j].day
  {
    if OneRowPerDay(rows) {
      forall i, j | 0 <= i < j < |frame| && frame[i].day.Some? && frame[j].day.Some?
        ensures frame[i].day != frame[j].day
      {
        var k :| 0 <= k < |at| && at[k] == i;
        var l :| 0 <= l < |at| && at[l] == j;
        assert rows[k].day == frame[i].day.value && rows[l].day == frame[j].day.value;
        assert k < l;
      }
    }
    if forall i, j | 0 <= i < j < |frame| && frame[i].day.Some? :: frame[i].day != frame[j].day {
      forall k, l | 0 <= k < l < |rows| ensures rows[k].day != rows[l].day {
        assert frame[at[k]].day != frame[at[l]].day;
      }
    }
  }

  lemma {:induction false} RangeRows<V(!new)>(up: map<int, V>, lo: int, hi: int, frame: seq<Raw<V>>)
    requires forall r: Row<V> :: r in Dated(frame) <==> Raw(Some(r.day), r.value) in frame
    ensures (forall r: Row<V> :: r in Dated(frame) <==> InRange(up, lo, hi, r)) <==>
            && (forall d | lo <= d <= hi && d in up :: Raw(Some(d), up[d]) in frame)
            && (forall r | r in frame && r.day.Some? ::
                  lo <= r.day.value <= hi && r.day.value in up && r.value == up[r.day.value])
  {
    hide Dated;
    var exact := forall r: Row<V> :: r in Dated(frame) <==> InRange(up, lo, hi, r);
    if exact {
      forall d | lo <= d <= hi && d in up ensures Raw(Some(d), up[d]) in frame {
        assert InRange(up, lo, hi, Row(d, up[d]));
      }
      forall r | r in frame && r.day.Some?
        ensures lo <= r.day.value <= hi && r.day.value in up && r.value == up[r.day.value] {
        assert r == Raw(Some(Row(r.day.value, r.value).day), Row(r.day.value, r.value).value);
        assert InRange(up, lo, hi, Row(r.day.value, r.value));
      }
    }
  }

  lemma {:induction false} PullMeaning<V>(up: map<int, V>, lo: int, hi: int)
    ensures StrictlySorted(Pull(up, lo, hi))
    ensures forall r :: r in Pull(up, lo, hi) <==> InRange(up, lo, hi, r)
    decreases hi - lo
  {
    if lo <= hi {
      PullMeaning(up, lo + 1, hi);
      var rest := Pull(up, lo + 1, hi);
      forall j | 0 <= j < |rest| ensures lo < rest[j].day {
        assert rest[j] in rest;
        assert InRange(up, lo + 1, hi, rest[j]);
      }
    }
  }

  lemma {:induction false} PullSplits<V>(up: map<int, V>, lo: int, mid: int, hi: int)
    requires lo <= mid + 1 && mid <= hi
    ensures Pull(up, lo, hi) == Pull(up, lo, mid) + Pull(up, mid + 1, hi)
    decreases mid - lo
  {
    if lo <= mid {
      PullSplits(up, lo + 1, mid, hi);
    } else {
      assert Pull(up, lo, mid) == [];
    }
  }

  /** One unresumed pull stores exactly the source's rows in the range, in date order. */
  lemma {:induction false} FullPullStoresTheRange<V(!new)>(up: map<int, V>, lo: int, hi: int, frame: seq<Raw<V>>)
    requires Answers(up, lo, hi, frame)
    ensures Cleanse(frame) == Pull(up, lo, hi)
  {
    SortIsStrict(Dated(frame));
    PullMeaning(up, lo, hi);
    SortedRowsAreUnique(Cleanse(frame), Pull(up, lo, hi));
  }

  lemma {:induction false} LastDayBounds<V>(rows: seq<Row<V>>)
    requires rows != []
    ensures LastDay(rows) in Days(rows) && FirstDay(rows) in Days(rows)
    ensures forall r :: r in rows ==> FirstDay(rows) <= r.day <= LastDay(rows)
  {
    assert rows == [rows[0]] + rows[1..];
    if |rows| > 1 {
      LastDayBounds(rows[1..]);
    }
  }

  /** Adding what is missing to a shard that is complete up to its last day completes it to `end`. */
  lemma {:induction false} ResumedPullCompletes<V(!new)>(up: map<int, V>, first: int, rows: seq<Row<V>>, end: int,
                                                         frame: seq<Raw<V>>)
    requires rows != [] && rows == Pull(up, first, LastDay(rows)) && LastDay(rows) < end
    requires Answers(up, LastDay(rows) + 1, end, frame)
    ensures Merge(rows, frame) == Pull(up, first, end)
  {
    var mid := LastDay(rows);
    FullPullStoresTheRange(up, mid + 1, end, frame);
    LastDayBounds(rows);
    PullMeaning(up, first, mid);
    assert first <= mid;
    PullSplits(up, first, mid, end);
    PullMeaning(up, first, end);
    var all := rows + Cleanse(frame);
    assert all == Pull(up, first, end);
    KeepLastShrinks(all);
    SortIsStrict(all);
    SortedRowsAreUnique(Sort(ByDay(), all), all);
  }

  // ---------------------------------------------------------------- runs

  /** `first` is the start of the pull that founded the shard. */
  datatype State<V> = State(up: map<int, V>, shard: Shard<V>, first: int)

  datatype Event<V> =
    | Publish(more: map<int, V>)
    | Torn
    | Sync(start: int, end: int, resume: bool, frame: seq<Raw<V>>)

  function Next<V>(s: State<V>, e: Event<V>): State<V> {
    match e
    case Publish(more) => s.(up := s.up + more)
    case Torn => s.(shard := Unreadable)
    case Sync(start, end, resume, frame) =>
      if FetchFrom(s.shard, start, end, resume, false).None? || frame == [] then s
      else s.(shard := AfterPull(s.shard, resume, frame),
              first := if Resumes(s.shard, resume) then s.first else start)
  }

  /** The source only appends later dates, and a pull is answered exactly or comes back empty. */
  ghost predicate Legal<V(!new)>(s: State<V>, e: Event<V>) {
    match e
    case Publish(more) => forall d, u | d in more && u in s.up :: u < d
    case Torn => true
    case Sync(start, end, resume, frame) =>
      var from := FetchFrom(s.shard, start, end, resume, false);
      from.Some? && frame != [] ==> Answers(s.up, from.value, end, frame)
  }

  function Run<V>(s: State<V>, events: seq<Event<V>>): State<V> {
    if events == [] then s
    else Next(Run(s, events[..|events| - 1]), events[|events| - 1])
  }

  ghost predicate LegalRun<V(!new)>(s: State<V>, events: seq<Event<V>>) {
    events == [] ||
    (LegalRun(s, events[..|events| - 1]) && Legal(Run(s, events[..|events| - 1]), events[|events| - 1]))
  }

  /** The shard is one pull of the source as it now is, from `first` to the shard's last day. */
  ghost predicate UpToItsLastDay<V>(s: State<V>) {
    s.shard.Stored? && s.shard.rows != [] ==> s.shard.rows == Pull(s.up, s.first, LastDay(s.shard.rows))
  }

  lemma {:induction false} PullIgnoresLaterDays<V>(up: map<int, V>, more: map<int, V>, lo: int, hi: int)
    requires forall d | d in more :: hi < d
    ensures Pull(up + more, lo, hi) == Pull(up, lo, hi)
    decreases hi - lo
  {
    if lo <= hi { PullIgnoresLaterDays(up, more, lo + 1, hi); }
  }

  lemma {:induction false} PullToItsLastDay<V>(up: map<int, V>, lo: int, hi: int)
    requires Pull(up, lo, hi) != []
    ensures Pull(up, lo, hi) == Pull(up, lo, LastDay(Pull(up, lo, hi)))
  {
    var rows := Pull(up, lo, hi);
    var last := LastDay(rows);
    LastDayBounds(rows);
    PullMeaning(up, lo, hi);
    PullMeaning(up, lo, last);
    var top := RowOf(rows, last);
    assert InRange(up, lo, hi, top);
    forall r ensures r in rows <==> r in Pull(up, lo, last) {
      assert r in rows <==> InRange(up, lo, hi, r);
      assert r in Pull(up, lo, last) <==> InRange(up, lo, last, r);
      if r in rows { assert r.day <= last; }
    }
    SortedRowsAreUnique(rows, Pull(up, lo, last));
  }

  lemma {:induction false} StepKeepsUpToItsLastDay<V(!new)>(s: State<V>, e: Event<V>)
    requires UpToItsLastDay(s) && Legal(s, e)
    ensures UpToItsLastDay(Next(s, e))
  {
    match e
    case Publish(more) =>
      if s.shard.Stored? && s.shard.rows != [] {
        var last := LastDay(s.shard.rows);
        LastDayBounds(s.shard.rows);
        PullMeaning(s.up, s.first, last);
        var r :| r in s.shard.rows && r.day == last;
        assert InRange(s.up, s.first, last, r);
        PullIgnoresLaterDays(s.up, more, s.first, last);
      }
    case Torn =>
    case Sync(start, end, resume, frame) =>
      var from := FetchFrom(s.shard, start, end, resume, false);
      if from.Some? && frame != [] {
        var t := Next(s, e);
        if Resumes(s.shard, resume) {
          ResumedPullCompletes(s.up, s.first, s.shard.rows, end, frame);
        } else {
          FullPullStoresTheRange(s.up, start, end, frame);
        }
        assert t.shard.rows == Pull(t.up, t.first, end);
        if t.shard.rows != [] { PullToItsLastDay(t.up, t.first, end); }
      }
  }

  /** After any run of resumed and unresumed syncs, torn writes, failed pulls and new data, the
      shard is what one pull of the source would give up to the shard's last day: date-sorted,
      one row a day, nothing missing in between. */
  lemma {:induction false} ShardIsOnePull<V(!new)>(s: State<V>, events: seq<Event<V>>)
    requires UpToItsLastDay(s) && LegalRun(s, events)
    ensures UpToItsLastDay(Run(s, events))
  {
    if events != [] {
      var init := events[..|events| - 1];
      ShardIsOnePull(s, init);
      StepKeepsUpToItsLastDay(Run(s, init), events[|events| - 1]);
    }
  }

  /** When the run ends with an answered sync, the shard is one pull of `[first, end]`; when that
      sync was skipped, the shard already reached beyond `end`. */
  lemma {:induction false} AnsweredSyncCatchesUp<V(!new)>(s: State<V>, events: seq<Event<V>>, last: Event<V>)
    requires UpToItsLastDay(s) && LegalRun(s, events + [last]) && last.Sync?
    ensures var before := Run(s, events);
            var t := Run(s, events + [last]);
            match FetchFrom(before.shard, last.start, last.end, last.resume, false)
            case None => t == before && last.end <= LastDay(t.shard.rows) &&
                         t.shard.rows == Pull(t.up, t.first, LastDay(t.shard.rows))
            case Some(_) => last.frame == [] || t.shard == Stored(Pull(t.up, t.first, last.end))
  {
    assert (events + [last])[..|events + [last]| - 1] == events;
    ShardIsOnePull(s, events);
    var before := Run(s, events);
    var from := FetchFrom(before.shard, last.start, last.end, last.resume, false);
    if from.Some? && last.frame != [] {
      if Resumes(before.shard, last.resume) {
        ResumedPullCompletes(before.up, before.first, before.shard.rows, last.end, last.frame);
      } else {
        FullPullStoresTheRange(before.up, last.start, last.end, last.frame);
      }
    }
  }

  /** A resumed sync never drops a stored day, whatever the API returns. */
  lemma {:induction false} ResumedSyncKeepsDays<V(!new)>(shard: Shard<V>, frame: seq<Raw<V>>)
    requires shard.Stored?
    ensures AfterPull(shard, true, frame).Stored?
    ensures Days(shard.rows) <= Days(AfterPull(shard, true, frame).rows)
    ensures frame == [] ==> AfterPull(shard, true, frame) == shard
  {
    if frame != [] && shard.rows != [] {
      MergeMeaning(shard.rows, frame);
    }
  }

  /** Rows the source changes or back-fills within the stored span are never seen again: after an
      answered resumed sync the shard is one pull exactly when the span did not change. */
  lemma {:induction false} BackfillIsMissedExactlyWhen<V(!new)>(up: map<int, V>, now: map<int, V>, first: int,
                                                               rows: seq<Row<V>>, end: int, frame: seq<Raw<V>>)
    requires rows != [] && rows == Pull(up, first, LastDay(rows)) && LastDay(rows) < end
    requires Answers(now, LastDay(rows) + 1, end, frame)
    ensures Merge(rows, frame) == Pull(now, first, end) <==>
            forall d | first <= d <= LastDay(rows) :: LastKnown(now, d) == LastKnown(up, d)
  {
    if Merge(rows, frame) == Pull(now, first, end) {
      forall d | first <= d <= LastDay(rows) ensures LastKnown(now, d) == LastKnown(up, d) {
        UnchangedBefore(up, now, first, rows, end, frame, d);
      }
    }
    if forall d | first <= d <= LastDay(rows) :: LastKnown(now, d) == LastKnown(up, d) {
      PullDependsOnItsSpan(up, now, first, LastDay(rows));
      ResumedPullCompletes(now, first, rows, end, frame);
    }
  }

  /** Day 1 is corrected after it was stored; the next resumed sync only brings day 2. */
  lemma {:induction false} CorrectionIsMissed()
    ensures var now, frame := map[1 := 11, 2 := 20], [Raw(Some(2), 20)];
            && Answers(now, 2, 2, frame)
            && Merge([Row(1, 10)], frame) == [Row(1, 10), Row(2, 20)]
            && Pull(now, 1, 2) == [Row(1, 11), Row(2, 20)]
  {
    var up, now, frame := map[1 := 10], map[1 := 11, 2 := 20], [Raw(Some(2), 20)];
    assert frame[1..] == [];
    assert Dated(frame) == [Row(2, 20)];
    forall r: Row<int> ensures r in Dated(frame) <==> InRange(now, 2, 2, r) {}
    assert Pull(now, 3, 2) == [] && Pull(now, 2, 2) == [Row(2, 20)];
    assert Pull(now, 1, 2) == [Row(1, 11)] + Pull(now, 2, 2);
    FullPullStoresTheRange(now, 2, 2, frame);
    var all := [Row(1, 10)] + Cleanse(frame);
    assert all == [Row(1, 10), Row(2, 20)];
    KeepLastShrinks(all);
    SortIsStrict(all);
    SortedRowsAreUnique(Sort(ByDay(), all), all);
  }

  lemma {:induction false} PullDependsOnItsSpan<V>(up: map<int, V>, now: map<int, V>, lo: int, hi: int)
    requires forall d | lo <= d <= hi :: LastKnown(now, d) == LastKnown(up, d)
    ensures Pull(now, lo, hi) == Pull(up, lo, hi)
    decreases hi - lo
  {
    if lo <= hi {
      PullDependsOnItsSpan(up, now, lo + 1, hi);
      assert LastKnown(now, lo) == LastKnown(up, lo);
    }
  }

  lemma {:induction false} UnchangedBefore<V(!new)>(up: map<int, V>, now: map<int, V>, first: int, rows: seq<Row<V>>,
                                                    end: int, frame: seq<Raw<V>>, d: int)
    requires rows != [] && rows == Pull(up, first, LastDay(rows)) && first <= d <= LastDay(rows) < end
    requires Answers(now, LastDay(rows) + 1, end, frame)
    requires Merge(rows, frame) == Pull(now, first, end)
    ensures LastKnown(now, d) == LastKnown(up, d)
  {
    hide *;
    if LastKnown(up, d).Some? { SameBefore(up, now, first, rows, end, frame, Row(d, LastKnown(up, d).value)); }
    if LastKnown(now, d).Some? { SameBefore(up, now, first, rows, end, frame, Row(d, LastKnown(now, d).value)); }
  }

  /** A row within the stored span is known to the source now exactly when it was known then. */
  lemma {:induction false} SameBefore<V(!new)>(up: map<int, V>, now: map<int, V>, first: int, rows: seq<Row<V>>,
                                               end: int, frame: seq<Raw<V>>, r: Row<V>)
    requires rows != [] && rows == Pull(up, first, LastDay(rows)) && first <= r.day <= LastDay(rows) < end
    requires Answers(now, LastDay(rows) + 1, end, frame)
    requires Merge(rows, frame) == Pull(now, first, end)
    ensures LastKnown(now, r.day) == Some(r.value) <==> LastKnown(up, r.day) == Some(r.value)
  {
    hide LastDay, Merge, Cleanse, Pull, LastOn, Answers, LastKnown, StrictlySorted;
    var pulled := Cleanse(frame);
    FullPullStoresTheRange(now, LastDay(rows) + 1, end, frame);
    PullMeaning(now, LastDay(rows) + 1, end);
    PullMeaning(now, first, end);
    PullMeaning(up, first, LastDay(rows));
    forall d | d in Days(pulled) ensures LastDay(rows) < d {
      var p := RowOf(pulled, d);
      assert InRange(now, LastDay(rows) + 1, end, p);
    }
    MergeMeaning(rows, frame);
    StrictDaysDiffer(rows);
    LastOnUnique(rows, r);
    assert r in Merge(rows, frame) <==> r in rows;
  }

  lemma {:induction false} StrictDaysDiffer<V>(rows: seq<Row<V>>)
    requires StrictlySorted(rows)
    ensures OneRowPerDay(rows)
  {}
}
