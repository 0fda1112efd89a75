/** data/tushare_sync.py 360-407: forward-adjusting a pulled batch with as-of factors. */
module AsOfAdjust {
  import Arithmetic
  import opened Wrappers
  import opened Sorting
  import opened ShardSync

  /** One bar: the price columns, which are adjusted, and the columns that are not. */
  datatype Bar = Bar(prices: seq<real>, rest: seq<real>)

  /** An adjustment factor may itself be missing. */
  type Factor = Option<real>

  datatype Outcome = Raised | Skipped | Adjusted(frame: seq<Raw<Bar>>)

  // ---------------------------------------------------------------- the factor of a day

  function Later(x: Row<Factor>, best: Option<Row<Factor>>, day: int): Option<Row<Factor>> {
    if best.Some? && (day < x.day || x.day <= best.value.day) then best
    else if x.day <= day then Some(x)
    else None
  }

  /** The row of the greatest day not after `day`; the last such row when several share it. */
  function AsOf(rows: seq<Row<Factor>>, day: int): Option<Row<Factor>> {
    if rows == [] then None else Later(rows[0], AsOf(rows[1..], day), day)
  }

  function FactorOn(rows: seq<Row<Factor>>, day: int): Factor {
    match AsOf(rows, day)
    case None => None
    case Some(r) => r.value
  }

  /** The factor of the newest row, to which all prices are scaled. */
  function Base(rows: seq<Row<Factor>>): Factor
    requires rows != []
  {
    FactorOn(rows, LastDay(rows))
  }

  lemma {:induction false} AsOfMeaning(rows: seq<Row<Factor>>, day: int)
    ensures AsOf(rows, day).None? <==> forall r | r in rows :: day < r.day
    ensures AsOf(rows, day).Some? ==>
              var best := AsOf(rows, day).value;
              && best in rows && best.day <= day
              && forall r | r in rows && r.day <= day :: r.day <= best.day
  {
    if rows != [] {
      AsOfMeaning(rows[1..], day);
      assert rows == [rows[0]] + rows[1..];
    }
  }

  lemma {:induction false} InsertKeepsAsOf(x: Row<Factor>, s: seq<Row<Factor>>, day: int)
    requires SortedBy(ByDay(), s)
    ensures AsOf(Insert(ByDay(), x, s), day) == Later(x, AsOf(s, day), day)
  {
    if s == [] || x.day <= s[0].day {
      assert ([x] + s)[1..] == s;
    } else {
      InsertKeepsAsOf(x, s[1..], day);
      var rest := Insert(ByDay(), x, s[1..]);
      assert ([s[0]] + rest)[1..] == rest;
      AsOfMeaning(s[1..], day);
      assert AsOf(s[1..], day).Some? ==> AsOf(s[1..], day).value in s[1..];
    }
  }

  /** Sorting the factor table first does not change which row is as of a day. */
  lemma {:induction false} SortKeepsAsOf(rows: seq<Row<Factor>>, day: int)
    ensures AsOf(Sort(ByDay(), rows), day) == AsOf(rows, day)
  {
    if rows != [] {
      SortKeepsAsOf(rows[1..], day);
      ByDayIsTotal<Factor>();
      SortIsSortedPermutation(ByDay(), rows[1..]);
      InsertKeepsAsOf(rows[0], Sort(ByDay(), rows[1..]), day);
    }
  }

  /** In a sorted table the as-of row is the one before the first later row. */
  lemma {:induction false} AsOfAtCut(rows: seq<Row<Factor>>, cut: nat, day: int)
    requires cut <= |rows| && SortedBy(ByDay(), rows)
    requires forall k | 0 <= k < cut :: rows[k].day <= day
    requires forall k | cut <= k < |rows| :: day < rows[k].day
    ensures AsOf(rows, day) == if cut == 0 then None else Some(rows[cut - 1])
  {
    if rows != [] {
      AsOfAtCut(rows[1..], if cut == 0 then 0 else cut - 1, day);
      assert cut > 0 ==> ByDay<Factor>()(rows[0], rows[cut - 1]) || cut == 1;
    }
  }

  /** Factors of later days do not reach back. */
  lemma {:induction false} LaterFactorsDoNotMatter(rows: seq<Row<Factor>>, more: seq<Row<Factor>>, day: int)
    requires forall r | r in more :: day < r.day
    ensures AsOf(rows + more, day) == AsOf(rows, day)
  {
    if rows == [] {
      assert rows + more == more;
      AsOfMeaning(more, day);
    } else {
      assert (rows + more)[1..] == rows[1..] + more;
      LaterFactorsDoNotMatter(rows[1..], more, day);
    }
  }

  // ---------------------------------------------------------------- the specification

  predicate AllDated<V>(frame: seq<Raw<V>>) {
    forall i | 0 <= i < |frame| :: frame[i].day.Some?
  }

  function Scaled(bar: Bar, factor: real, base: real): Bar
    requires base != 0.0
  {
    Bar(seq(|bar.prices|, k requires 0 <= k < |bar.prices| => bar.prices[k] * factor / base), bar.rest)
  }

  /** Every bar has a factor, and the base is a number other than zero. */
  predicate Covered(frame: seq<Raw<Bar>>, rows: seq<Row<Factor>>)
    requires AllDated(frame) && rows != []
  {
    && (forall i | 0 <= i < |frame| :: FactorOn(rows, frame[i].day.value).Some?)
    && Base(rows).Some? && Base(rows).value != 0.0
  }

  /** Each bar is scaled by the factor of its own day, wherever it stands in the frame. */
  function AdjustedFrame(frame: seq<Raw<Bar>>, rows: seq<Row<Factor>>): (r: seq<Raw<Bar>>)
    requires AllDated(frame) && rows != [] && Covered(frame, rows)
  {
    seq(|frame|, i requires 0 <= i < |frame| =>
      Raw(frame[i].day,
          Scaled(frame[i].value, FactorOn(rows, frame[i].day.value).value, Base(rows).value)))
  }

  /** `factors` is `None` when the factor table lacks a column. A table with an unusable date
      makes the as-of join raise. */
  function Adjust(frame: seq<Raw<Bar>>, factors: Option<seq<Raw<Factor>>>): Outcome {
    if factors.None? || factors.value == [] then Skipped
    else if !AllDated(frame) || !AllDated(factors.value) then Raised
    else if Dated(factors.value) == [] || !Covered(frame, Dated(factors.value)) then Skipped
    else Adjusted(AdjustedFrame(frame, Dated(factors.value)))
  }

  // ---------------------------------------------------------------- sort, merge, restore

  /** `merge_asof(..., direction="backward")`: one pass over two sorted tables. */
  method BackwardMerge(left: seq<Row<nat>>, right: seq<Row<Factor>>) returns (merged: seq<Row<Factor>>)
    requires SortedBy(ByDay(), left) && SortedBy(ByDay(), right)
    ensures |merged| == |left|
    ensures forall i | 0 <= i < |left| :: merged[i] == Row(left[i].value, FactorOn(right, left[i].day))
  {
    merged := [];
    var r := 0;
    for i := 0 to |left|
      invariant 0 <= r <= |right| && |merged| == i
      invariant forall k | 0 <= k < i :: merged[k] == Row(left[k].value, FactorOn(right, left[k].day))
      invariant forall k | 0 <= k < r :: 0 < i && right[k].day <= left[i - 1].day
    {
      if 0 < i { assert ByDay<nat>()(left[i - 1], left[i]); }
      while r < |right| && right[r].day <= left[i].day
        invariant 0 <= r <= |right|
        invariant forall k | 0 <= k < r :: right[k].day <= left[i].day
      {
        r := r + 1;
      }
      assert forall k | r < k < |right| :: ByDay<Factor>()(right[r], right[k]);
      AsOfAtCut(right, r, left[i].day);
      merged := merged + [Row(left[i].value, if r == 0 then None else right[r - 1].value)];
    }
  }

  /** The frame's days, each carrying its position. */
  function Positions(frame: seq<Raw<Bar>>): (r: seq<Row<nat>>)
    requires AllDated(frame)
  {
    seq(|frame|, i requires 0 <= i < |frame| => Row(frame[i].day.value, i))
  }

  ghost predicate ValuesDiffer(rows: seq<Row<nat>>) {
    forall i, j | 0 <= i < j < |rows| :: rows[i].value != rows[j].value
  }

  lemma {:induction false} InsertKeepsValues(x: Row<nat>, s: seq<Row<nat>>)
    requires ValuesDiffer(s) && forall i | 0 <= i < |s| :: s[i].value != x.value
    ensures ValuesDiffer(Insert(ByDay(), x, s))
    ensures forall r :: r in Insert(ByDay(), x, s) <==> r == x || r in s
  {
    if s != [] && !ByDay<nat>()(x, s[0]) {
      var rest := Insert(ByDay(), x, s[1..]);
      assert s == [s[0]] + s[1..];
      InsertKeepsValues(x, s[1..]);
      forall j | 0 <= j < |rest| ensures s[0].value != rest[j].value {
        assert rest[j] in rest;
      }
    }
  }

  lemma {:induction false} SortKeepsValues(s: seq<Row<nat>>)
    requires ValuesDiffer(s)
    ensures ValuesDiffer(Sort(ByDay(), s))
    ensures forall r :: r in Sort(ByDay(), s) <==> r in s
  {
    if s != [] {
      assert s == [s[0]] + s[1..];
      SortKeepsValues(s[1..]);
      var sorted := Sort(ByDay(), s[1..]);
      forall i | 0 <= i < |sorted| ensures sorted[i].value != s[0].value {
        assert sorted[i] in sorted;
      }
      InsertKeepsValues(s[0], sorted);
    }
  }

  /** Sorting the merged table by position puts the factor of bar i in place i. */
  lemma {:induction false} PositionsAreRestored(frame: seq<Raw<Bar>>, rows: seq<Row<Factor>>, merged: seq<Row<Factor>>)
    requires AllDated(frame)
    requires var left := Sort(ByDay(), Positions(frame));
             |merged| == |left| &&
             forall i | 0 <= i < |left| :: merged[i] == Row(left[i].value, FactorOn(rows, left[i].day))
    ensures Sort(ByDay(), merged) == seq(|frame|, i requires 0 <= i < |frame| =>
                                       Row(i, FactorOn(rows, frame[i].day.value)))
  {
    var left := Sort(ByDay(), Positions(frame));
    var series := seq(|frame|, i requires 0 <= i < |frame| => Row(i, FactorOn(rows, frame[i].day.value)));
    SortKeepsValues(Positions(frame));
    SortIsStrict(merged);
    forall r ensures r in merged <==> r in series {
      if r in merged {
        var i :| 0 <= i < |merged| && merged[i] == r;
        assert left[i] in left && left[i] in Positions(frame);
        assert r == series[left[i].value];
      }
      if r in series {
        var i :| 0 <= i < |series| && series[i] == r;
        assert Positions(frame)[i] in Positions(frame);
        var j :| 0 <= j < |left| && left[j] == Positions(frame)[i];
        assert merged[j] == r;
      }
    }
    SortedRowsAreUnique(Sort(ByDay(), merged), series);
  }

  lemma {:induction false} DatedRows<V>(frame: seq<Raw<V>>)
    requires AllDated(frame)
    ensures |Dated(frame)| == |frame|
    ensures forall i | 0 <= i < |frame| :: Dated(frame)[i] == Row(frame[i].day.value, frame[i].value)
  {
    if frame != [] {
      DatedRows(frame[1..]);
      assert frame == [frame[0]] + frame[1..];
    }
  }

  lemma {:induction false} SortedLast(rows: seq<Row<Factor>>)
    requires rows != []
    ensures Sort(ByDay(), rows) != []
    ensures var sorted := Sort(ByDay(), rows); sorted[|sorted| - 1].value == Base(rows)
  {
    hide Sort, LastDay, FirstDay, AsOf;
    ByDayIsTotal<Factor>();
    SortIsSortedPermutation(ByDay(), rows);
    var sorted := Sort(ByDay(), rows);
    LastDayBounds(rows);
    var last := RowOf(rows, LastDay(rows));
    assert last in sorted;
    forall k | 0 <= k < |sorted| ensures sorted[k].day <= LastDay(rows) {
      assert sorted[k] in sorted;
    }
    AsOfAtCut(sorted, |sorted|, LastDay(rows));
    SortKeepsAsOf(rows, LastDay(rows));
  }

  /** The batch goes through the sort, the merge and the restored order, and comes out as the
      bar-by-bar definition says. */
  method AdjustBatch(frame: seq<Raw<Bar>>, factors: Option<seq<Raw<Factor>>>) returns (r: Outcome)
    ensures r == Adjust(frame, factors)
  {
    hide Sort, Dated, Positions, LastDay, FirstDay, AsOf, FactorOn, Base, Scaled, ByDay, SortedBy, TotalPreorder;
    if factors.None? || factors.value == [] { return Skipped; }
    if !AllDated(frame) || !AllDated(factors.value) { return Raised; }
    var rows := Dated(factors.value);
    DatedRows(factors.value);
    var left := Sort(ByDay(), Positions(frame));
    var right := Sort(ByDay(), rows);
    ByDayIsTotal<nat>();
    ByDayIsTotal<Factor>();
    SortIsSortedPermutation(ByDay(), Positions(frame));
    SortIsSortedPermutation(ByDay(), rows);
    var merged := BackwardMerge(left, right);
    SeriesIsAsOf(frame, rows, merged);
    var series := Sort(ByDay(), merged);
    SortedLast(rows);
    var latest := right[|right| - 1].value;
    var covered := latest.Some? && latest.value != 0.0;
    for i := 0 to |series|
      invariant covered <==> latest.Some? && latest.value != 0.0 && forall k | 0 <= k < i :: series[k].value.Some?
    {
      covered := covered && series[i].value.Some?;
    }
    assert covered <==> Covered(frame, rows);
    if !covered { return Skipped; }
    var out: seq<Raw<Bar>> := [];
    for i := 0 to |frame|
      invariant |out| == i
      invariant forall k | 0 <= k < i :: out[k] == AdjustedFrame(frame, rows)[k]
    {
      out := out + [Raw(frame[i].day, Scaled(frame[i].value, series[i].value.value, latest.value))];
    }
    r := Adjusted(out);
    assert out == AdjustedFrame(frame, rows);
  }

  lemma {:induction false} SeriesIsAsOf(frame: seq<Raw<Bar>>, rows: seq<Row<Factor>>, merged: seq<Row<Factor>>)
    requires AllDated(frame)
    requires var left := Sort(ByDay(), Positions(frame));
             |merged| == |left| && forall i | 0 <= i < |left| ::
               merged[i] == Row(left[i].value, FactorOn(Sort(ByDay(), rows), left[i].day))
    ensures |Sort(ByDay(), merged)| == |frame|
    ensures forall i | 0 <= i < |frame| :: Sort(ByDay(), merged)[i].value == FactorOn(rows, frame[i].day.value)
  {
    var left := Sort(ByDay(), Positions(frame));
    forall i | 0 <= i < |left| ensures merged[i] == Row(left[i].value, FactorOn(rows, left[i].day)) {
      SortKeepsAsOf(rows, left[i].day);
    }
    PositionsAreRestored(frame, rows, merged);
  }

  // ---------------------------------------------------------------- what adjusting promises

  lemma {:induction false} CrossRatio(a: real, b: real, f: real, g: real, base: real, other: real)
    requires base != 0.0 && other != 0.0
    ensures (a * f / base) * (b * g / other) == (a * f / other) * (b * g / base)
  {
    var x, y := a * f, b * g;
    assert (x / base) * (y / other) == (x / other) * (y / base) by {
      var p, q := 1.0 / base, 1.0 / other;
      assert x / base == x * p && y / other == y * q && x / other == x * q && y / base == y * p;
      Swap(x, p, y, q);
    }
  }

  lemma {:induction false} Swap(x: real, p: real, y: real, q: real)
    ensures (x * p) * (y * q) == (x * q) * (y * p)
  {}

  /** Two factor tables that agree on the days of two bars leave the ratio of their prices the
      same, whatever base each table scales to. */
  lemma {:induction false} RatiosIgnoreTheBase(frame: seq<Raw<Bar>>, some: seq<Raw<Factor>>, other: seq<Raw<Factor>>,
                                               i: nat, j: nat, k: nat)
    requires i < |frame| && j < |frame| && k < |frame[i].value.prices| && k < |frame[j].value.prices|
    requires Adjust(frame, Some(some)).Adjusted? && Adjust(frame, Some(other)).Adjusted?
    requires frame[i].day.Some? && frame[j].day.Some?
    requires FactorOn(Dated(some), frame[i].day.value) == FactorOn(Dated(other), frame[i].day.value)
    requires FactorOn(Dated(some), frame[j].day.value) == FactorOn(Dated(other), frame[j].day.value)
    ensures var a, b := Adjust(frame, Some(some)).frame, Adjust(frame, Some(other)).frame;
            |a| == |b| == |frame| &&
            k < |a[i].value.prices| && k < |a[j].value.prices| && k < |b[i].value.prices| && k < |b[j].value.prices| &&
            a[i].value.prices[k] * b[j].value.prices[k] == b[i].value.prices[k] * a[j].value.prices[k]
  {
    hide *;
    AdjustedPrice(frame, some, i, k);
    AdjustedPrice(frame, some, j, k);
    AdjustedPrice(frame, other, i, k);
    AdjustedPrice(frame, other, j, k);
    CrossRatio(frame[i].value.prices[k], frame[j].value.prices[k],
               FactorOn(Dated(some), frame[i].day.value).value, FactorOn(Dated(some), frame[j].day.value).value,
               Base(Dated(some)).value, Base(Dated(other)).value);
  }

  /** An accepted batch gives bar i its own raw price times its own factor over the base. */
  lemma {:induction false} AdjustedPrice(frame: seq<Raw<Bar>>, factors: seq<Raw<Factor>>, i: nat, k: nat)
    requires i < |frame| && k < |frame[i].value.prices|
    requires Adjust(frame, Some(factors)).Adjusted?
    ensures frame[i].day.Some? && Dated(factors) != []
    ensures Base(Dated(factors)).Some? && Base(Dated(factors)).value != 0.0
    ensures FactorOn(Dated(factors), frame[i].day.value).Some?
    ensures var out := Adjust(frame, Some(factors)).frame;
            |out| == |frame| && |out[i].value.prices| == |frame[i].value.prices| &&
            out[i].value.prices[k] == frame[i].value.prices[k] * FactorOn(Dated(factors), frame[i].day.value).value
                                      / Base(Dated(factors)).value
  {
    hide Dated, FactorOn, Base;
    assert AllDated(frame);
    assert Covered(frame, Dated(factors));
  }

  /** A bar on or after the newest factor day keeps its raw prices. */
  lemma {:induction false} NewestBarsKeepTheirPrices(frame: seq<Raw<Bar>>, factors: seq<Raw<Factor>>, i: nat)
    requires Adjust(frame, Some(factors)).Adjusted?
    requires i < |frame| && LastDay(Dated(factors)) <= frame[i].day.value
    ensures Adjust(frame, Some(factors)).frame[i] == frame[i]
  {
    var rows := Dated(factors);
    LastDayBounds(rows);
    SameAsOf(rows, LastDay(rows), frame[i].day.value);
    ScaledToItself(frame[i].value, Base(rows).value);
  }

  lemma {:induction false} ScaledToItself(bar: Bar, base: real)
    requires base != 0.0
    ensures Scaled(bar, base, base) == bar
  {
    var prices := Scaled(bar, base, base).prices;
    forall k | 0 <= k < |prices| ensures prices[k] == bar.prices[k] {
      Arithmetic.Cancel(bar.prices[k], base);
    }
    assert prices == bar.prices;
  }

  lemma {:induction false} SameAsOf(rows: seq<Row<Factor>>, a: int, b: int)
    requires forall r | r in rows :: r.day <= a <==> r.day <= b
    ensures AsOf(rows, a) == AsOf(rows, b)
  {
    if rows != [] {
      assert rows == [rows[0]] + rows[1..];
      SameAsOf(rows[1..], a, b);
    }
  }

  /** With no factor missing and the newest not zero, a batch is accepted exactly when no bar is
      older than the first factor. */
  lemma {:induction false} AcceptedExactlyWhen(frame: seq<Raw<Bar>>, factors: seq<Raw<Factor>>)
    requires AllDated(frame) && AllDated(factors) && factors != []
    requires forall r | r in Dated(factors) :: r.value.Some? && r.value.value != 0.0
    ensures Dated(factors) != []
    ensures Adjust(frame, Some(factors)).Adjusted? <==>
            forall i | 0 <= i < |frame| :: FirstDay(Dated(factors)) <= frame[i].day.value
  {
    var rows := Dated(factors);
    DatedRows(factors);
    LastDayBounds(rows);
    AsOfMeaning(rows, LastDay(rows));
    var last := RowOf(rows, LastDay(rows));
    assert Base(rows).Some? && Base(rows).value != 0.0;
    forall i | 0 <= i < |frame|
      ensures FactorOn(rows, frame[i].day.value).Some? <==> FirstDay(rows) <= frame[i].day.value {
      AsOfMeaning(rows, frame[i].day.value);
      var first := RowOf(rows, FirstDay(rows));
    }
  }

  // ---------------------------------------------------------------- the stored shard

  /** The table's newest factor can serve as the base. */
  predicate Usable(table: seq<Row<Factor>>) {
    table != [] && Base(table).Some? && Base(table).value != 0.0
  }

  /** The source's bars, all scaled to the base of one factor table. */
  function Rescaled(up: map<int, Bar>, rows: seq<Row<Factor>>): map<int, Bar>
    requires Usable(rows)
  {
    map d | d in up :: Scaled(up[d], if FactorOn(rows, d).Some? then FactorOn(rows, d).value else 0.0,
                              Base(rows).value)
  }

  lemma {:induction false} AdjustedAnswers(up: map<int, Bar>, lo: int, hi: int, frame: seq<Raw<Bar>>,
                                           factors: seq<Raw<Factor>>)
    requires Adjust(frame, Some(factors)).Adjusted? && Answers(up, lo, hi, frame)
    ensures Answers(Rescaled(up, Dated(factors)), lo, hi, Adjust(frame, Some(factors)).frame)
  {
    var rows := Dated(factors);
    var out := AdjustedFrame(frame, rows);
    DatedRows(frame);
    DatedRows(out);
    var raw, adjusted := Dated(frame), Dated(out);
    forall i | 0 <= i < |frame|
      ensures adjusted[i].day == raw[i].day && lo <= raw[i].day <= hi && raw[i].day in up
      ensures adjusted[i].value == Rescaled(up, rows)[raw[i].day] {
      assert raw[i] in raw;
      assert InRange(up, lo, hi, raw[i]);
    }
    forall r: Row<Bar> ensures r in adjusted <==> InRange(Rescaled(up, rows), lo, hi, r) {
      if InRange(Rescaled(up, rows), lo, hi, r) {
        var s := Row(r.day, up[r.day]);
        assert InRange(up, lo, hi, s) && s in raw;
        var i :| 0 <= i < |raw| && raw[i] == s;
        assert adjusted[i] == r;
      }
    }
  }

  /** A resumed sync of an adjusted dataset leaves every row, old or new, on the one base of the
      newly pulled factors, and so one pull of the rescaled source, exactly when the source still
      knows every stored day; a day it no longer knows would stay on its old base. */
  lemma {:induction false} OneBaseAfterResync(up: map<int, Bar>, existing: seq<Row<Bar>>, end: int,
                                              frame: seq<Raw<Bar>>, factors: seq<Raw<Factor>>)
    requires existing != [] && LastDay(existing) < end
    requires Answers(up, FirstDay(existing), end, frame) && Adjust(frame, Some(factors)).Adjusted?
    ensures Merge(existing, Adjust(frame, Some(factors)).frame)
              == Pull(Rescaled(up, Dated(factors)), FirstDay(existing), end)
       <==> Days(existing) <= up.Keys
  {
    var lo := FirstDay(existing);
    var out := Adjust(frame, Some(factors)).frame;
    var source := Rescaled(up, Dated(factors));
    AdjustedAnswers(up, lo, end, frame, factors);
    FullPullStoresTheRange(source, lo, end, out);
    PullMeaning(source, lo, end);
    hide Merge, Pull, Cleanse, Answers, Adjust;
    if Days(existing) <= up.Keys {
      LastDayBounds(existing);
      forall d | d in Days(existing) ensures d in Days(Cleanse(out)) {
        var r := RowOf(existing, d);
        assert InRange(source, lo, end, Row(d, source[d]));
        DayOf(Cleanse(out), Row(d, source[d]));
      }
      MergeReplacesAll(existing, out);
    }
    if Merge(existing, out) == Pull(source, lo, end) {
      MergeMeaning(existing, out);
      forall d | d in Days(existing) ensures d in up {
        var r := RowOf(Merge(existing, out), d);
        assert InRange(source, lo, end, r);
      }
    }
  }

  /** Day 1 was stored at 10 and has since been withdrawn; the factor of day 2 is 2. The resumed sync
      keeps day 1 at its old price beside the newly scaled day 2. */
  lemma {:induction false} WithdrawnDayStaysOnItsOldBase()
    ensures var old1, new2 := Row(1, Bar([10.0], [])), Bar([20.0], []);
            var frame, factors := [Raw(Some(2), new2)], [Raw(Some(2), Some(2.0))];
            && Answers(map[2 := new2], 1, 2, frame) && Adjust(frame, Some(factors)).Adjusted?
            && old1 in Merge([old1], Adjust(frame, Some(factors)).frame)
            && Merge([old1], Adjust(frame, Some(factors)).frame) != Pull(Rescaled(map[2 := new2], Dated(factors)), 1, 2)
  {
    var old1, new2 := Row(1, Bar([10.0], [])), Bar([20.0], []);
    var up := map[2 := new2];
    var frame, factors: seq<Raw<Factor>> := [Raw(Some(2), new2)], [Raw(Some(2), Some(2.0))];
    DatedRows(frame);
    DatedRows(factors);
    assert Dated(frame) == [Row(2, new2)] && Dated(factors) == [Row(2, Some(2.0))];
    forall r: Row<Bar> ensures r in Dated(frame) <==> InRange(up, 1, 2, r) {}
    AcceptedExactlyWhen(frame, factors);
    var out := Adjust(frame, Some(factors)).frame;
    AdjustedAnswers(up, 1, 2, frame, factors);
    OneBaseAfterResync(up, [old1], 2, frame, factors);
    assert [old1][0].day == 1 && 1 in Days([old1]) && 1 !in up.Keys;
    OldRowStays(old1, out, up, factors);
  }

  lemma {:induction false} OldRowStays(row: Row<Bar>, out: seq<Raw<Bar>>, up: map<int, Bar>, factors: seq<Raw<Factor>>)
    requires Usable(Dated(factors)) && row.day !in up
    requires Answers(Rescaled(up, Dated(factors)), row.day, row.day + 1, out)
    ensures row in Merge([row], out)
  {
    var source := Rescaled(up, Dated(factors));
    FullPullStoresTheRange(source, row.day, row.day + 1, out);
    PullMeaning(source, row.day, row.day + 1);
    MergeMeaning([row], out);
    forall d | d in Days(Cleanse(out)) ensures d in up {
      var r := RowOf(Cleanse(out), d);
      assert InRange(source, row.day, row.day + 1, r);
    }
    assert LastOn([row], row.day) == Some(row.value);
  }

  lemma {:induction false} MergeReplacesAll(existing: seq<Row<Bar>>, frame: seq<Raw<Bar>>)
    requires StrictlySorted(Cleanse(frame)) && Days(existing) <= Days(Cleanse(frame))
    ensures Merge(existing, frame) == Cleanse(frame)
  {
    MergeMeaning(existing, frame);
    StrictDaysDiffer(Cleanse(frame));
    forall r ensures r in Merge(existing, frame) <==> r in Cleanse(frame) {
      LastOnUnique(Cleanse(frame), r);
      LastOnCovers(existing, r.day);
      LastOnCovers(Cleanse(frame), r.day);
    }
    SortedRowsAreUnique(Merge(existing, frame), Cleanse(frame));
  }
}
