/** data/tushare_sync.py 360-407: what an adjusted batch holds, bar by bar, in terms of the two tables. */
module AdjustedBars {
  import opened AsOfAdjust
  import opened ShardSync
  import opened Wrappers

  /** Row f of a dated factor table is the one as of the day: the latest not after it, and the last of
      those that share its date. */
  ghost predicate IsAsOf(factors: seq<Raw<Factor>>, day: int, f: nat)
    requires AllDated(factors)
  {
    && f < |factors| && factors[f].day.value <= day
    && forall g | 0 <= g < |factors| && factors[g].day.value <= day ::
         factors[g].day.value < factors[f].day.value || (factors[g].day == factors[f].day && g <= f)
  }

  /** Row f is the newest. */
  ghost predicate IsNewest(factors: seq<Raw<Factor>>, f: nat)
    requires AllDated(factors)
  {
    && f < |factors|
    && forall g | 0 <= g < |factors| ::
         factors[g].day.value < factors[f].day.value || (factors[g].day == factors[f].day && g <= f)
  }

  /** The as-of row of a table is its last row of the greatest day not after the given one. */
  lemma {:induction false} AsOfIsTheLast(rows: seq<Row<Factor>>, day: int) returns (f: nat)
    requires exists r :: r in rows && r.day <= day
    ensures f < |rows| && AsOf(rows, day) == Some(rows[f]) && rows[f].day <= day
    ensures forall g | 0 <= g < |rows| && rows[g].day <= day ::
              rows[g].day < rows[f].day || (rows[g].day == rows[f].day && g <= f)
  {
    AsOfMeaning(rows[1..], day);
    assert rows == [rows[0]] + rows[1..];
    if AsOf(rows[1..], day).None? {
      f := 0;
      forall g | 0 < g < |rows| ensures day < rows[g].day { assert rows[g] in rows[1..]; }
    } else {
      var best := AsOfIsTheLast(rows[1..], day);
      if day < rows[0].day || rows[0].day <= rows[1..][best].day {
        f := best + 1;
      } else {
        f := 0;
      }
      forall g | 0 < g < |rows| && rows[g].day <= day
        ensures rows[g].day < rows[best + 1].day || (rows[g].day == rows[best + 1].day && g <= best + 1) {
        assert rows[g] == rows[1..][g - 1];
      }
    }
  }

  lemma {:induction false} FactorIsAsOf(factors: seq<Raw<Factor>>, day: int)
    requires AllDated(factors)
    ensures forall f: nat | IsAsOf(factors, day, f) :: FactorOn(Dated(factors), day) == factors[f].value
    ensures (forall f: nat :: !IsAsOf(factors, day, f)) ==> FactorOn(Dated(factors), day) == None
  {
    var rows := Dated(factors);
    DatedRows(factors);
    AsOfMeaning(rows, day);
    if exists r :: r in rows && r.day <= day {
      var f := AsOfIsTheLast(rows, day);
      assert IsAsOf(factors, day, f);
      forall g: nat | IsAsOf(factors, day, g) ensures g == f {
        assert rows[g].day <= day;
      }
    } else {
      forall f: nat ensures !IsAsOf(factors, day, f) {
        if f < |factors| { assert rows[f] in rows; }
      }
    }
  }

  lemma {:induction false} NewestIsTheBase(factors: seq<Raw<Factor>>, l: nat)
    requires AllDated(factors) && IsNewest(factors, l)
    ensures Dated(factors) != [] && Base(Dated(factors)) == factors[l].value
  {
    var rows := Dated(factors);
    DatedRows(factors);
    LastDayBounds(rows);
    assert rows[l] in rows;
    var last := RowOf(rows, LastDay(rows));
    assert factors[l].day.value == LastDay(rows);
    assert IsAsOf(factors, LastDay(rows), l);
    FactorIsAsOf(factors, LastDay(rows));
  }

  /** The join raises exactly when there are factors and one of the tables has an unusable date. */
  lemma {:induction false} RaisesExactlyWhen(frame: seq<Raw<Bar>>, factors: Option<seq<Raw<Factor>>>)
    ensures Adjust(frame, factors) == Raised <==>
            && factors.Some? && factors.value != []
            && ((exists b :: b in frame && b.day == None) || (exists f :: f in factors.value && f.day == None))
  {
    hide Dated, Covered, AdjustedFrame;
    assert AllDated(frame) <==> forall b | b in frame :: b.day.Some?;
    if factors.Some? { assert AllDated(factors.value) <==> forall f | f in factors.value :: f.day.Some?; }
  }

  /** A batch of dated tables is accepted exactly when the newest factor is a number other than zero and
      every bar has an as-of factor that is not missing. */
  lemma {:induction false} AdjustedExactlyWhen(frame: seq<Raw<Bar>>, factors: seq<Raw<Factor>>, l: nat)
    requires AllDated(frame) && AllDated(factors) && IsNewest(factors, l)
    ensures Adjust(frame, Some(factors)).Adjusted? <==>
            && factors[l].value.Some? && factors[l].value.value != 0.0
            && forall b | b in frame :: exists f: nat :: IsAsOf(factors, b.day.value, f) && factors[f].value.Some?
  {
    NewestIsTheBase(factors, l);
    hide FactorOn, Base, IsAsOf, IsNewest;
    forall b | b in frame
      ensures FactorOn(Dated(factors), b.day.value).Some? <==>
              exists f: nat :: IsAsOf(factors, b.day.value, f) && factors[f].value.Some?
    {
      FactorIsAsOf(factors, b.day.value);
      if FactorOn(Dated(factors), b.day.value).Some? {
        var f: nat :| IsAsOf(factors, b.day.value, f);
      }
    }
    forall i | 0 <= i < |frame| ensures frame[i] in frame {}
    assert Covered(frame, Dated(factors)) <==>
           && factors[l].value.Some? && factors[l].value.value != 0.0
           && forall b | b in frame :: FactorOn(Dated(factors), b.day.value).Some?;
    hide Covered, Dated;
  }

  /** An accepted batch keeps the bars in place, with their dates and other columns; every price is the
      raw one times the as-of factor of its own day over the newest factor. */
  lemma {:induction false} AdjustedBar(frame: seq<Raw<Bar>>, factors: seq<Raw<Factor>>, i: nat) returns (f: nat, l: nat)
    requires Adjust(frame, Some(factors)).Adjusted? && i < |frame|
    ensures AllDated(factors) && frame[i].day.Some?
    ensures IsAsOf(factors, frame[i].day.value, f) && factors[f].value.Some?
    ensures IsNewest(factors, l) && factors[l].value.Some? && factors[l].value.value != 0.0
    ensures var out, bar := Adjust(frame, Some(factors)).frame, frame[i].value;
            && |out| == |frame| && out[i].day == frame[i].day && out[i].value.rest == bar.rest
            && |out[i].value.prices| == |bar.prices|
            && forall k | 0 <= k < |bar.prices| ::
                 out[i].value.prices[k] == bar.prices[k] * factors[f].value.value / factors[l].value.value
  {
    assert AllDated(frame) && AllDated(factors);
    var day := frame[i].day.value;
    assert FactorOn(Dated(factors), day).Some?;
    FactorIsAsOf(factors, day);
    f :| IsAsOf(factors, day, f);
    l := NewestRow(factors);
    NewestIsTheBase(factors, l);
    hide FactorOn, Base, IsAsOf, IsNewest, Dated;
  }

  lemma {:induction false} NewestRow(factors: seq<Raw<Factor>>) returns (l: nat)
    requires AllDated(factors) && factors != []
    ensures IsNewest(factors, l)
  {
    l := 0;
    for g := 1 to |factors|
      invariant l < g <= |factors|
      invariant forall h | 0 <= h < g ::
                  factors[h].day.value < factors[l].day.value || (factors[h].day == factors[l].day && h <= l)
    {
      if factors[l].day.value <= factors[g].day.value { l := g; }
    }
  }
}
