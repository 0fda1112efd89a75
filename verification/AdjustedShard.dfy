/** data/tushare_sync.py: one symbol's shard of an adjusted dataset under runs of syncs. */
module AdjustedShard {
  import opened AsOfAdjust
  import opened ShardSync
  import opened Wrappers

  /** `first` is the start of the pull that founded the shard, `table` the dated factor rows that
      its prices were last scaled with. */
  datatype State = State(up: map<int, Bar>, shard: Shard<Bar>, first: int, table: seq<Row<Factor>>)

  datatype Event =
    | Publish(more: map<int, Bar>)
    | Torn
    | Sync(start: int, end: int, resume: bool, frame: seq<Raw<Bar>>, factors: Option<seq<Raw<Factor>>>)

  /** What a sync stores: nothing when it is skipped, comes back empty, or the batch is refused or
      raises. */
  predicate Accepted(s: State, e: Event)
    requires e.Sync?
  {
    && FetchFrom(s.shard, e.start, e.end, e.resume, true).Some?
    && e.frame != []
    && Adjust(e.frame, e.factors).Adjusted?
  }

  function Next(s: State, e: Event): State {
    match e
    case Publish(more) => s.(up := s.up + more)
    case Torn => s.(shard := Unreadable)
    case Sync(start, _, resume, frame, factors) =>
      if !Accepted(s, e) then s
      else s.(shard := AfterPull(s.shard, resume, Adjust(frame, factors).frame),
              first := if Resumes(s.shard, resume) then s.first else start,
              table := Dated(factors.value))
  }

  /** The source only appends later dates, and a pull is answered exactly; the factor table may be
      anything. */
  ghost predicate Legal(s: State, e: Event) {
    match e
    case Publish(more) => forall d, u | d in more && u in s.up :: u < d
    case Torn => true
    case Sync(start, end, resume, frame, _) =>
      var from := FetchFrom(s.shard, start, end, resume, true);
      from.Some? && frame != [] ==> Answers(s.up, from.value, end, frame)
  }

  function Run(s: State, events: seq<Event>): State {
    if events == [] then s
    else Next(Run(s, events[..|events| - 1]), events[|events| - 1])
  }

  ghost predicate LegalRun(s: State, events: seq<Event>) {
    events == [] ||
    (LegalRun(s, events[..|events| - 1]) && Legal(Run(s, events[..|events| - 1]), events[|events| - 1]))
  }

  /** Every stored row is on the base of one factor table: the shard is one pull of the source,
      rescaled with it, from `first` to the shard's last day. */
  ghost predicate OneBase(s: State) {
    s.shard.Stored? && s.shard.rows != [] ==>
      Usable(s.table) && s.shard.rows == Pull(Rescaled(s.up, s.table), s.first, LastDay(s.shard.rows))
  }

  lemma {:induction false} RescaledKeys(up: map<int, Bar>, table: seq<Row<Factor>>)
    requires Usable(table)
    ensures Rescaled(up, table).Keys == up.Keys
  {}

  lemma {:induction false} RescaledMore(up: map<int, Bar>, more: map<int, Bar>, table: seq<Row<Factor>>)
    requires Usable(table)
    ensures Rescaled(up + more, table) == Rescaled(up, table) + Rescaled(more, table)
  {
    hide FactorOn, Base, Scaled;
  }

  /** A shard that is one pull holds no days but the source's, and none before its first row. */
  lemma {:induction false} StoredDays(source: map<int, Bar>, first: int, rows: seq<Row<Bar>>)
    requires rows != [] && rows == Pull(source, first, LastDay(rows))
    ensures Days(rows) <= source.Keys && first <= FirstDay(rows) <= LastDay(rows) && LastDay(rows) in source
    ensures forall d | first <= d < FirstDay(rows) :: d !in source
  {
    hide Pull, LastDay, FirstDay;
    PullMeaning(source, first, LastDay(rows));
    LastDayBounds(rows);
    forall d | d in Days(rows) ensures d in source && first <= d {
      var r := RowOf(rows, d);
      assert InRange(source, first, LastDay(rows), r);
    }
    forall d | first <= d <= LastDay(rows) && d in source ensures FirstDay(rows) <= d {
      assert InRange(source, first, LastDay(rows), Row(d, source[d]));
    }
  }

  lemma {:induction false} PullSkipsEmptyDays(source: map<int, Bar>, lo: int, mid: int, hi: int)
    requires lo <= mid && forall d | lo <= d < mid :: d !in source
    ensures Pull(source, lo, hi) == Pull(source, mid, hi)
    decreases mid - lo
  {
    if lo < mid && lo <= hi {
      PullSkipsEmptyDays(source, lo + 1, mid, hi);
    }
  }

  /** An accepted sync leaves one pull of the newly rescaled source up to its end. */
  lemma {:induction false} AcceptedSyncRescales(s: State, e: Event)
    requires OneBase(s) && Legal(s, e) && e.Sync? && Accepted(s, e)
    ensures var t := Next(s, e);
            Usable(t.table) && t.shard == Stored(Pull(Rescaled(t.up, t.table), t.first, e.end))
  {
    var t := Next(s, e);
    assert e.factors.Some?;
    var source := Rescaled(s.up, t.table);
    if Resumes(s.shard, e.resume) {
      var rows, lo := s.shard.rows, FirstDay(s.shard.rows);
      var was := Rescaled(s.up, s.table);
      hide Pull, LastDay, FirstDay, Merge, Adjust, Answers, Rescaled, Base;
      RescaledKeys(s.up, s.table);
      RescaledKeys(s.up, t.table);
      StoredDays(was, s.first, rows);
      OneBaseAfterResync(s.up, rows, e.end, e.frame, e.factors.value);
      PullSkipsEmptyDays(source, s.first, lo, e.end);
    } else {
      AdjustedAnswers(s.up, e.start, e.end, e.frame, e.factors.value);
      FullPullStoresTheRange(source, e.start, e.end, Adjust(e.frame, e.factors).frame);
    }
  }

  lemma {:induction false} PublishKeepsOneBase(s: State, more: map<int, Bar>)
    requires OneBase(s) && Legal(s, Event.Publish(more))
    ensures OneBase(Next(s, Event.Publish(more)))
  {
    if s.shard.Stored? && s.shard.rows != [] {
      var source, last := Rescaled(s.up, s.table), LastDay(s.shard.rows);
      hide Pull, LastDay, Rescaled, Base;
      RescaledKeys(s.up, s.table);
      RescaledKeys(more, s.table);
      RescaledMore(s.up, more, s.table);
      StoredDays(source, s.first, s.shard.rows);
      PullIgnoresLaterDays(source, Rescaled(more, s.table), s.first, last);
    }
  }

  lemma {:induction false} StepKeepsOneBase(s: State, e: Event)
    requires OneBase(s) && Legal(s, e)
    ensures OneBase(Next(s, e))
  {
    match e
    case Publish(more) => PublishKeepsOneBase(s, more);
    case Torn =>
    case Sync(_, end, _, _, _) =>
      if Accepted(s, e) {
        AcceptedSyncRescales(s, e);
        var t := Next(s, e);
        if t.shard.rows != [] { PullToItsLastDay(Rescaled(t.up, t.table), t.first, end); }
      }
  }

  /** After any run of syncs, resumed or not, accepted, refused or torn, and of new data, all rows
      of the shard are on one base: no cliff between old and new prices. */
  lemma {:induction false} ShardIsOnOneBase(s: State, events: seq<Event>)
    requires OneBase(s) && LegalRun(s, events)
    ensures OneBase(Run(s, events))
  {
    if events != [] {
      var init := events[..|events| - 1];
      ShardIsOnOneBase(s, init);
      StepKeepsOneBase(Run(s, init), events[|events| - 1]);
    }
  }
}
