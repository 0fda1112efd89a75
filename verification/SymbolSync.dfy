/** data/tushare_sync.py 317-429: the per-symbol loop over the shard directory. */
module SymbolSync {
  import AdjustedBars
  import AdjustedShard
  import opened AsOfAdjust
  import opened ShardSync
  import opened Wrappers

  /** What the pulls of loop round i come back with, for a date range: the bars, and the factor
      table (`None` when it lacks a column). An empty frame is a failed or empty pull. */
  datatype Api = Api(bars: (nat, int, int) -> seq<Raw<Bar>>, factors: (nat, int, int) -> Option<seq<Raw<Factor>>>)

  datatype Request = Request(start: int, end: int, resume: bool, adjusted: bool)

  function ShardOf(shards: map<int, Shard<Bar>>, symbol: int): Shard<Bar> {
    if symbol in shards then shards[symbol] else Missing
  }

  /** What one loop round does to its shard; `Raise` when the as-of join raises. */
  datatype Step = Raise | Keep | Store(shard: Shard<Bar>)

  function SyncOne(shard: Shard<Bar>, q: Request, api: Api, i: nat): Step {
    match FetchFrom(shard, q.start, q.end, q.resume, q.adjusted)
    case None => Keep
    case Some(from) =>
      var frame := api.bars(i, from, q.end);
      if frame == [] then Keep
      else if !q.adjusted then Store(AfterPull(shard, q.resume, frame))
      else match Adjust(frame, api.factors(i, from, q.end))
           case Raised => Raise
           case Skipped => Keep
           case Adjusted(out) => Store(AfterPull(shard, q.resume, out))
  }

  function Stepped(shard: Shard<Bar>, step: Step): Shard<Bar> {
    if step.Store? then step.shard else shard
  }

  /** The directory after the first n symbols; `None` once a symbol has raised. */
  function SyncAll(shards: map<int, Shard<Bar>>, symbols: seq<int>, q: Request, api: Api,
                   n: nat): Option<map<int, Shard<Bar>>>
    requires n <= |symbols|
  {
    if n == 0 then Some(shards) else
    match SyncAll(shards, symbols, q, api, n - 1)
    case None => None
    case Some(m) =>
      match SyncOne(ShardOf(m, symbols[n - 1]), q, api, n - 1)
      case Raise => None
      case Keep => Some(m)
      case Store(shard) => Some(m[symbols[n - 1] := shard])
  }

  class ShardDir {
    var shards: map<int, Shard<Bar>>

    constructor ()
      ensures shards == map[]
    {
      shards := map[];
    }

    /** `_sync_by_symbol`: on an exception the symbols before it stay written and the rest is
        not reached. `done` counts the symbols that were finished. */
    method SyncBySymbol(symbols: seq<int>, q: Request, api: Api) returns (done: nat)
      modifies this
      ensures done <= |symbols|
      ensures SyncAll(old(shards), symbols, q, api, done) == Some(shards)
      ensures done < |symbols| ==> SyncAll(old(shards), symbols, q, api, done + 1) == None
    {
      hide FetchFrom, AfterPull, Adjust;
      done := 0;
      while done < |symbols|
        invariant done <= |symbols|
        invariant SyncAll(old(shards), symbols, q, api, done) == Some(shards)
      {
        var shard := ShardOf(shards, symbols[done]);
        var from := FetchFrom(shard, q.start, q.end, q.resume, q.adjusted);
        if from.None? {
          done := done + 1;
          continue;
        }
        var frame := api.bars(done, from.value, q.end);
        if frame == [] {
          done := done + 1;
          continue;
        }
        if q.adjusted {
          var outcome := AdjustBatch(frame, api.factors(done, from.value, q.end));
          if outcome.Raised? { return; }
          if outcome.Skipped? {
            done := done + 1;
            continue;
          }
          frame := outcome.frame;
        }
        shards := shards[symbols[done] := AfterPull(shard, q.resume, frame)];
        done := done + 1;
      }
    }
  }

  /** Symbols do not disturb each other: when each is named once, its shard after the loop is its
      own sync of its own old shard, and every other shard is untouched. */
  lemma {:induction false} SymbolsAreIndependent(shards: map<int, Shard<Bar>>, symbols: seq<int>, q: Request, api: Api,
                                                 n: nat, symbol: int)
    requires n <= |symbols| && SyncAll(shards, symbols, q, api, n).Some?
    requires forall i, j | 0 <= i < j < n :: symbols[i] != symbols[j]
    ensures symbol !in symbols[..n] ==>
              ShardOf(SyncAll(shards, symbols, q, api, n).value, symbol) == ShardOf(shards, symbol)
    ensures forall i | 0 <= i < n && symbols[i] == symbol ::
              var before := ShardOf(shards, symbol);
              ShardOf(SyncAll(shards, symbols, q, api, n).value, symbol) == Stepped(before, SyncOne(before, q, api, i))
  {
    hide SyncOne;
    if n > 0 {
      SymbolsAreIndependent(shards, symbols, q, api, n - 1, symbol);
      assert symbols[..n] == symbols[..n - 1] + [symbols[n - 1]];
      if symbols[n - 1] == symbol {
        assert symbol !in symbols[..n - 1];
      }
    }
  }

  // ---------------------------------------------------------------- what the call leaves

  function Before(shards: map<int, Shard<Bar>>, symbols: seq<int>, i: nat): Shard<Bar>
    requires i < |symbols|
  {
    ShardOf(shards, symbols[i])
  }

  /** Symbol i's shard after n symbols were done. */
  function After(shards: map<int, Shard<Bar>>, symbols: seq<int>, q: Request, api: Api, n: nat, i: nat): Shard<Bar>
    requires i < |symbols| && n <= |symbols| && SyncAll(shards, symbols, q, api, n).Some?
  {
    ShardOf(SyncAll(shards, symbols, q, api, n).value, symbols[i])
  }

  /** The first n symbols were done, and symbol i is one of them, named once. */
  ghost predicate Reached(shards: map<int, Shard<Bar>>, symbols: seq<int>, q: Request, api: Api, n: nat, i: nat) {
    && i < n <= |symbols| && SyncAll(shards, symbols, q, api, n).Some?
    && forall j, k | 0 <= j < k < n :: symbols[j] != symbols[k]
  }

  lemma {:induction false} OwnRound(shards: map<int, Shard<Bar>>, symbols: seq<int>, q: Request, api: Api,
                                    n: nat, i: nat)
    requires Reached(shards, symbols, q, api, n, i)
    ensures After(shards, symbols, q, api, n, i) ==
            Stepped(Before(shards, symbols, i), SyncOne(Before(shards, symbols, i), q, api, i))
    ensures SyncOne(Before(shards, symbols, i), q, api, i) != Raise
  {
    hide SyncOne;
    SymbolsAreIndependent(shards, symbols, q, api, n, symbols[i]);
    NoneRaised(shards, symbols, q, api, n, i);
  }

  lemma {:induction false} NoneRaised(shards: map<int, Shard<Bar>>, symbols: seq<int>, q: Request, api: Api,
                                      n: nat, i: nat)
    requires Reached(shards, symbols, q, api, n, i)
    ensures SyncOne(Before(shards, symbols, i), q, api, i) != Raise
  {
    hide SyncOne;
    if i == n - 1 {
      SymbolsAreIndependent(shards, symbols, q, api, n - 1, symbols[i]);
      assert symbols[i] !in symbols[..n - 1];
    } else {
      NoneRaised(shards, symbols, q, api, n - 1, i);
    }
  }

  /** A round of an unadjusted dataset is one `Sync` of the shard's own runs, answered with what was
      pulled over the range asked for. */
  lemma {:induction false} RoundIsASync(shards: map<int, Shard<Bar>>, symbols: seq<int>, q: Request, api: Api, n: nat,
                                        i: nat, up: map<int, Bar>, first: int)
    requires Reached(shards, symbols, q, api, n, i) && !q.adjusted
    ensures var before := Before(shards, symbols, i);
            var from := FetchFrom(before, q.start, q.end, q.resume, false);
            var frame := if from.Some? then api.bars(i, from.value, q.end) else [];
            After(shards, symbols, q, api, n, i) ==
            ShardSync.Next(ShardSync.State(up, before, first),
                           ShardSync.Event.Sync(q.start, q.end, q.resume, frame)).shard
  {
    OwnRound(shards, symbols, q, api, n, i);
    hide SyncAll, AfterPull;
  }

  /** A round of an adjusted dataset is one `Sync` of the adjusted shard's runs. */
  lemma {:induction false} RoundIsAnAdjustedSync(
      shards: map<int, Shard<Bar>>, symbols: seq<int>, q: Request, api: Api, n: nat, i: nat, up: map<int, Bar>,
      first: int, table: seq<Row<Factor>>)
    requires Reached(shards, symbols, q, api, n, i) && q.adjusted
    ensures var before := Before(shards, symbols, i);
            var from := FetchFrom(before, q.start, q.end, q.resume, true);
            var frame := if from.Some? then api.bars(i, from.value, q.end) else [];
            var factors := if from.Some? then api.factors(i, from.value, q.end) else None;
            After(shards, symbols, q, api, n, i) ==
            AdjustedShard.Next(AdjustedShard.State(up, before, first, table),
                               AdjustedShard.Event.Sync(q.start, q.end, q.resume, frame, factors)).shard
  {
    OwnRound(shards, symbols, q, api, n, i);
    hide SyncAll, AfterPull, Adjust;
  }

  /** Resumed and unadjusted, with a shard that holds everything up to its last day: only the days
      after it are asked for, and if exactly they come back the shard holds everything up to `end`.
      A shard that reaches `end` already, or gets nothing, stays as it is. */
  lemma {:induction false} ResumedRoundCompletes(
      shards: map<int, Shard<Bar>>, symbols: seq<int>, q: Request, api: Api, n: nat, i: nat, up: map<int, Bar>,
      first: int, rows: seq<Row<Bar>>)
    requires Reached(shards, symbols, q, api, n, i) && !q.adjusted && q.resume
    requires Before(shards, symbols, i) == Stored(rows) && rows != []
    ensures rows == Pull(up, first, LastDay(rows)) && LastDay(rows) < q.end &&
            Answers(up, LastDay(rows) + 1, q.end, api.bars(i, LastDay(rows) + 1, q.end)) &&
            api.bars(i, LastDay(rows) + 1, q.end) != [] ==>
              After(shards, symbols, q, api, n, i) == Stored(Pull(up, first, q.end))
    ensures q.end <= LastDay(rows) || api.bars(i, LastDay(rows) + 1, q.end) == [] ==>
              After(shards, symbols, q, api, n, i) == Stored(rows)
  {
    OwnRound(shards, symbols, q, api, n, i);
    hide SyncAll, Merge, Pull, LastDay, Answers;
    var frame := api.bars(i, LastDay(rows) + 1, q.end);
    if rows == Pull(up, first, LastDay(rows)) && LastDay(rows) < q.end && Answers(up, LastDay(rows) + 1, q.end, frame) {
      ResumedPullCompletes(up, first, rows, q.end, frame);
    }
  }

  /** Without a shard to resume, the whole range is asked for and replaces what was there. */
  lemma {:induction false} FullRoundStoresTheRange(
      shards: map<int, Shard<Bar>>, symbols: seq<int>, q: Request, api: Api, n: nat, i: nat, up: map<int, Bar>)
    requires Reached(shards, symbols, q, api, n, i) && !q.adjusted
    requires var before := Before(shards, symbols, i); !q.resume || !before.Stored? || before.rows == []
    ensures Answers(up, q.start, q.end, api.bars(i, q.start, q.end)) && api.bars(i, q.start, q.end) != [] ==>
              After(shards, symbols, q, api, n, i) == Stored(Pull(up, q.start, q.end))
    ensures api.bars(i, q.start, q.end) == [] ==>
              After(shards, symbols, q, api, n, i) == Before(shards, symbols, i)
  {
    OwnRound(shards, symbols, q, api, n, i);
    hide SyncAll, Cleanse, Pull, Answers;
    if Answers(up, q.start, q.end, api.bars(i, q.start, q.end)) {
      FullPullStoresTheRange(up, q.start, q.end, api.bars(i, q.start, q.end));
    }
  }

  /** A resumed call, adjusted or not and whatever comes back, loses no stored day of any symbol,
      reached or not. */
  lemma {:induction false} ResumedCallKeepsDays(shards: map<int, Shard<Bar>>, symbols: seq<int>, q: Request, api: Api,
                                                n: nat, symbol: int)
    requires n <= |symbols| && SyncAll(shards, symbols, q, api, n).Some?
    requires q.resume && ShardOf(shards, symbol).Stored?
    ensures var after := ShardOf(SyncAll(shards, symbols, q, api, n).value, symbol);
            after.Stored? && Days(ShardOf(shards, symbol).rows) <= Days(after.rows)
  {
    if n > 0 {
      ResumedCallKeepsDays(shards, symbols, q, api, n - 1, symbol);
      var m := SyncAll(shards, symbols, q, api, n - 1).value;
      var step := SyncOne(ShardOf(m, symbols[n - 1]), q, api, n - 1);
      hide AfterPull, Adjust, FetchFrom, Days;
      if step.Store? && symbols[n - 1] == symbol {
        StoredByAPull(ShardOf(m, symbol), q, api, n - 1);
        var frame :| step.shard == AfterPull(ShardOf(m, symbol), true, frame);
        ResumedSyncKeepsDays(ShardOf(m, symbol), frame);
      }
    }
  }

  lemma {:induction false} StoredByAPull(shard: Shard<Bar>, q: Request, api: Api, i: nat)
    requires SyncOne(shard, q, api, i).Store?
    ensures exists frame :: SyncOne(shard, q, api, i).shard == AfterPull(shard, q.resume, frame)
  {
    hide AfterPull, Adjust, FetchFrom;
    var from := FetchFrom(shard, q.start, q.end, q.resume, q.adjusted);
    var frame := api.bars(i, from.value, q.end);
    if q.adjusted {
      var out := Adjust(frame, api.factors(i, from.value, q.end)).frame;
      assert SyncOne(shard, q, api, i).shard == AfterPull(shard, q.resume, out);
    } else {
      assert SyncOne(shard, q, api, i).shard == AfterPull(shard, q.resume, frame);
    }
  }

  /** Adjusted: from the shard's first day on everything is asked for again, and an accepted answer
      leaves one pull of the source on the base of the newly pulled factors. A refused one leaves
      the shard as it was. */
  lemma {:induction false} AdjustedRoundRescales(
      shards: map<int, Shard<Bar>>, symbols: seq<int>, q: Request, api: Api, n: nat, i: nat, up: map<int, Bar>,
      first: int, table: seq<Row<Factor>>, rows: seq<Row<Bar>>)
    requires Reached(shards, symbols, q, api, n, i) && q.adjusted && q.resume
    requires Before(shards, symbols, i) == Stored(rows) && rows != [] && LastDay(rows) < q.end
    requires Usable(table) && rows == Pull(Rescaled(up, table), first, LastDay(rows))
    requires Answers(up, FirstDay(rows), q.end, api.bars(i, FirstDay(rows), q.end))
    requires api.bars(i, FirstDay(rows), q.end) != []
    ensures var outcome := Adjust(api.bars(i, FirstDay(rows), q.end), api.factors(i, FirstDay(rows), q.end));
            if outcome.Adjusted? then
              var now := Dated(api.factors(i, FirstDay(rows), q.end).value);
              Usable(now) && After(shards, symbols, q, api, n, i) == Stored(Pull(Rescaled(up, now), first, q.end))
            else After(shards, symbols, q, api, n, i) == Stored(rows)
  {
    var frame, factors := api.bars(i, FirstDay(rows), q.end), api.factors(i, FirstDay(rows), q.end);
    var s := AdjustedShard.State(up, Stored(rows), first, table);
    var e := AdjustedShard.Event.Sync(q.start, q.end, q.resume, frame, factors);
    RoundIsAnAdjustedSync(shards, symbols, q, api, n, i, up, first, table);
    hide SyncAll, Merge, Pull, LastDay, FirstDay, Answers, Adjust, Dated, Base, Rescaled;
    assert AdjustedShard.OneBase(s) && AdjustedShard.Legal(s, e);
    if Adjust(frame, factors).Adjusted? {
      AdjustedShard.AcceptedSyncRescales(s, e);
      assert AdjustedShard.Accepted(s, e);
    }
  }

  /** Adjusted, without a shard to resume: the whole range is asked for and stored on one base. */
  lemma {:induction false} FullAdjustedRound(
      shards: map<int, Shard<Bar>>, symbols: seq<int>, q: Request, api: Api, n: nat, i: nat, up: map<int, Bar>)
    requires Reached(shards, symbols, q, api, n, i) && q.adjusted
    requires var before := Before(shards, symbols, i); !q.resume || !before.Stored? || before.rows == []
    requires Answers(up, q.start, q.end, api.bars(i, q.start, q.end)) && api.bars(i, q.start, q.end) != []
    ensures var outcome := Adjust(api.bars(i, q.start, q.end), api.factors(i, q.start, q.end));
            if outcome.Adjusted? then
              var now := Dated(api.factors(i, q.start, q.end).value);
              Usable(now) && After(shards, symbols, q, api, n, i) == Stored(Pull(Rescaled(up, now), q.start, q.end))
            else After(shards, symbols, q, api, n, i) == Before(shards, symbols, i)
  {
    var frame, factors := api.bars(i, q.start, q.end), api.factors(i, q.start, q.end);
    OwnRound(shards, symbols, q, api, n, i);
    if Adjust(frame, factors).Adjusted? {
      assert factors.Some?;
      AdjustedAnswers(up, q.start, q.end, frame, factors.value);
      FullPullStoresTheRange(Rescaled(up, Dated(factors.value)), q.start, q.end, Adjust(frame, factors).frame);
    }
    hide SyncAll, Cleanse, Pull, Answers, Adjust, Dated, Rescaled, Base;
  }

  /** Both tables came back, and one has a row with an unusable date. */
  ghost predicate HasBadDate(frame: seq<Raw<Bar>>, factors: Option<seq<Raw<Factor>>>) {
    && frame != [] && factors.Some? && factors.value != []
    && ((exists b :: b in frame && b.day == None) || (exists f :: f in factors.value && f.day == None))
  }

  lemma {:induction false} BadDatesRaise(frame: seq<Raw<Bar>>, factors: Option<seq<Raw<Factor>>>)
    ensures frame != [] && Adjust(frame, factors) == Raised <==> HasBadDate(frame, factors)
  {
    AdjustedBars.RaisesExactlyWhen(frame, factors);
  }

  /** The call stops at a symbol exactly when its dataset is adjusted, something came back for it, and
      one of the two tables has an unusable date. */
  lemma {:induction false} StopsExactlyWhen(shards: map<int, Shard<Bar>>, symbols: seq<int>, q: Request, api: Api,
                                            n: nat)
    requires n < |symbols| && SyncAll(shards, symbols, q, api, n).Some?
    ensures var now := ShardOf(SyncAll(shards, symbols, q, api, n).value, symbols[n]);
            SyncAll(shards, symbols, q, api, n + 1) == None <==>
              && q.adjusted
              && exists from :: FetchFrom(now, q.start, q.end, q.resume, true) == Some(from) &&
                                HasBadDate(api.bars(n, from, q.end), api.factors(n, from, q.end))
  {
    var now := ShardOf(SyncAll(shards, symbols, q, api, n).value, symbols[n]);
    var from := FetchFrom(now, q.start, q.end, q.resume, q.adjusted);
    hide FetchFrom, Adjust, AfterPull, HasBadDate;
    if q.adjusted && from.Some? {
      BadDatesRaise(api.bars(n, from.value, q.end), api.factors(n, from.value, q.end));
    }
  }
}
