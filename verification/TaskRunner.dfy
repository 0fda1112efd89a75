/** backtest/scheduler.py and backtest/worker.py: one pass of each, run by itself. */
module TaskRunner {
  import opened Wrappers
  import opened TasksDb

  const LIST_LIMIT: nat := 100
  const HEARTBEAT_TIMEOUT := 300_000_000

  /** More than the timeout has passed since the heartbeat. A row without one is skipped. */
  predicate Stale(t: Task, now: int) {
    t.heartbeat.Some? && HEARTBEAT_TIMEOUT < now - t.heartbeat.value
  }

  function Expired(t: Task, now: int): Mark
    requires t.heartbeat.Some?
  {
    Fail(HeartbeatTimeout((now - t.heartbeat.value) / 1_000_000))
  }

  /** The table after the first n listed tasks were judged as they were `seen`. */
  function SweptRows(seen: Table, listed: seq<nat>, now: int, at: nat -> int, n: nat): Table
    requires n <= |listed|
  {
    if n == 0 then seen else
    var rest := SweptRows(seen, listed, now, at, n - 1);
    var id := listed[n - 1];
    if id in seen && Stale(seen[id], now) then MarkRow(rest, id, Expired(seen[id], now), at(n - 1)) else rest
  }

  /** The flags after the first n listed tasks. */
  function SweptFlags(seen: Table, flags: map<nat, bool>, listed: seq<nat>, now: int, n: nat): map<nat, bool>
    requires n <= |listed|
  {
    if n == 0 then flags else
    var rest := SweptFlags(seen, flags, listed, now, n - 1);
    var id := listed[n - 1];
    if id in seen && Stale(seen[id], now) then rest - {id} else rest
  }

  class Scheduler {
    const db: Tasks
    /** `abort_flags`: the registered flags and whether each is set. */
    var flags: map<nat, bool>
    /** What was handed to the pool, in order. */
    var submitted: seq<nat>

    constructor (db: Tasks)
      ensures this.db == db && flags == map[] && submitted == []
    {
      this.db := db;
      flags := map[];
      submitted := [];
    }

    /** `request_cancel`: sets the flag of a registered task, and is silent about any other. */
    method RequestCancel(id: nat)
      modifies this
      ensures flags.Keys == old(flags).Keys && submitted == old(submitted)
      ensures forall i | i in flags :: flags[i] == (old(flags)[i] || i == id)
    {
      if id in flags { flags := flags[id := true]; }
    }

    method ResetOnStartup(at: int)
      modifies db
      ensures db.rows == ResetRows(old(db.rows), at)
    {
      var _ := db.ResetRunningToFailed(at);
    }

    /** `_poll_once`: the oldest pending task, if any, is claimed, read back, given a fresh flag and
        sent to the pool; nothing else changes. `deleted` says that somebody deletes the claimed
        row before it is read back; then nothing is sent. */
    method PollOnce(started: int, beat: int, deleted: bool) returns (task: Option<nat>, ghost claimed: Option<nat>)
      modifies this, db
      ensures claimed.None? <==> forall id | id in old(db.rows) :: !IsPending(old(db.rows), id)
      ensures claimed.None? ==> task.None? && db.rows == old(db.rows)
      ensures claimed.Some? ==> OldestPending(old(db.rows), claimed.value)
      ensures claimed.Some? && deleted ==> task.None? && db.rows == old(db.rows) - {claimed.value}
      ensures claimed.Some? && !deleted ==>
                && task == claimed
                && db.rows == old(db.rows)[claimed.value := Claimed(old(db.rows)[claimed.value], started, beat)]
      ensures task.None? ==> flags == old(flags) && submitted == old(submitted)
      ensures task.Some? ==> flags == old(flags)[task.value := false] && submitted == old(submitted) + [task.value]
    {
      task := db.ClaimNextPending(started, beat);
      claimed := task;
      if task.None? { return; }
      if deleted {
        var _ := db.DeleteTask(task.value);
      }
      var row := db.GetTask(task.value);
      if row.None? {
        task := None;
        return;
      }
      flags := flags[task.value := false];
      submitted := submitted + [task.value];
    }

    /** `_sweep_stale`: what it lists is judged as it was listed. */
    method SweepStale(now: int, at: nat -> int) returns (listed: seq<nat>)
      modifies this, db
      ensures IsListing(old(db.rows), Running, 100, listed)
      ensures db.rows == SweptRows(old(db.rows), listed, now, at, |listed|)
      ensures flags == SweptFlags(old(db.rows), old(flags), listed, now, |listed|)
      ensures submitted == old(submitted)
    {
      hide IsListing, MarkRow, Expired;
      listed := db.ListTasks(Running, LIST_LIMIT);
      var seen: map<nat, Task> := db.rows;
      for i := 0 to |listed|
        invariant submitted == old(submitted)
        invariant db.rows == SweptRows(seen, listed, now, at, i)
        invariant flags == SweptFlags(seen, old(flags), listed, now, i)
      {
        var id := listed[i];
        if id in seen && Stale(seen[id], now) {
          db.MarkTask(id, Expired(seen[id], now), at(i));
          flags := flags - {id};
        }
      }
    }
  }

  /** A sweep fails exactly the listed tasks whose heartbeat is too old; every other row is
      untouched. */
  lemma {:induction false} SweepMeaning(seen: Table, listed: seq<nat>, now: int, at: nat -> int, n: nat, id: nat)
    requires n <= |listed|
    requires forall i, j | 0 <= i < j < |listed| :: listed[i] != listed[j]
    ensures id in SweptRows(seen, listed, now, at, n) <==> id in seen
    ensures id in seen && (id !in listed[..n] || !Stale(seen[id], now)) ==>
              SweptRows(seen, listed, now, at, n)[id] == seen[id]
    ensures forall i | 0 <= i < n && listed[i] == id && id in seen && Stale(seen[id], now) ::
              SweptRows(seen, listed, now, at, n)[id] == Marked(seen[id], Expired(seen[id], now), at(i))
  {
    hide Stale, Expired, Marked;
    if n > 0 {
      SweepMeaning(seen, listed, now, at, n - 1, id);
      var last := listed[n - 1];
      assert listed[..n] == listed[..n - 1] + [last];
      assert last !in listed[..n - 1];
    }
  }

  /** The verdict on the i-th listed task, in microseconds: failed exactly when its heartbeat is more
      than 300 seconds old, with the whole seconds since it in the error. */
  lemma {:induction false} SweptExactlyWhen(seen: Table, listed: seq<nat>, now: int, at: nat -> int, n: nat, i: nat)
    requires i < n <= |listed| && listed[i] in seen
    requires forall j, k | 0 <= j < k < |listed| :: listed[j] != listed[k]
    ensures listed[i] in SweptRows(seen, listed, now, at, n)
    ensures var t, u := seen[listed[i]], SweptRows(seen, listed, now, at, n)[listed[i]];
            if t.heartbeat.Some? && 300_000_000 < now - t.heartbeat.value
            then u == t.(status := Failed, finishedAt := Some(at(i)),
                         error := Some(HeartbeatTimeout((now - t.heartbeat.value) / 1_000_000)))
            else u == t
  {
    SweepMeaning(seen, listed, now, at, n, listed[i]);
    hide SweptRows;
  }

  /** It drops exactly the flags of the tasks it fails. */
  lemma {:induction false} SweepDropsFlags(seen: Table, flags: map<nat, bool>, listed: seq<nat>, now: int,
                                           n: nat, id: nat)
    requires n <= |listed|
    ensures id in SweptFlags(seen, flags, listed, now, n) <==>
              id in flags && !(id in listed[..n] && id in seen && Stale(seen[id], now))
    ensures id in SweptFlags(seen, flags, listed, now, n) ==> SweptFlags(seen, flags, listed, now, n)[id] == flags[id]
  {
    hide Stale;
    if n > 0 {
      SweepDropsFlags(seen, flags, listed, now, n - 1, id);
      assert listed[..n] == listed[..n - 1] + [listed[n - 1]];
    }
  }

  // ---------------------------------------------------------------- the queue consumer

  /** A worker's report: how many symbols are done, of how many. */
  datatype Report = Report(done: nat, total: nat)

  /** `int(done * 100 / total) if total else 0` */
  function Percent(r: Report): nat {
    if r.total == 0 then 0 else r.done * 100 / r.total
  }

  lemma {:induction false} QuotientBounds(a: nat, b: nat)
    requires 0 < b
    ensures a / b * b <= a < (a / b + 1) * b
    ensures a <= 100 * b ==> a / b <= 100
  {
    var q := a / b;
    assert a == q * b + a % b;
    if q > 100 { AtLeast(101, q, b); }
  }

  lemma {:induction false} AtLeast(p: nat, q: nat, b: nat)
    requires p <= q
    ensures p * b <= q * b
  {}

  /** Rounded down, and at most 100 when no more than all symbols are done. */
  lemma {:induction false} PercentRoundsDown(r: Report)
    ensures r.total == 0 ==> Percent(r) == 0
    ensures 0 < r.total ==> Percent(r) * r.total <= r.done * 100 < (Percent(r) + 1) * r.total
    ensures r.done <= r.total ==> Percent(r) <= 100
  {
    if r.total > 0 {
      QuotientBounds(r.done * 100, r.total);
      assert Percent(r) == r.done * 100 / r.total;
      hide Percent;
    }
  }

  predicate Listening(rows: Table, id: nat) {
    id in rows && (rows[id].status.Running? || rows[id].status.Pending?)
  }

  /** The table after the consumer wrote one report. */
  function Reported(rows: Table, id: nat, r: Report, at: int): Table {
    HeartbeatRow(ProgressRow(rows, id, Percent(r)), id, at)
  }

  /** One round of `_consume_queues`: it stops when the task has ended or is gone, writes the report
      it got from the queue, if any, and otherwise changes nothing. */
  method ConsumeOne(db: Tasks, id: nat, got: Option<Report>, at: int) returns (stopped: bool)
    modifies db
    ensures stopped <==> !Listening(old(db.rows), id)
    ensures stopped <==> id !in old(db.rows) || old(db.rows)[id].status in {Success, Failed, Cancelled}
    ensures db.rows == if !stopped && got.Some? then Reported(old(db.rows), id, got.value, at) else old(db.rows)
    ensures !stopped && got.Some? ==>
              db.rows == old(db.rows)[id := old(db.rows)[id].(progress := Percent(got.value), heartbeat := Some(at))]
  {
    var t := db.GetTask(id);
    if t.None? || !(t.value.status.Running? || t.value.status.Pending?) { return true; }
    stopped := false;
    if got.Some? {
      db.UpdateProgress(id, Percent(got.value));
      db.UpdateHeartbeat(id, at);
    }
  }

  // ---------------------------------------------------------------- the worker

  datatype Prices = PricesRaise(code: int) | NoData | Loaded

  datatype Ending = Finished(report: string) | Aborted | Crashed(code: int)

  /** What the worker meets on its way; a code is an exception. `write` is the one its terminal write
      inside the try block may raise; `lastWrite` says that a write in an except branch works. */
  datatype World = World(init: Option<int>, lookup: Option<int>, prices: Prices, build: Option<int>, replay: Ending,
                         encode: Option<int>, write: Option<int>, lastWrite: bool)

  const NECKLINE := "neckline"

  /** How the run of a task ends; `None` when its row is gone by the time it starts. */
  function Verdict(row: Option<Task>, w: World): Option<Mark> {
    if w.init.Some? then Some(Fail(Raised(w.init.value)))
    else if w.lookup.Some? then Some(Fail(Raised(w.lookup.value)))
    else if row.None? then None
    else if w.prices.PricesRaise? then Some(Fail(Raised(w.prices.code)))
    else if w.prices.NoData? then Some(Fail(NoPrices))
    else if row.value.strategy != NECKLINE then Some(Fail(UnknownStrategy))
    else if w.build.Some? then Some(Fail(Raised(w.build.value)))
    else match w.replay
         case Crashed(code) => Some(Fail(Raised(code)))
         case Aborted => Some(Cancel)
         case Finished(report) => Some(if w.encode.Some? then Fail(Raised(w.encode.value)) else Succeed(report))
  }

  /** The terminal write that gets through. A write that raises inside the try block is followed by
      a failure mark; one that raises in an except branch leaves the worker without any. */
  function Written(row: Option<Task>, w: World): Option<Mark> {
    match Verdict(row, w)
    case None => None
    case Some(mark) =>
      var inExcept := mark.Cancel? || (mark.Fail? && mark.error.Raised?);
      if inExcept then (if w.lastWrite then Some(mark) else None)
      else if w.write.None? then Some(mark)
      else if w.lastWrite then Some(Fail(Raised(w.write.value)))
      else None
  }

  /** The table after a worker's run. */
  function AfterRun(rows: Table, id: nat, w: World, at: int): Table {
    match Written(if id in rows then Some(rows[id]) else None, w)
    case None => rows
    case Some(mark) => MarkRow(rows, id, mark, at)
  }

  /** Everything before the replay works. */
  predicate ReachesReplay(t: Task, w: World) {
    w.init.None? && w.lookup.None? && w.prices.Loaded? && t.strategy == "neckline" && w.build.None?
  }

  /** The run gets to a terminal write inside the try block: for missing prices, for an unknown
      strategy, or with the report. */
  predicate ReachesWrite(t: Task, w: World) {
    && w.init.None? && w.lookup.None?
    && (|| w.prices.NoData?
        || (w.prices.Loaded? && t.strategy != "neckline")
        || (ReachesReplay(t, w) && w.replay.Finished? && w.encode.None?))
  }

  /** The first exception on the way. */
  predicate RaisesFirst(t: Task, w: World, code: int) {
    || w.init == Some(code)
    || (w.init.None? && w.lookup == Some(code))
    || (w.init.None? && w.lookup.None? && w.prices == PricesRaise(code))
    || (w.init.None? && w.lookup.None? && w.prices.Loaded? && t.strategy == "neckline" && w.build == Some(code))
    || (ReachesReplay(t, w) && w.replay == Crashed(code))
    || (ReachesReplay(t, w) && w.replay.Finished? && w.encode == Some(code))
    || (ReachesWrite(t, w) && w.write == Some(code))
  }

  /** What has become of a row. The report is stored exactly when every step and the write work; an
      abort cancels; missing prices and an unknown strategy fail with errors of their own, any
      exception with its code; and the row is left alone only if the last write raises, too. */
  ghost predicate EndsAs(t: Task, w: World, at: int, u: Task) {
    && (ReachesReplay(t, w) && w.replay.Finished? && w.encode.None? && w.write.None? ==>
          u == t.(status := Success, report := Some(w.replay.report), progress := 100, finishedAt := Some(at)))
    && (ReachesReplay(t, w) && w.replay.Aborted? && w.lastWrite ==>
          u == t.(status := Cancelled, finishedAt := Some(at)))
    && (w.init.None? && w.lookup.None? && w.prices.NoData? && w.write.None? ==>
          u == t.(status := Failed, error := Some(NoPrices), finishedAt := Some(at)))
    && (w.init.None? && w.lookup.None? && w.prices.Loaded? && t.strategy != "neckline" && w.write.None? ==>
          u == t.(status := Failed, error := Some(UnknownStrategy), finishedAt := Some(at)))
    && (forall code | RaisesFirst(t, w, code) && w.lastWrite ::
          u == t.(status := Failed, error := Some(Raised(code)), finishedAt := Some(at)))
    && (!w.lastWrite && ((exists code :: RaisesFirst(t, w, code)) || (ReachesReplay(t, w) && w.replay.Aborted?)) ==>
          u == t)
  }

  /** Every run ends in one of these ways, so a running row is a success afterwards only in the first,
      cancelled only in the second, and still running only in the last. */
  lemma {:induction false} RunEndsAs(rows: Table, id: nat, w: World, at: int)
    requires id in rows
    ensures AfterRun(rows, id, w, at).Keys == rows.Keys
    ensures forall i | i in rows && i != id :: AfterRun(rows, id, w, at)[i] == rows[i]
    ensures EndsAs(rows[id], w, at, AfterRun(rows, id, w, at)[id])
    ensures var t, u := rows[id], AfterRun(rows, id, w, at)[id];
            t.status.Running? ==>
              && (u.status.Success? <==>
                    ReachesReplay(t, w) && w.replay.Finished? && w.encode.None? && w.write.None?)
              && (u.status.Cancelled? <==> ReachesReplay(t, w) && w.replay.Aborted? && w.lastWrite)
              && (u.status.Running? ==> !w.lastWrite)
  {}

  /** `run_replay_worker`, for the rows as they are when it looks and when it marks: at most one
      terminal write gets through, and exactly one unless the row was gone or the write in the
      except branch raised. */
  method RunReplayWorker(db: Tasks, id: nat, w: World, at: int) returns (marks: nat)
    modifies db
    ensures db.rows == AfterRun(old(db.rows), id, w, at)
    ensures var row := if id in old(db.rows) then Some(old(db.rows)[id]) else None;
            marks == if Written(row, w).Some? then 1 else 0
    ensures w.lastWrite ==> (marks == 0 <==> w.init.None? && w.lookup.None? && id !in old(db.rows))
    ensures id in old(db.rows) ==> id in db.rows && EndsAs(old(db.rows)[id], w, at, db.rows[id])
  {
    if id in db.rows { RunEndsAs(db.rows, id, w, at); }
    hide EndsAs;
    marks := 0;
    var failure: Option<int> := w.init;
    if failure.None? {
      failure := w.lookup;
    }
    if failure.None? {
      var task := db.GetTask(id);
      if task.None? { return; }
      var mark: Option<Mark> := None;
      if w.prices.PricesRaise? {
        failure := Some(w.prices.code);
      } else if w.prices.NoData? {
        mark := Some(Fail(NoPrices));
      } else if task.value.strategy != NECKLINE {
        mark := Some(Fail(UnknownStrategy));
      } else if w.build.Some? {
        failure := w.build;
      } else {
        match w.replay {
          case Aborted =>
            if w.lastWrite {
              db.MarkTask(id, Cancel, at);
              marks := 1;
            }
            return;
          case Crashed(code) =>
            failure := Some(code);
          case Finished(report) =>
            if w.encode.None? {
              mark := Some(Succeed(report));
            }
            failure := w.encode;
        }
      }
      if mark.Some? {
        if w.write.None? {
          db.MarkTask(id, mark.value, at);
          return 1;
        }
        failure := w.write;
      }
    }
    if w.lastWrite {
      db.MarkTask(id, Fail(Raised(failure.value)), at);
      marks := 1;
    }
  }
}
