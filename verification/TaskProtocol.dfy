/** The task protocol as interleaved atomic steps: several schedulers, workers, queue consumers,
    sweeps, cancels, deletes and restarts over one table
    (backtest/tasks_db.py, backtest/scheduler.py, backtest/worker.py). */
module TaskProtocol {
  import opened Wrappers
  import opened TasksDb
  import opened TaskRunner

  /** A worker in the pool, one that has read its row, and one that has ended or died. */
  datatype Worker = Queued | Started | Gone

  /** A queue consumer before its status check, between the check and the progress write, and
      between the progress and the heartbeat write. */
  datatype Consumer = Watching | Writing | Beating | Stopped

  /** A row some sweep has listed and not yet come to: as it was listed, and the sweep's clock. */
  datatype Entry = Entry(sweep: nat, id: nat, seen: Task, now: int)

  datatype State = State(
    rows: Table,
    /** Every id ever handed out, with its creation time. */
    born: map<nat, int>,
    claims: seq<nat>,
    /** Claimed by a scheduler that has not submitted yet. */
    inHand: set<nat>,
    submits: seq<nat>,
    /** Ids whose worker made its terminal write. */
    marks: seq<nat>,
    workers: map<nat, Worker>,
    consumers: map<nat, Consumer>,
    sweeps: set<Entry>,
    /** `abort_flags`: registered flags, and the flags that were ever set. */
    registered: set<nat>,
    aborted: set<nat>,
    /** Claimed since a scheduler last started. */
    recent: set<nat>)

  datatype Step =
    | Create(id: nat, strategy: string, at: int)
    | Claim(id: nat, started: int, beat: int)
    | Submit(id: nat)
    | DropClaim(id: nat)
    | RequestCancel(id: nat)
    | Delete(id: nat)
    | WorkerStart(id: nat)
    | WorkerEnd(id: nat, mark: Mark, at: int)
    | WorkerDie(id: nat)
    | Watch(id: nat)
    | QueueEmpty(id: nat)
    | WriteProgress(id: nat, progress: int)
    | WriteHeartbeat(id: nat, at: int)
    | SweepList(sweep: nat, ids: seq<nat>, now: int)
    | SweepNext(entry: Entry, at: int)
    | Startup(at: int)
    | Crash

  function Init(): State {
    State(map[], map[], [], {}, [], [], map[], map[], {}, {}, {}, {})
  }

  predicate WorkerIs(s: State, id: nat, w: Worker) {
    id in s.workers && s.workers[id] == w
  }

  predicate ConsumerIs(s: State, id: nat, c: Consumer) {
    id in s.consumers && s.consumers[id] == c
  }

  ghost predicate Enabled(s: State, e: Step) {
    match e
    case Create(id, _, _) => id !in s.born
    case Claim(id, _, _) => OldestPending(s.rows, id)
    case Submit(id) => id in s.inHand
    case DropClaim(id) => id in s.inHand
    case RequestCancel(_) => true
    case Delete(_) => true
    case WorkerStart(id) => WorkerIs(s, id, Queued)
    case WorkerEnd(id, mark, _) =>
      || (WorkerIs(s, id, Started) && (mark.Cancel? ==> id in s.aborted))
      || (WorkerIs(s, id, Queued) && mark.Fail?)
    case WorkerDie(id) => id in s.workers
    case Watch(id) => ConsumerIs(s, id, Watching)
    case QueueEmpty(id) => ConsumerIs(s, id, Writing)
    case WriteProgress(id, _) => ConsumerIs(s, id, Writing)
    case WriteHeartbeat(id, _) => ConsumerIs(s, id, Beating)
    case SweepList(sweep, ids, _) =>
      IsListing(s.rows, Running, LIST_LIMIT, ids) && forall x | x in s.sweeps :: x.sweep != sweep
    case SweepNext(entry, _) => entry in s.sweeps
    case Startup(_) => true
    case Crash => true
  }

  /** What a step does to the table. */
  function RowsAfter(rows: Table, e: Step): Table {
    match e
    case Create(id, strategy, at) => rows[id := NewTask(strategy, at)]
    case Claim(id, started, beat) => if id in rows then rows[id := Claimed(rows[id], started, beat)] else rows
    case Delete(id) => rows - {id}
    case WorkerEnd(id, mark, at) => MarkRow(rows, id, mark, at)
    case WriteProgress(id, progress) => ProgressRow(rows, id, progress)
    case WriteHeartbeat(id, at) => HeartbeatRow(rows, id, at)
    case SweepNext(entry, at) =>
      if Stale(entry.seen, entry.now) then MarkRow(rows, entry.id, Expired(entry.seen, entry.now), at) else rows
    case Startup(at) => ResetRows(rows, at)
    case _ => rows
  }

  /** What it does to everything else. */
  function ActorsAfter(s: State, e: Step): State {
    match e
    case Create(id, _, at) => s.(born := s.born[id := at])
    case Claim(id, _, _) => s.(claims := s.claims + [id], inHand := s.inHand + {id}, recent := s.recent + {id})
    case Submit(id) =>
      s.(inHand := s.inHand - {id}, submits := s.submits + [id], registered := s.registered + {id},
         workers := s.workers[id := Queued], consumers := s.consumers[id := Watching])
    case DropClaim(id) => s.(inHand := s.inHand - {id})
    case RequestCancel(id) => if id in s.registered then s.(aborted := s.aborted + {id}) else s
    case Delete(_) => s
    case WorkerStart(id) => s.(workers := s.workers[id := if id in s.rows then Started else Gone])
    case WorkerEnd(id, _, _) => s.(workers := s.workers[id := Gone], marks := s.marks + [id])
    case WorkerDie(id) => s.(workers := s.workers[id := Gone])
    case Watch(id) => s.(consumers := s.consumers[id := if Listening(s.rows, id) then Writing else Stopped])
    case QueueEmpty(id) => s.(consumers := s.consumers[id := Watching])
    case WriteProgress(id, _) => s.(consumers := s.consumers[id := Beating])
    case WriteHeartbeat(id, _) => s.(consumers := s.consumers[id := Watching])
    case SweepList(sweep, ids, now) =>
      s.(sweeps := s.sweeps + set id | id in ids && id in s.rows :: Entry(sweep, id, s.rows[id], now))
    case SweepNext(entry, _) =>
      s.(sweeps := s.sweeps - {entry},
         registered := if Stale(entry.seen, entry.now) then s.registered - {entry.id} else s.registered)
    case Startup(_) => s.(recent := {})
    case Crash => s.(inHand := {}, consumers := map[], sweeps := {}, registered := {})
  }

  function Next(s: State, e: Step): (t: State) {
    ActorsAfter(s, e).(rows := RowsAfter(s.rows, e))
  }

  ghost predicate Legal(s: State, steps: seq<Step>)
    decreases |steps|
  {
    steps == [] || (Enabled(s, steps[0]) && Legal(Next(s, steps[0]), steps[1..]))
  }

  function Run(s: State, steps: seq<Step>): State
    decreases |steps|
  {
    if steps == [] then s else Run(Next(s, steps[0]), steps[1..])
  }

  // ---------------------------------------------------------------- the invariant

  predicate Terminal(status: Status) {
    status.Success? || status.Failed? || status.Cancelled?
  }

  /** What every row shows of its status. */
  predicate RowShape(t: Task) {
    match t.status
    case Pending =>
      && t.progress == 0 && t.error.None? && t.report.None?
      && t.startedAt.None? && t.finishedAt.None? && t.heartbeat.None?
    case Running =>
      && t.error.None? && t.report.None?
      && t.startedAt.Some? && t.finishedAt.None? && t.heartbeat.Some?
    case Success => t.report.Some? && t.startedAt.Some? && t.finishedAt.Some?
    case Failed => t.error.Some? && t.startedAt.Some? && t.finishedAt.Some?
    case Cancelled => t.startedAt.Some? && t.finishedAt.Some?
  }

  predicate Distinct(s: seq<nat>) {
    forall i, j | 0 <= i < j < |s| :: s[i] != s[j]
  }

  ghost predicate RowOk(s: State, id: nat)
    requires id in s.rows
  {
    var t := s.rows[id];
    && RowShape(t)
    && id in s.born && t.createdAt == s.born[id]
    && (t.status.Pending? <==> id !in s.claims)
    && (t.status.Running? ==> id in s.recent)
    && (t.status.Cancelled? ==> id in s.aborted)
  }

  ghost predicate RowsOk(s: State) {
    forall id | id in s.rows :: RowOk(s, id)
  }

  ghost predicate HistoryOk(s: State) {
    Distinct(s.claims) && Distinct(s.submits) && Distinct(s.marks) && Origins(s)
  }

  /** A claimed task was created; a submitted one was claimed and is no longer in hand. */
  ghost predicate OriginOk(s: State, id: nat) {
    && (id in s.claims ==> id in s.born)
    && (id in s.submits ==> id in s.claims && id !in s.inHand)
    && (id in s.inHand ==> id in s.claims)
    && (id in s.recent ==> id in s.claims)
  }

  ghost predicate Origins(s: State) {
    forall id :: OriginOk(s, id)
  }

  ghost predicate WorkerOk(s: State, id: nat) {
    && (id in s.workers ==> id in s.submits)
    && (id in s.marks ==> WorkerIs(s, id, Gone))
    && (id in s.consumers ==> id in s.submits)
  }

  ghost predicate WorkersOk(s: State) {
    forall id :: WorkerOk(s, id)
  }

  ghost predicate FlagsOk(s: State) {
    && (forall x | x in s.sweeps :: x.id in s.claims)
    && (forall id | id in s.registered + s.aborted :: id in s.submits)
  }

  ghost predicate ActorsOk(s: State) {
    WorkersOk(s) && FlagsOk(s)
  }

  ghost predicate Inv(s: State) {
    RowsOk(s) && HistoryOk(s) && ActorsOk(s)
  }

  lemma {:induction false} DistinctPush(s: seq<nat>, x: nat)
    requires Distinct(s) && x !in s
    ensures Distinct(s + [x])
  {
    forall i, j | 0 <= i < j < |s + [x]| ensures (s + [x])[i] != (s + [x])[j] {
      assert (s + [x])[i] in s;
    }
  }

  lemma {:induction false} ClaimIsNew(s: State, id: nat)
    requires RowsOk(s) && OldestPending(s.rows, id)
    ensures id in s.rows && id !in s.claims && id in s.born && RowShape(s.rows[id])
  {}

  lemma {:induction false} MarkIsNew(s: State, id: nat)
    requires ActorsOk(s) && id in s.workers && s.workers[id] != Gone
    ensures id !in s.marks && id in s.submits
  {
    WorkerOkAt(s, id);
  }

  lemma {:induction false} StepKeepsHistory(s: State, e: Step)
    requires Inv(s) && Enabled(s, e)
    ensures HistoryOk(Next(s, e))
  {
    hide *;
    StepKeepsDistinct(s, e);
    StepKeepsOrigins(s, e);
    HistoryParts(Next(s, e));
  }

  lemma {:induction false} HistoryParts(s: State)
    requires Distinct(s.claims) && Distinct(s.submits) && Distinct(s.marks) && Origins(s)
    ensures HistoryOk(s)
  {}

  lemma {:induction false} StepKeepsDistinct(s: State, e: Step)
    requires Inv(s) && Enabled(s, e)
    ensures Distinct(Next(s, e).claims) && Distinct(Next(s, e).submits) && Distinct(Next(s, e).marks)
  {
    hide RowsOk, ActorsOk, OldestPending, IsListing, RowsAfter, Stale, Listening, Distinct;
    match e
    case Claim(id, _, _) =>
      ClaimIsNew(s, id);
      DistinctPush(s.claims, id);
    case Submit(id) =>
      OriginsAt(s, id);
      DistinctPush(s.submits, id);
    case WorkerEnd(id, _, _) =>
      MarkIsNew(s, id);
      DistinctPush(s.marks, id);
    case _ =>
  }

  lemma {:induction false} OriginsAt(s: State, id: nat)
    requires HistoryOk(s)
    ensures OriginOk(s, id)
  {}

  lemma {:induction false} OriginStep(s: State, e: Step, id: nat)
    requires Inv(s) && Enabled(s, e)
    ensures OriginOk(Next(s, e), id)
  {
    hide Inv, HistoryOk, ActorsOk, RowsOk, OldestPending, IsListing, RowsAfter, Stale, Listening;
    InvGivesRows(s);
    OriginsAt(s, id);
    match e
    case Claim(i, _, _) => ClaimIsNew(s, i);
    case _ =>
  }

  lemma {:induction false} InvGivesRows(s: State)
    requires Inv(s)
    ensures RowsOk(s) && HistoryOk(s) && ActorsOk(s) && WorkersOk(s)
  {}

  lemma {:induction false} StepKeepsOrigins(s: State, e: Step)
    requires Inv(s) && Enabled(s, e)
    ensures Origins(Next(s, e))
  {
    hide Next, Enabled, Inv;
    forall id ensures OriginOk(Next(s, e), id) {
      OriginStep(s, e, id);
    }
  }

  lemma {:induction false} ListedAreClaimed(s: State, ids: seq<nat>)
    requires RowsOk(s) && IsListing(s.rows, Running, LIST_LIMIT, ids)
    ensures forall id | id in ids :: id in s.claims
  {}

  lemma {:induction false} SubmitIsNew(s: State, id: nat)
    requires Inv(s) && id in s.inHand
    ensures id !in s.submits && id !in s.marks
  {
    OriginsAt(s, id);
    WorkerOkAt(s, id);
  }

  lemma {:induction false} StepKeepsWorker(s: State, e: Step, id: nat)
    requires Inv(s) && Enabled(s, e)
    ensures WorkerOk(Next(s, e), id)
  {
    hide Inv, HistoryOk, ActorsOk, WorkersOk, RowsOk, OldestPending, IsListing, RowsAfter, Stale, Listening;
    InvGivesRows(s);
    WorkerOkAt(s, id);
    match e
    case Submit(i) => SubmitIsNew(s, i);
    case WorkerEnd(i, _, _) => MarkIsNew(s, i);
    case _ =>
  }

  lemma {:induction false} WorkerOkAt(s: State, id: nat)
    requires WorkersOk(s)
    ensures WorkerOk(s, id)
  {}

  lemma {:induction false} StepKeepsFlags(s: State, e: Step)
    requires Inv(s) && Enabled(s, e)
    ensures FlagsOk(Next(s, e))
  {
    hide RowsOk, WorkersOk, OldestPending, IsListing, RowsAfter, Stale, Listening, Distinct;
    match e
    case SweepList(_, ids, _) => ListedAreClaimed(s, ids);
    case _ =>
  }

  /** What a step makes of one row that stays. */
  function RowAfter(t: Task, e: Step, id: nat): Task {
    match e
    case Claim(i, started, beat) => if i == id then Claimed(t, started, beat) else t
    case WorkerEnd(i, mark, at) => if i == id then Marked(t, mark, at) else t
    case WriteProgress(i, progress) => if i == id then t.(progress := progress) else t
    case WriteHeartbeat(i, at) => if i == id then t.(heartbeat := Some(at)) else t
    case SweepNext(entry, at) =>
      if entry.id == id && Stale(entry.seen, entry.now) then Marked(t, Expired(entry.seen, entry.now), at) else t
    case Startup(at) => if t.status.Running? then Marked(t, Fail(Interrupted), at) else t
    case _ => t
  }

  lemma {:induction false} RowChanges(rows: Table, e: Step, id: nat)
    requires id in RowsAfter(rows, e) && !(e.Create? && e.id == id)
    ensures id in rows && RowsAfter(rows, e)[id] == RowAfter(rows[id], e, id)
  {
    hide Claimed, Marked, NewTask, Stale, Expired;
  }

  lemma {:induction false} StepKeepsRow(s: State, e: Step, id: nat)
    requires Inv(s) && Enabled(s, e) && id in Next(s, e).rows
    ensures RowOk(Next(s, e), id)
  {
    if e.Create? && e.id == id {
      OriginsAt(s, id);
    } else {
      RowChanges(s.rows, e, id);
      assert RowOk(s, id);
      ChangedRowOk(s, e, id);
      OthersKeepUp(s, e, id);
    }
  }

  lemma {:induction false} OthersKeepUp(s: State, e: Step, id: nat)
    requires Enabled(s, e) && id in s.born
    ensures id in Next(s, e).born && Next(s, e).born[id] == s.born[id]
    ensures id in Next(s, e).claims <==> id in s.claims || (e.Claim? && e.id == id)
    ensures e.Claim? && e.id == id ==> id in Next(s, e).recent
    ensures id in s.recent && !e.Startup? ==> id in Next(s, e).recent
    ensures id in s.aborted ==> id in Next(s, e).aborted
  {
    hide RowsAfter, OldestPending, IsListing, Listening, Stale;
  }

  lemma {:induction false} ChangedRowOk(s: State, e: Step, id: nat)
    requires ActorsOk(s) && HistoryOk(s) && Enabled(s, e)
    requires id in s.rows && RowOk(s, id)
    ensures var now := RowAfter(s.rows[id], e, id);
            && RowShape(now) && now.createdAt == s.rows[id].createdAt
            && (now.status.Pending? <==> s.rows[id].status.Pending? && !(e.Claim? && e.id == id))
            && (now.status.Running? ==> (s.rows[id].status.Running? && !e.Startup?) || (e.Claim? && e.id == id))
            && (now.status.Cancelled? ==> s.rows[id].status.Cancelled? || id in s.aborted)
  {
    hide IsListing, Distinct, Listening, RowsAfter;
    WorkerOkAt(s, id);
    OriginsAt(s, id);
    match e
    case Claim(_, _, _) =>
    case WorkerEnd(i, _, _) => assert i == id ==> id in s.claims;
    case WriteProgress(i, _) => assert i == id ==> id in s.claims;
    case WriteHeartbeat(i, _) => assert i == id ==> id in s.claims;
    case SweepNext(entry, _) => assert entry.id == id ==> id in s.claims;
    case _ =>
  }

  lemma {:induction false} StepKeepsInvariant(s: State, e: Step)
    requires Inv(s) && Enabled(s, e)
    ensures Inv(Next(s, e))
  {
    StepKeepsHistory(s, e);
    StepKeepsFlags(s, e);
    forall id ensures WorkerOk(Next(s, e), id) {
      StepKeepsWorker(s, e, id);
    }
    forall id | id in Next(s, e).rows ensures RowOk(Next(s, e), id) {
      StepKeepsRow(s, e, id);
    }
  }

  /** The invariant holds in every state of every run. */
  lemma {:induction false} RunKeepsInvariant(s: State, steps: seq<Step>)
    requires Inv(s) && Legal(s, steps)
    ensures Inv(Run(s, steps))
    decreases |steps|
  {
    if steps != [] {
      StepKeepsInvariant(s, steps[0]);
      RunKeepsInvariant(Next(s, steps[0]), steps[1..]);
    }
  }
}
