/** What the task protocol keeps over every interleaving, and what it does not. */
module TaskGuarantees {
  import opened Wrappers
  import opened TasksDb
  import opened TaskRunner
  import opened TaskProtocol

  lemma {:induction false} InitIsSound()
    ensures Inv(Init())
  {}

  /** In every reachable state no task was claimed, submitted or marked by a worker twice; a running
      row has a heartbeat and no finish time, a success has its report, a cancelled task had its
      flag set. */
  lemma {:induction false} EveryRunIsSound(steps: seq<Step>)
    requires Legal(Init(), steps)
    ensures var s := Run(Init(), steps);
            && Distinct(s.claims) && Distinct(s.submits) && Distinct(s.marks)
            && (forall id | id in s.marks :: id in s.submits)
            && (forall id | id in s.submits :: id in s.claims)
            && (forall id | id in s.rows :: Tells(s, id))
            && (forall id | id in s.rows && s.rows[id].status.Cancelled? :: RequestCancel(id) in steps)
  {
    InitIsSound();
    RunKeepsInvariant(Init(), steps);
    var s := Run(Init(), steps);
    hide Run, Legal, Inv, RowOk, RowShape, WorkersOk, FlagsOk, HistoryOk, Distinct, Tells;
    InvParts(s);
    forall id | id in s.rows ensures Tells(s, id) {
      RowTells(s, id);
    }
    forall id | id in s.rows && s.rows[id].status.Cancelled? ensures RequestCancel(id) in steps {
      CancelledWasAborted(s, id);
      AbortsWereRequested(Init(), steps, id);
    }
    forall id | id in s.marks ensures id in s.submits {
      WorkerOkAt(s, id);
    }
  }

  /** What a row's status tells its reader. */
  ghost predicate Tells(s: State, id: nat)
    requires id in s.rows
  {
    var t := s.rows[id];
    && (t.status.Pending? <==> id !in s.claims)
    && (t.status.Running? ==> t.heartbeat.Some? && t.startedAt.Some? && t.finishedAt.None?)
    && (t.status.Success? ==> t.report.Some? && t.finishedAt.Some?)
    && (t.status.Failed? ==> t.error.Some? && t.finishedAt.Some?)
    && (t.status.Cancelled? ==> t.finishedAt.Some?)
  }

  lemma {:induction false} RowTells(s: State, id: nat)
    requires id in s.rows && RowsOk(s)
    ensures Tells(s, id)
  {
    assert RowOk(s, id);
  }

  lemma {:induction false} CancelledWasAborted(s: State, id: nat)
    requires id in s.rows && RowsOk(s) && s.rows[id].status.Cancelled?
    ensures id in s.aborted
  {}

  lemma {:induction false} InvParts(s: State)
    requires Inv(s)
    ensures RowsOk(s) && WorkersOk(s) && FlagsOk(s) && HistoryOk(s)
    ensures Distinct(s.claims) && Distinct(s.submits) && Distinct(s.marks)
    ensures forall id | id in s.submits :: id in s.claims
  {
    forall id | id in s.submits ensures id in s.claims { OriginsAt(s, id); }
  }

  /** A flag is only ever set by a cancel request. */
  lemma {:induction false} AbortsWereRequested(s: State, steps: seq<Step>, id: nat)
    requires Legal(s, steps) && id in Run(s, steps).aborted
    ensures id in s.aborted || RequestCancel(id) in steps
    decreases |steps|
  {
    if steps != [] {
      AbortsWereRequested(Next(s, steps[0]), steps[1..], id);
      AbortStep(s, steps[0], id);
      assert steps == [steps[0]] + steps[1..];
    }
  }

  lemma {:induction false} AbortStep(s: State, e: Step, id: nat)
    ensures id in Next(s, e).aborted && id !in s.aborted ==> e == RequestCancel(id) && id in s.registered
  {
    hide RowsAfter, Listening, Stale;
  }

  // ---------------------------------------------------------------- first come, first served

  /** No task is created with a time before that of one already claimed. */
  ghost predicate OnTime(s: State, steps: seq<Step>)
    decreases |steps|
  {
    steps == [] ||
    (OnTime(Next(s, steps[0]), steps[1..]) &&
     (steps[0].Create? ==> forall c | c in s.claims && c in s.born :: s.born[c] <= steps[0].at))
  }

  ghost predicate InOrder(s: State) {
    && (forall id | id in s.claims :: id in s.born)
    && (forall i, j | 0 <= i < j < |s.claims| :: s.born[s.claims[i]] <= s.born[s.claims[j]])
    && (forall c, id | c in s.claims && id in s.rows && s.rows[id].status.Pending? ::
          s.born[c] <= s.rows[id].createdAt)
  }

  lemma {:induction false} StepKeepsOrder(s: State, e: Step)
    requires Inv(s) && Enabled(s, e) && InOrder(s) && Inv(Next(s, e))
    requires e.Create? ==> forall c | c in s.claims && c in s.born :: s.born[c] <= e.at
    ensures InOrder(Next(s, e))
  {
    hide Next, Enabled, Inv, RowOk, RowsOk, WorkersOk, FlagsOk, HistoryOk;
    var t := Next(s, e);
    InvParts(s);
    ClaimsGrow(s, e);
    if e.Claim? { ClaimedLast(s, e); }
    assert forall id | id in t.claims :: id in t.born;
    forall i, j | 0 <= i < j < |t.claims| ensures t.born[t.claims[i]] <= t.born[t.claims[j]] {
      assert t.claims[i] in s.claims;
      if j < |s.claims| { assert t.claims[j] in s.claims; }
    }
    forall c, id | c in t.claims && id in t.rows && t.rows[id].status.Pending?
      ensures t.born[c] <= t.rows[id].createdAt {
      PendingOrigin(s, e, id);
    }
  }

  /** A claim is the oldest pending row at that moment. */
  lemma {:induction false} ClaimedLast(s: State, e: Step)
    requires RowsOk(s) && Enabled(s, e) && e.Claim?
    ensures e.id in s.rows && s.rows[e.id].status.Pending? && e.id in s.born && s.rows[e.id].createdAt == s.born[e.id]
    ensures forall id | id in s.rows && s.rows[id].status.Pending? :: s.born[e.id] <= s.rows[id].createdAt
  {
    assert RowOk(s, e.id);
    forall id | id in s.rows && s.rows[id].status.Pending? ensures s.born[e.id] <= s.rows[id].createdAt {
      assert IsPending(s.rows, id);
    }
  }

  /** A pending row was just created, or was pending before with the same creation time. */
  lemma {:induction false} PendingOrigin(s: State, e: Step, id: nat)
    requires Inv(s) && Enabled(s, e) && id in Next(s, e).rows && Next(s, e).rows[id].status.Pending?
    ensures var now := Next(s, e).rows[id];
            || (e.Create? && now.createdAt == e.at)
            || (id in s.rows && s.rows[id].status.Pending? && now.createdAt == s.rows[id].createdAt)
  {
    if !(e.Create? && e.id == id) {
      RowChanges(s.rows, e, id);
      assert RowOk(s, id);
      ChangedRowOk(s, e, id);
    }
  }

  lemma {:induction false} ClaimsGrow(s: State, e: Step)
    requires HistoryOk(s) && Enabled(s, e)
    ensures var t := Next(s, e);
            && t.claims == s.claims + (if e.Claim? then [e.id] else [])
            && (forall id | id in s.claims :: id in t.born && id in s.born && t.born[id] == s.born[id])
            && (e.Claim? ==> t.born == s.born)
  {
    hide RowsAfter, Listening, Stale, IsListing, OldestPending, Distinct, HistoryOk;
    forall id | id in s.claims ensures id in s.born { OriginsAt(s, id); }
  }

  /** While the clock does not run back past claimed tasks, tasks are claimed in the order in which
      they were created, whichever schedulers claim them. */
  lemma {:induction false} ClaimsAreInOrder(s: State, steps: seq<Step>)
    requires Inv(s) && InOrder(s) && Legal(s, steps) && OnTime(s, steps)
    ensures InOrder(Run(s, steps))
    decreases |steps|
  {
    if steps != [] {
      StepKeepsInvariant(s, steps[0]);
      StepKeepsOrder(s, steps[0]);
      ClaimsAreInOrder(Next(s, steps[0]), steps[1..]);
    }
  }

  // ---------------------------------------------------------------- statuses only move forward

  function Rank(status: Status): nat {
    match status
    case Pending => 0
    case Running => 1
    case _ => 2
  }

  /** Ended with full progress. */
  predicate Full(s: State, id: nat) {
    id in s.rows && Terminal(s.rows[id].status) && s.rows[id].progress == 100
  }

  lemma {:induction false} StepMovesForward(s: State, e: Step, id: nat)
    requires Inv(s) && Enabled(s, e) && id in s.born
    ensures id in Next(s, e).born
    ensures id in Next(s, e).rows ==>
              id in s.rows && Rank(s.rows[id].status) <= Rank(Next(s, e).rows[id].status)
    ensures id in Next(s, e).rows && Full(s, id) && !ConsumerIs(s, id, Writing) ==> Full(Next(s, e), id)
  {
    OthersKeepUp(s, e, id);
    if id in Next(s, e).rows {
      assert !(e.Create? && e.id == id);
      RowChanges(s.rows, e, id);
      assert RowOk(s, id);
      MarkedFacts(s, e, id);
    }
  }

  lemma {:induction false} MarkedFacts(s: State, e: Step, id: nat)
    requires Inv(s) && Enabled(s, e) && id in s.rows && RowOk(s, id)
    ensures Rank(s.rows[id].status) <= Rank(RowAfter(s.rows[id], e, id).status)
    ensures Terminal(s.rows[id].status) && s.rows[id].progress == 100 && !ConsumerIs(s, id, Writing) ==>
              RowAfter(s.rows[id], e, id).progress == 100
  {
    hide Inv, IsListing, Stale, Expired;
  }

  /** No run takes a status back: pending, then running, then ended; and a deleted id stays gone. */
  lemma {:induction false} StatusNeverGoesBack(s: State, steps: seq<Step>, id: nat)
    requires Inv(s) && Legal(s, steps) && id in s.born
    ensures id in Run(s, steps).rows ==>
              id in s.rows && Rank(s.rows[id].status) <= Rank(Run(s, steps).rows[id].status)
    decreases |steps|
  {
    if steps != [] {
      StepMovesForward(s, steps[0], id);
      StepKeepsInvariant(s, steps[0]);
      StatusNeverGoesBack(Next(s, steps[0]), steps[1..], id);
    }
  }

  // ---------------------------------------------------------------- when an ended status is final

  /** A worker of the task may still come to its terminal write. */
  predicate Busy(s: State, id: nat) {
    id in s.inHand || WorkerIs(s, id, Queued) || WorkerIs(s, id, Started)
  }

  /** A sweep has listed the task as stale and will fail it when it comes to it. */
  ghost predicate Awaited(s: State, id: nat) {
    exists x :: x in s.sweeps && x.id == id && Stale(x.seen, x.now)
  }

  ghost predicate Settled(s: State, id: nat) {
    id in s.rows && Terminal(s.rows[id].status) && !Busy(s, id) && (s.rows[id].status.Failed? || !Awaited(s, id))
  }

  lemma {:induction false} StepKeepsSettled(s: State, e: Step, id: nat)
    requires Inv(s) && Enabled(s, e) && Settled(s, id) && id in Next(s, e).rows
    ensures Settled(Next(s, e), id) && Next(s, e).rows[id].status == s.rows[id].status
  {
    assert RowOk(s, id);
    RowChanges(s.rows, e, id);
    SettledRow(s, e, id);
    SettledActors(s, e, id);
    if Awaited(Next(s, e), id) { SettledSweeps(s, e, id); }
  }

  lemma {:induction false} SettledRow(s: State, e: Step, id: nat)
    requires Enabled(s, e) && Settled(s, id)
    ensures RowAfter(s.rows[id], e, id).status == s.rows[id].status
  {
    hide IsListing;
    match e
    case SweepNext(entry, _) => assert entry.id == id && Stale(entry.seen, entry.now) ==> Awaited(s, id);
    case Claim(_, _, _) =>
    case WorkerEnd(_, _, _) =>
    case _ =>
  }

  lemma {:induction false} SettledActors(s: State, e: Step, id: nat)
    requires Enabled(s, e) && Settled(s, id)
    ensures !Busy(Next(s, e), id)
  {
    hide IsListing, Awaited, RowsAfter, Stale, Listening;
  }

  lemma {:induction false} SettledSweeps(s: State, e: Step, id: nat)
    requires Enabled(s, e) && id in s.rows && Terminal(s.rows[id].status) && Awaited(Next(s, e), id)
    ensures Awaited(s, id)
  {
    hide Next, Enabled, Stale;
    var x :| x in Next(s, e).sweeps && x.id == id && Stale(x.seen, x.now);
    NewEntriesAreRunning(s, e, x);
  }

  lemma {:induction false} NewEntriesAreRunning(s: State, e: Step, x: Entry)
    requires Enabled(s, e) && x in Next(s, e).sweeps
    ensures x in s.sweeps || (x.id in s.rows && s.rows[x.id].status.Running?)
  {
    hide RowsAfter, Stale, Listening;
  }

  /** No run changes the status while the row exists. */
  ghost predicate StatusIsFinal(s: State, id: nat)
    requires id in s.rows
  {
    forall steps | Legal(s, steps) && id in Run(s, steps).rows :: Run(s, steps).rows[id].status == s.rows[id].status
  }

  lemma {:induction false} SettledIsFinal(s: State, steps: seq<Step>, id: nat)
    requires Inv(s) && Legal(s, steps) && Settled(s, id) && id in Run(s, steps).rows
    ensures Run(s, steps).rows[id].status == s.rows[id].status
    decreases |steps|
  {
    if steps != [] {
      var t := Next(s, steps[0]);
      StepKeepsInvariant(s, steps[0]);
      assert RowOk(s, id);
      OthersKeepUp(s, steps[0], id);
      StatusNeverGoesBack(t, steps[1..], id);
      StepKeepsSettled(s, steps[0], id);
      SettledIsFinal(t, steps[1..], id);
    }
  }

  /** A terminal write that changes the status. */
  function OtherMark(status: Status): Mark {
    if status.Failed? then Succeed("") else Fail(NoPrices)
  }

  lemma {:induction false} StartedCanChange(s: State, id: nat)
    requires id in s.rows && WorkerIs(s, id, Started)
    ensures !StatusIsFinal(s, id)
  {
    var e := WorkerEnd(id, OtherMark(s.rows[id].status), 0);
    var steps := [e];
    assert steps[1..] == [];
    assert Run(s, steps) == Next(s, e);
    assert Legal(s, steps);
  }

  lemma {:induction false} LaterChangeCounts(s: State, e: Step, id: nat)
    requires id in s.rows && Enabled(s, e) && id in Next(s, e).rows && Next(s, e).rows[id].status == s.rows[id].status
    requires !StatusIsFinal(Next(s, e), id)
    ensures !StatusIsFinal(s, id)
  {
    hide Next, Enabled;
    var t := Next(s, e);
    var rest :| Legal(t, rest) && id in Run(t, rest).rows && Run(t, rest).rows[id].status != t.rows[id].status;
    var steps := [e] + rest;
    assert steps[0] == e && steps[1..] == rest;
    assert Legal(s, steps) && Run(s, steps) == Run(t, rest);
  }

  lemma {:induction false} QueuedCanChange(s: State, id: nat)
    requires id in s.rows && WorkerIs(s, id, Queued)
    ensures !StatusIsFinal(s, id)
  {
    var e := WorkerStart(id);
    StartedCanChange(Next(s, e), id);
    LaterChangeCounts(s, e, id);
  }

  lemma {:induction false} UnsettledCanChange(s: State, id: nat)
    requires id in s.rows && Terminal(s.rows[id].status) && !Settled(s, id)
    ensures !StatusIsFinal(s, id)
  {
    if id in s.inHand {
      var e := Submit(id);
      QueuedCanChange(Next(s, e), id);
      LaterChangeCounts(s, e, id);
    } else if WorkerIs(s, id, Queued) {
      QueuedCanChange(s, id);
    } else if WorkerIs(s, id, Started) {
      StartedCanChange(s, id);
    } else {
      var x :| x in s.sweeps && x.id == id && Stale(x.seen, x.now);
      var steps := [SweepNext(x, 0)];
      assert steps[1..] == [];
      assert Run(s, steps) == Next(s, steps[0]);
      assert Legal(s, steps);
    }
  }

  /** An ended status is final exactly when no worker of the task is still on its way and no sweep
      is about to overwrite it. A failed status with its worker still queued in the pool is the
      case that is not: the worker will run and may mark success. */
  lemma {:induction false} StatusIsFinalExactlyWhen(s: State, id: nat)
    requires Inv(s) && id in s.rows && Terminal(s.rows[id].status)
    ensures StatusIsFinal(s, id) <==> Settled(s, id)
  {
    if Settled(s, id) {
      forall steps | Legal(s, steps) && id in Run(s, steps).rows
        ensures Run(s, steps).rows[id].status == s.rows[id].status {
        SettledIsFinal(s, steps, id);
      }
    } else {
      UnsettledCanChange(s, id);
    }
  }

  // ---------------------------------------------------------------- progress

  /** No run lowers the progress while the row exists and stays ended. */
  ghost predicate ProgressIsFinal(s: State, id: nat) {
    forall steps | Legal(s, steps) && id in Run(s, steps).rows :: Run(s, steps).rows[id].progress == 100
  }

  lemma {:induction false} StoppedStaysStopped(s: State, e: Step, id: nat)
    requires Inv(s) && Enabled(s, e) && Full(s, id) && !ConsumerIs(s, id, Writing)
    ensures !ConsumerIs(Next(s, e), id, Writing)
  {
    hide RowsAfter, Stale, IsListing, OldestPending, Inv;
  }

  lemma {:induction false} FullStays(s: State, steps: seq<Step>, id: nat)
    requires Inv(s) && Legal(s, steps) && Full(s, id) && !ConsumerIs(s, id, Writing) && id in Run(s, steps).rows
    ensures Run(s, steps).rows[id].progress == 100
    decreases |steps|
  {
    if steps != [] {
      var t := Next(s, steps[0]);
      StepKeepsInvariant(s, steps[0]);
      assert RowOk(s, id);
      StepMovesForward(s, steps[0], id);
      StatusNeverGoesBack(t, steps[1..], id);
      StoppedStaysStopped(s, steps[0], id);
      FullStays(t, steps[1..], id);
    }
  }

  /** The progress of an ended task stays at 100 exactly when its queue consumer is not between its
      status check and its write. */
  lemma {:induction false} ProgressIsFinalExactlyWhen(s: State, id: nat)
    requires Inv(s) && Full(s, id)
    ensures ProgressIsFinal(s, id) <==> !ConsumerIs(s, id, Writing)
  {
    if ConsumerIs(s, id, Writing) {
      var steps := [WriteProgress(id, 50)];
      assert steps[1..] == [];
      assert Run(s, steps) == Next(s, steps[0]);
      assert Legal(s, steps);
    } else {
      forall steps | Legal(s, steps) && id in Run(s, steps).rows
        ensures Run(s, steps).rows[id].progress == 100 {
        FullStays(s, steps, id);
      }
    }
  }

  // ---------------------------------------------------------------- restart

  ghost predicate RecentAfter(s: State, n: nat) {
    n <= |s.claims| && forall id | id in s.recent :: id in s.claims[n..]
  }

  lemma {:induction false} StepKeepsRecent(s: State, e: Step, n: nat)
    requires Enabled(s, e) && RecentAfter(s, n)
    ensures RecentAfter(Next(s, e), n)
  {
    hide RowsAfter, Stale, IsListing, OldestPending, Listening;
    match e
    case Claim(id, _, _) =>
      assert (s.claims + [id])[n..] == s.claims[n..] + [id];
    case _ =>
  }

  lemma {:induction false} RunKeepsRecent(s: State, steps: seq<Step>, n: nat)
    requires Legal(s, steps) && RecentAfter(s, n)
    ensures RecentAfter(Run(s, steps), n)
    decreases |steps|
  {
    if steps != [] {
      StepKeepsRecent(s, steps[0], n);
      RunKeepsRecent(Next(s, steps[0]), steps[1..], n);
    }
  }

  /** A starting scheduler leaves nothing running and every pending row as it was, and from then on
      only tasks claimed after the start are ever running. */
  lemma {:induction false} OnlyNewClaimsRunAfterStartup(s: State, at: int, steps: seq<Step>)
    requires Inv(s) && Legal(Next(s, Startup(at)), steps)
    ensures var t := Next(s, Startup(at));
            && t.rows.Keys == s.rows.Keys
            && (forall id | id in t.rows :: !t.rows[id].status.Running?)
            && (forall id | id in s.rows && !s.rows[id].status.Running? :: t.rows[id] == s.rows[id])
    ensures var u := Run(Next(s, Startup(at)), steps);
            && |s.claims| <= |u.claims|
            && forall id | id in u.rows && u.rows[id].status.Running? :: id in u.claims[|s.claims|..]
  {
    var t := Next(s, Startup(at));
    StepKeepsInvariant(s, Startup(at));
    RunKeepsRecent(t, steps, |s.claims|);
    RunKeepsInvariant(t, steps);
    var u := Run(t, steps);
    forall id | id in u.rows && u.rows[id].status.Running? ensures id in u.recent {
      assert RowOk(u, id);
    }
  }

  // ---------------------------------------------------------------- reachability

  ghost predicate Leads(s: State, t: State) {
    exists steps :: Legal(s, steps) && Run(s, steps) == t
  }

  lemma {:induction false} LeadsNext(s: State, t: State, e: Step)
    requires Leads(s, t) && Enabled(t, e)
    ensures Leads(s, Next(t, e))
  {
    hide Next, Enabled;
    var steps :| Legal(s, steps) && Run(s, steps) == t;
    RunAppends(s, steps, e);
  }

  lemma {:induction false} RunAppends(s: State, steps: seq<Step>, e: Step)
    requires Legal(s, steps) && Enabled(Run(s, steps), e)
    ensures Legal(s, steps + [e]) && Run(s, steps + [e]) == Next(Run(s, steps), e)
    decreases |steps|
  {
    hide Next, Enabled;
    var all := steps + [e];
    if steps == [] {
      assert all[0] == e && all[1..] == [];
      assert Legal(Next(s, e), []) && Run(Next(s, e), []) == Next(s, e);
    } else {
      assert all[0] == steps[0] && all[1..] == steps[1..] + [e];
      RunAppends(Next(s, steps[0]), steps[1..], e);
    }
  }

  lemma {:induction false} LeadsSelf(s: State)
    ensures Leads(s, s)
  {
    assert Legal(s, []) && Run(s, []) == s;
  }

  // ---------------------------------------------------------------- the code's own passes are runs

  lemma {:induction false} ClaimStep(s: State, id: nat, started: int, beat: int)
    requires OldestPending(s.rows, id)
    ensures var e := Claim(id, started, beat);
            && Enabled(s, e) && Next(s, e).claims == s.claims + [id] && id in Next(s, e).inHand
            && Next(s, e).submits == s.submits
            && Next(s, e).rows == s.rows[id := s.rows[id].(status := Running, startedAt := Some(started),
                                                           heartbeat := Some(beat))]
  {}

  lemma {:induction false} SubmitStep(s: State, id: nat)
    requires id in s.inHand
    ensures var t := Next(s, Submit(id));
            && Enabled(s, Submit(id)) && t.rows == s.rows && t.claims == s.claims && t.submits == s.submits + [id]
            && WorkerIs(t, id, Queued) && ConsumerIs(t, id, Watching) && id in t.registered
  {}

  lemma {:induction false} DroppedStep(s: State, id: nat)
    requires id in s.inHand
    ensures var t := Next(Next(s, Delete(id)), DropClaim(id));
            && Enabled(s, Delete(id)) && Enabled(Next(s, Delete(id)), DropClaim(id))
            && t.rows == s.rows - {id} && t.claims == s.claims && t.submits == s.submits && id !in t.inHand
  {}

  /** A poll is a claim and a submission, after which a worker and a consumer wait for the task; or,
      when the row is deleted in between, a claim that is dropped. */
  lemma {:induction false} PollIsARun(s: State, id: nat, started: int, beat: int, deleted: bool) returns (t: State)
    requires OldestPending(s.rows, id)
    ensures Leads(s, t) && t.claims == s.claims + [id]
    ensures deleted ==> t.rows == s.rows - {id} && t.submits == s.submits && id !in t.inHand
    ensures !deleted ==>
              && t.rows == s.rows[id := s.rows[id].(status := Running, startedAt := Some(started),
                                                    heartbeat := Some(beat))]
              && t.submits == s.submits + [id] && id in t.registered
              && WorkerIs(t, id, Queued) && ConsumerIs(t, id, Watching)
  {
    hide Next, Enabled, Leads, OldestPending;
    LeadsSelf(s);
    ClaimStep(s, id, started, beat);
    LeadsNext(s, s, Claim(id, started, beat));
    t := Next(s, Claim(id, started, beat));
    if deleted {
      DroppedStep(t, id);
      LeadsNext(s, t, Delete(id));
      LeadsNext(s, Next(t, Delete(id)), DropClaim(id));
      t := Next(Next(t, Delete(id)), DropClaim(id));
    } else {
      SubmitStep(t, id);
      LeadsNext(s, t, Submit(id));
      t := Next(t, Submit(id));
    }
  }

  lemma {:induction false} RequestStep(s: State, id: nat)
    ensures var t := Next(s, RequestCancel(id));
            && Enabled(s, RequestCancel(id)) && t.rows == s.rows && t.workers == s.workers
            && t == if id in s.registered then s.(aborted := s.aborted + {id}) else s
  {}

  /** A cancel request for a registered task can take effect: its worker may end with the task
      cancelled. For any other task it changes nothing at all. */
  lemma {:induction false} CancelTakesEffect(s: State, id: nat, at: int) returns (t: State)
    requires WorkerIs(s, id, Started) && id in s.rows
    ensures id !in s.registered ==> Next(s, RequestCancel(id)) == s
    ensures id in s.registered ==>
              && Leads(s, t) && WorkerIs(t, id, Gone)
              && t.rows == s.rows[id := s.rows[id].(status := Cancelled, finishedAt := Some(at))]
  {
    LeadsSelf(s);
    RequestStep(s, id);
    LeadsNext(s, s, RequestCancel(id));
    t := Next(s, RequestCancel(id));
    if id in s.registered {
      LeadsNext(s, t, WorkerEnd(id, Cancel, at));
      t := Next(t, WorkerEnd(id, Cancel, at));
    }
  }

  lemma {:induction false} CrashStep(s: State)
    ensures var t := Next(s, Crash);
            && Enabled(s, Crash) && t.rows == s.rows && t.workers == s.workers
            && t.inHand == {} && t.consumers == map[] && t.sweeps == {} && t.registered == {}
  {}

  lemma {:induction false} StartupStep(s: State, at: int)
    ensures var t := Next(s, Startup(at));
            && Enabled(s, Startup(at)) && t.rows == ResetRows(s.rows, at) && t.workers == s.workers
            && t.inHand == s.inHand && t.consumers == s.consumers && t.sweeps == s.sweeps
            && t.registered == s.registered
  {}

  /** The scheduler may die and start again at any time. Nothing is in hand then, no consumer or sweep
      is under way, and what was running is failed as interrupted; the pool's workers live on. */
  lemma {:induction false} RestartIsARun(s: State, at: int) returns (t: State)
    ensures Leads(s, t) && t.workers == s.workers && t.rows.Keys == s.rows.Keys
    ensures t.inHand == {} && t.consumers == map[] && t.sweeps == {} && t.registered == {}
    ensures forall id | id in s.rows ::
              t.rows[id] == if s.rows[id].status.Running?
                            then s.rows[id].(status := Failed, error := Some(Interrupted), finishedAt := Some(at))
                            else s.rows[id]
  {
    hide Next, Enabled, Leads;
    LeadsSelf(s);
    CrashStep(s);
    LeadsNext(s, s, Crash);
    t := Next(s, Crash);
    StartupStep(t, at);
    LeadsNext(s, t, Startup(at));
    t := Next(t, Startup(at));
  }

  /** Whatever a queued worker meets, its run is at most two steps of the protocol: it ends gone,
      with exactly the terminal write that got through, or none. */
  lemma {:induction false} WorkerRunIsARun(s: State, id: nat, w: World, at: int) returns (t: State)
    requires WorkerIs(s, id, Queued) && (w.replay.Aborted? ==> id in s.aborted)
    ensures Leads(s, t) && WorkerIs(t, id, Gone)
    ensures t.rows == AfterRun(s.rows, id, w, at)
  {
    LeadsSelf(s);
    var row := if id in s.rows then Some(s.rows[id]) else None;
    var written := Written(row, w);
    if written.None? {
      LeadsNext(s, s, WorkerDie(id));
      t := Next(s, WorkerDie(id));
    } else if written.value.Fail? {
      LeadsNext(s, s, WorkerEnd(id, written.value, at));
      t := Next(s, WorkerEnd(id, written.value, at));
    } else {
      assert written.value.Cancel? ==> w.replay.Aborted?;
      LeadsNext(s, s, WorkerStart(id));
      t := Next(s, WorkerStart(id));
      assert t.rows == s.rows && t.aborted == s.aborted && WorkerIs(t, id, Started);
      LeadsNext(s, t, WorkerEnd(id, written.value, at));
      t := Next(t, WorkerEnd(id, written.value, at));
    }
  }

  /** A whole sweep is a listing step followed by one step for each listed task. */
  lemma {:induction false} SweepIsARun(s: State, sweep: nat, listed: seq<nat>, now: int, at: nat -> int, n: nat)
      returns (t: State)
    requires n <= |listed| && Enabled(s, SweepList(sweep, listed, now))
    ensures Leads(s, t) && t.rows == SweptRows(s.rows, listed, now, at, n)
    ensures forall i | n <= i < |listed| ::
              listed[i] in s.rows && Entry(sweep, listed[i], s.rows[listed[i]], now) in t.sweeps
  {
    hide Stale, IsListing, MarkRow, Expired, Leads, Next, Enabled;
    if n == 0 {
      LeadsSelf(s);
      LeadsNext(s, s, SweepList(sweep, listed, now));
      t := Next(s, SweepList(sweep, listed, now));
      ListingStep(s, sweep, listed, now);
    } else {
      var u := SweepIsARun(s, sweep, listed, now, at, n - 1);
      var id := listed[n - 1];
      var x := Entry(sweep, id, s.rows[id], now);
      SweepNextStep(u, x, at(n - 1));
      LeadsNext(s, u, SweepNext(x, at(n - 1)));
      t := Next(u, SweepNext(x, at(n - 1)));
      OthersDiffer(s, sweep, listed, now, n - 1);
    }
  }

  /** A round of the queue consumer is a status check followed by its two writes, or by none; it
      ends listening again, or stopped, with the table as the round leaves it. */
  lemma {:induction false} ConsumerRoundIsARun(s: State, id: nat, got: Option<Report>, at: int) returns (t: State)
    requires ConsumerIs(s, id, Watching)
    ensures Leads(s, t)
    ensures !Listening(s.rows, id) ==> t.rows == s.rows && ConsumerIs(t, id, Stopped)
    ensures Listening(s.rows, id) ==>
              && ConsumerIs(t, id, Watching)
              && t.rows == match got case None => s.rows case Some(r) => Reported(s.rows, id, r, at)
  {
    hide Next, Enabled, Leads, Listening, Reported;
    WatchStep(s, id);
    LeadsSelf(s);
    LeadsNext(s, s, Watch(id));
    t := Next(s, Watch(id));
    if Listening(s.rows, id) {
      var u := t;
      if got.None? {
        EmptyStep(u, id);
        LeadsNext(s, u, QueueEmpty(id));
        t := Next(u, QueueEmpty(id));
      } else {
        var e, f := WriteProgress(id, Percent(got.value)), WriteHeartbeat(id, at);
        ProgressStep(u, id, Percent(got.value));
        LeadsNext(s, u, e);
        var v := Next(u, e);
        HeartbeatStep(v, id, at);
        LeadsNext(s, v, f);
        t := Next(v, f);
        ReportedRows(s.rows, id, got.value, at);
      }
    }
  }

  lemma {:induction false} ReportedRows(rows: Table, id: nat, r: Report, at: int)
    ensures Reported(rows, id, r, at) == HeartbeatRow(ProgressRow(rows, id, Percent(r)), id, at)
  {}

  lemma {:induction false} WatchStep(s: State, id: nat)
    requires ConsumerIs(s, id, Watching)
    ensures var t := Next(s, Watch(id));
            && Enabled(s, Watch(id)) && t.rows == s.rows
            && ConsumerIs(t, id, if Listening(s.rows, id) then Writing else Stopped)
  {}

  lemma {:induction false} EmptyStep(s: State, id: nat)
    requires ConsumerIs(s, id, Writing)
    ensures var t := Next(s, QueueEmpty(id));
            Enabled(s, QueueEmpty(id)) && t.rows == s.rows && ConsumerIs(t, id, Watching)
  {}

  lemma {:induction false} ProgressStep(s: State, id: nat, progress: int)
    requires ConsumerIs(s, id, Writing)
    ensures var e := WriteProgress(id, progress);
            Enabled(s, e) && Next(s, e).rows == ProgressRow(s.rows, id, progress) && ConsumerIs(Next(s, e), id, Beating)
  {}

  lemma {:induction false} HeartbeatStep(s: State, id: nat, at: int)
    requires ConsumerIs(s, id, Beating)
    ensures var e := WriteHeartbeat(id, at);
            Enabled(s, e) && Next(s, e).rows == HeartbeatRow(s.rows, id, at) && ConsumerIs(Next(s, e), id, Watching)
  {}

  lemma {:induction false} SweepNextStep(s: State, x: Entry, at: int)
    requires x in s.sweeps
    ensures var t := Next(s, SweepNext(x, at));
            && Enabled(s, SweepNext(x, at)) && t.sweeps == s.sweeps - {x}
            && t.rows == if Stale(x.seen, x.now) then MarkRow(s.rows, x.id, Expired(x.seen, x.now), at) else s.rows
  {}

  lemma {:induction false} ListingStep(s: State, sweep: nat, listed: seq<nat>, now: int)
    requires Enabled(s, SweepList(sweep, listed, now))
    ensures var t := Next(s, SweepList(sweep, listed, now));
            t.rows == s.rows && forall i | 0 <= i < |listed| ::
              listed[i] in s.rows && Entry(sweep, listed[i], s.rows[listed[i]], now) in t.sweeps
  {
    var t := Next(s, SweepList(sweep, listed, now));
    forall i | 0 <= i < |listed|
      ensures listed[i] in s.rows && Entry(sweep, listed[i], s.rows[listed[i]], now) in t.sweeps {
      assert listed[i] in listed;
    }
  }

  lemma {:induction false} OthersDiffer(s: State, sweep: nat, listed: seq<nat>, now: int, n: nat)
    requires n < |listed| && Enabled(s, SweepList(sweep, listed, now))
    ensures forall i | 0 <= i < |listed| && i != n :: listed[i] != listed[n]
  {}

  // ---------------------------------------------------------------- two runs worth knowing

  const FIRST := NewTask(NECKLINE, 0)

  /** One task was created, claimed and submitted; its worker waits in the pool. */
  function Waiting(): State {
    State(map[0 := Claimed(FIRST, 0, 0)], map[0 := 0], [0], {}, [0], [], map[0 := Queued], map[0 := Watching], {}, {0},
          {}, {0})
  }

  lemma {:induction false} WaitingIsReachable()
    ensures Leads(Init(), Waiting())
  {
    var a, b, c := Create(0, NECKLINE, 0), Claim(0, 0, 0), Submit(0);
    LeadsSelf(Init());
    LeadsNext(Init(), Init(), a);
    var s := Next(Init(), a);
    assert s.rows == map[0 := FIRST] && OldestPending(s.rows, 0);
    LeadsNext(Init(), s, b);
    var t := Next(s, b);
    assert t.rows == map[0 := Claimed(FIRST, 0, 0)] && t.inHand == {0} && t.claims == [0];
    LeadsNext(Init(), t, c);
    assert Next(t, c) == Waiting();
  }

  lemma {:induction false} WorkerSucceeds(s: State, id: nat) returns (t: State)
    requires id in s.rows && WorkerIs(s, id, Queued)
    ensures Leads(s, t) && t.consumers == s.consumers
    ensures id in t.rows && t.rows[id] == Marked(s.rows[id], Succeed(""), 0)
  {
    LeadsSelf(s);
    LeadsNext(s, s, WorkerStart(id));
    var u := Next(s, WorkerStart(id));
    assert WorkerIs(u, id, Started) && u.rows == s.rows && u.consumers == s.consumers;
    LeadsNext(s, u, WorkerEnd(id, Succeed(""), 0));
    t := Next(u, WorkerEnd(id, Succeed(""), 0));
  }

  lemma {:induction false} LeadsOn(s: State, t: State, u: State)
    requires Leads(s, t) && Leads(t, u)
    ensures Leads(s, u)
  {
    var steps :| Legal(t, steps) && Run(t, steps) == u;
    LeadsRun(s, t, steps);
  }

  lemma {:induction false} LeadsRun(s: State, t: State, steps: seq<Step>)
    requires Leads(s, t) && Legal(t, steps)
    ensures Leads(s, Run(t, steps))
    decreases |steps|
  {
    hide Next, Enabled;
    if steps != [] {
      LeadsNext(s, t, steps[0]);
      LeadsRun(s, Next(t, steps[0]), steps[1..]);
    }
  }

  lemma {:induction false} WaitingIsListed(now: int) returns (t: State)
    ensures Leads(Waiting(), t) && t.rows == Waiting().rows && t.workers == Waiting().workers
    ensures Entry(0, 0, Waiting().rows[0], now) in t.sweeps
  {
    var s := Waiting();
    assert IsListing(s.rows, Running, LIST_LIMIT, [0]);
    LeadsSelf(s);
    LeadsNext(s, s, SweepList(0, [0], now));
    t := Next(s, SweepList(0, [0], now));
    assert 0 in [0];
  }

  lemma {:induction false} SweepsOne(s: State, x: Entry) returns (t: State)
    requires x in s.sweeps && Stale(x.seen, x.now) && x.id in s.rows
    ensures Leads(s, t) && t.workers == s.workers
    ensures x.id in t.rows && t.rows[x.id] == Marked(s.rows[x.id], Expired(x.seen, x.now), 0)
  {
    hide Stale, Expired, Marked;
    LeadsSelf(s);
    LeadsNext(s, s, SweepNext(x, 0));
    t := Next(s, SweepNext(x, 0));
  }

  lemma {:induction false} WaitingIsSwept() returns (swept: State)
    ensures Leads(Waiting(), swept) && WorkerIs(swept, 0, Queued)
    ensures 0 in swept.rows && swept.rows[0].status.Failed?
  {
    hide Leads;
    var now := HEARTBEAT_TIMEOUT + 1;
    var t := WaitingIsListed(now);
    swept := SweepsOne(t, Entry(0, 0, Waiting().rows[0], now));
    LeadsOn(Waiting(), t, swept);
  }

  /** A task waiting in the pool is swept to failed; then it runs and is marked a success. */
  lemma {:induction false} SweptThenSucceeds() returns (swept: State, done: State)
    ensures Leads(Init(), swept) && 0 in swept.rows && swept.rows[0].status.Failed?
    ensures Leads(swept, done) && 0 in done.rows && done.rows[0].status.Success?
  {
    hide *;
    WaitingIsReachable();
    swept := WaitingIsSwept();
    LeadsOn(Init(), Waiting(), swept);
    done := WorkerSucceeds(swept, 0);
    MarkedSuccess(swept.rows[0]);
  }

  lemma {:induction false} MarkedSuccess(t: Task)
    ensures Marked(t, Succeed(""), 0).status.Success?
  {}

  lemma {:induction false} WatchesWhileRunning(s: State, id: nat) returns (t: State)
    requires id in s.rows && s.rows[id].status.Running? && ConsumerIs(s, id, Watching)
    ensures Leads(s, t) && t.rows == s.rows && t.workers == s.workers && ConsumerIs(t, id, Writing)
  {
    LeadsSelf(s);
    LeadsNext(s, s, Watch(id));
    t := Next(s, Watch(id));
  }

  lemma {:induction false} WritesProgress(s: State, id: nat, progress: int) returns (t: State)
    requires id in s.rows && ConsumerIs(s, id, Writing)
    ensures Leads(s, t) && id in t.rows && t.rows[id] == s.rows[id].(progress := progress)
  {
    LeadsSelf(s);
    LeadsNext(s, s, WriteProgress(id, progress));
    t := Next(s, WriteProgress(id, progress));
  }

  /** A progress report read before the success mark is written after it. */
  lemma {:induction false} SuccessBelowFullProgress() returns (done: State)
    ensures Leads(Init(), done) && 0 in done.rows
    ensures done.rows[0].status.Success? && done.rows[0].progress == 50
  {
    WaitingIsReachable();
    hide Leads, Init, Marked, Claimed;
    assert Waiting().rows[0].status.Running? by { RunningOnceClaimed(); }
    var s := WatchesWhileRunning(Waiting(), 0);
    var t := WorkerSucceeds(s, 0);
    MarkedSuccess(s.rows[0]);
    done := WritesProgress(t, 0, 50);
    LeadsOn(Init(), Waiting(), s);
    LeadsOn(Init(), s, t);
    LeadsOn(Init(), t, done);
  }

  lemma {:induction false} RunningOnceClaimed()
    ensures Claimed(FIRST, 0, 0).status.Running?
  {}
}
