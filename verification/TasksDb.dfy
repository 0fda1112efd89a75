/** backtest/tasks_db.py: the task table. Every public function is one transaction. Times are
    microseconds. */
module TasksDb {
  import opened Wrappers

  datatype Status = Pending | Running | Success | Failed | Cancelled

  datatype Error =
    | Interrupted
    | HeartbeatTimeout(seconds: int)
    | NoPrices
    | UnknownStrategy
    | Raised(code: int)

  datatype Task = Task(
    createdAt: int, status: Status, progress: int, strategy: string,
    error: Option<Error>, report: Option<string>,
    startedAt: Option<int>, finishedAt: Option<int>, heartbeat: Option<int>)

  type Table = map<nat, Task>

  /** The three terminal writes. */
  datatype Mark = Succeed(report: string) | Fail(error: Error) | Cancel

  function NewTask(strategy: string, at: int): Task {
    Task(at, Pending, 0, strategy, None, None, None, None, None)
  }

  function Claimed(t: Task, started: int, beat: int): Task {
    t.(status := Running, startedAt := Some(started), heartbeat := Some(beat))
  }

  /** A terminal write looks at nothing but the id: whatever the status was, it is replaced. */
  function Marked(t: Task, mark: Mark, at: int): Task {
    match mark
    case Succeed(report) => t.(status := Success, report := Some(report), progress := 100, finishedAt := Some(at))
    case Fail(error) => t.(status := Failed, error := Some(error), finishedAt := Some(at))
    case Cancel => t.(status := Cancelled, finishedAt := Some(at))
  }

  /** `UPDATE ... WHERE task_id=?` */
  function MarkRow(rows: Table, id: nat, mark: Mark, at: int): Table {
    if id in rows then rows[id := Marked(rows[id], mark, at)] else rows
  }

  function ProgressRow(rows: Table, id: nat, progress: int): Table {
    if id in rows then rows[id := rows[id].(progress := progress)] else rows
  }

  function HeartbeatRow(rows: Table, id: nat, at: int): Table {
    if id in rows then rows[id := rows[id].(heartbeat := Some(at))] else rows
  }

  function ResetRows(rows: Table, at: int): Table {
    map id | id in rows :: if rows[id].status.Running? then Marked(rows[id], Fail(Interrupted), at) else rows[id]
  }

  predicate IsPending(rows: Table, id: nat) {
    id in rows && rows[id].status.Pending?
  }

  /** `WHERE status='PENDING' ORDER BY created_at ASC LIMIT 1`; any of those that tie. */
  predicate OldestPending(rows: Table, id: nat) {
    IsPending(rows, id) && forall o | o in rows && IsPending(rows, o) :: rows[id].createdAt <= rows[o].createdAt
  }

  /** `WHERE status=? ORDER BY created_at DESC LIMIT ?` */
  ghost predicate IsListing(rows: Table, status: Status, limit: nat, ids: seq<nat>) {
    && |ids| <= limit
    && (forall i | 0 <= i < |ids| :: ids[i] in rows && rows[ids[i]].status == status)
    && (forall i, j | 0 <= i < j < |ids| :: ids[i] != ids[j] && rows[ids[j]].createdAt <= rows[ids[i]].createdAt)
    && (forall id | id in rows && rows[id].status == status && id !in ids ::
          |ids| == limit && forall i | 0 <= i < |ids| :: rows[id].createdAt <= rows[ids[i]].createdAt)
  }

  lemma {:induction false} NewestExists(rows: Table, ids: set<nat>) returns (m: nat)
    requires ids != {} && ids <= rows.Keys
    ensures m in ids && forall o | o in ids :: rows[o].createdAt <= rows[m].createdAt
  {
    m :| m in ids;
    var rest := ids - {m};
    assert forall o | o in ids :: o == m || o in rest;
    if rest != {} {
      var best := NewestExists(rows, rest);
      if rows[m].createdAt < rows[best].createdAt { m := best; }
    }
  }

  lemma {:induction false} OldestExists(rows: Table, ids: set<nat>) returns (m: nat)
    requires ids != {} && ids <= rows.Keys
    ensures m in ids && forall o | o in ids :: rows[m].createdAt <= rows[o].createdAt
  {
    m :| m in ids;
    var rest := ids - {m};
    assert forall o | o in ids :: o == m || o in rest;
    if rest != {} {
      var best := OldestExists(rows, rest);
      if rows[best].createdAt < rows[m].createdAt { m := best; }
    }
  }

  class Tasks {
    var rows: Table

    constructor ()
      ensures rows == map[]
    {
      rows := map[];
    }

    method CreateTask(id: nat, strategy: string, at: int)
      requires id !in rows
      modifies this
      ensures rows == old(rows)[id := NewTask(strategy, at)]
    {
      rows := rows[id := NewTask(strategy, at)];
    }

    method GetTask(id: nat) returns (t: Option<Task>)
      ensures t == if id in rows then Some(rows[id]) else None
    {
      t := if id in rows then Some(rows[id]) else None;
    }

    method ListTasks(status: Status, limit: nat) returns (ids: seq<nat>)
      ensures IsListing(rows, status, limit, ids)
    {
      ids := [];
      var rest := set id | id in rows && rows[id].status == status;
      while |ids| < limit && rest != {}
        invariant |ids| <= limit
        invariant forall i | 0 <= i < |ids| :: ids[i] in rows && rows[ids[i]].status == status && ids[i] !in rest
        invariant forall i, j | 0 <= i < j < |ids| ::
                    ids[i] != ids[j] && rows[ids[j]].createdAt <= rows[ids[i]].createdAt
        invariant forall id | id in rest ::
                    id in rows && forall i | 0 <= i < |ids| :: rows[id].createdAt <= rows[ids[i]].createdAt
        invariant forall id | id in rows && rows[id].status == status :: id in ids || id in rest
        decreases rest
      {
        ghost var newest := NewestExists(rows, rest);
        var next :| next in rest && forall o | o in rest :: rows[o].createdAt <= rows[next].createdAt;
        ids, rest := ids + [next], rest - {next};
      }
    }

    /** The oldest pending row is running when this returns; `None` when there was none. */
    method ClaimNextPending(started: int, beat: int) returns (claimed: Option<nat>)
      modifies this
      ensures claimed.None? <==> forall id | id in old(rows) :: !IsPending(old(rows), id)
      ensures claimed.None? ==> rows == old(rows)
      ensures claimed.Some? ==>
                && OldestPending(old(rows), claimed.value)
                && rows == old(rows)[claimed.value := Claimed(old(rows)[claimed.value], started, beat)]
                && rows[claimed.value] == old(rows)[claimed.value].(
                     status := Running, startedAt := Some(started), heartbeat := Some(beat))
    {
      var pending := set id | id in rows && IsPending(rows, id);
      if pending == {} {
        assert forall id | id in rows :: id !in pending;
        return None;
      }
      ghost var oldest := OldestExists(rows, pending);
      var id :| id in pending && forall o | o in pending :: rows[id].createdAt <= rows[o].createdAt;
      rows := rows[id := Claimed(rows[id], started, beat)];
      claimed := Some(id);
    }

    method UpdateProgress(id: nat, progress: int)
      modifies this
      ensures rows == ProgressRow(old(rows), id, progress)
    {
      if id in rows { rows := rows[id := rows[id].(progress := progress)]; }
    }

    method UpdateHeartbeat(id: nat, at: int)
      modifies this
      ensures rows == HeartbeatRow(old(rows), id, at)
    {
      if id in rows { rows := rows[id := rows[id].(heartbeat := Some(at))]; }
    }

    /** `mark_success`, `mark_failed` and `mark_cancelled`. */
    method MarkTask(id: nat, mark: Mark, at: int)
      modifies this
      ensures rows == MarkRow(old(rows), id, mark, at)
      ensures rows.Keys == old(rows).Keys && forall i | i in rows && i != id :: rows[i] == old(rows)[i]
      ensures id in rows ==>
                rows[id] == match mark
                            case Succeed(report) => old(rows)[id].(status := Success, report := Some(report),
                                                                   progress := 100, finishedAt := Some(at))
                            case Fail(error) =>
                              old(rows)[id].(status := Failed, error := Some(error), finishedAt := Some(at))
                            case Cancel => old(rows)[id].(status := Cancelled, finishedAt := Some(at))
    {
      if id in rows { rows := rows[id := Marked(rows[id], mark, at)]; }
    }

    method DeleteTask(id: nat) returns (deleted: bool)
      modifies this
      ensures deleted == (id in old(rows)) && rows == old(rows) - {id}
    {
      deleted := id in rows;
      rows := rows - {id};
    }

    /** Nothing is running afterwards; only the running rows changed, each to failed with a note that
        it was interrupted. */
    method ResetRunningToFailed(at: int) returns (count: nat)
      modifies this
      ensures rows == ResetRows(old(rows), at)
      ensures count == |set id | id in old(rows) && old(rows)[id].status.Running?|
      ensures forall id | id in rows :: !rows[id].status.Running?
      ensures rows.Keys == old(rows).Keys
      ensures forall id | id in old(rows) && !old(rows)[id].status.Running? :: rows[id] == old(rows)[id]
      ensures forall id | id in old(rows) && old(rows)[id].status.Running? ::
                rows[id] == old(rows)[id].(status := Failed, error := Some(Interrupted), finishedAt := Some(at))
    {
      count := |set id | id in rows && rows[id].status.Running?|;
      rows := ResetRows(rows, at);
    }
  }
}
