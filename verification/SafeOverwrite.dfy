/** data/integrity.py: the row-count guard and the atomic overwrite of a lake file, with
    exceptions, crashes and power loss. */
module SafeOverwrite {
  import Arithmetic

  /** A file on disk: missing, one complete table, or something that cannot be read. */
  datatype File = Absent | Complete(version: int, rows: nat) | Corrupt

  const WRITE_GUARD_MIN_RATIO: real := 0.9

  /** `check_row_count_drop`: may `newRows` rows replace `baseline` rows? */
  predicate RowCountOk(baseline: int, newRows: int, minRatio: real) {
    baseline <= 0 || newRows as real >= baseline as real * minRatio
  }

  /** `assert_safe_overwrite`: does the guard let the write through? */
  predicate GuardAllows(target: File, newRows: nat, minRatio: real, force: bool) {
    || force
    || match target
       case Absent => true
       case Corrupt => false
       case Complete(_, rows) => newRows > 0 && RowCountOk(rows, newRows, minRatio)
  }

  /** Where an attempt stops.  Exceptions are caught, cleaned up and raised again; at a crash
      nothing further runs. */
  datatype Fault =
    | NoFault
    | WriteRaises(partial: bool)
    | CrashWhileWriting(partial: bool)
    | CrashBeforeReplace
    | ReplaceRaises
    | CrashAfterReplace

  /** One attempt: the table, where it stops, and whether the flush and the clean-up work. */
  datatype Attempt = Attempt(version: int, rows: nat, fault: Fault, flushWorks: bool, cleanUpWorks: bool)

  datatype Outcome = Written | Refused | Raised | Crashed

  /** Both files, and whether the target's data has reached the disk. */
  datatype Disk = Disk(target: File, tmp: File, flushed: bool)

  function Partial(begun: bool, left: File): File { if begun then Corrupt else left }

  /** What an attempt leaves on disk. */
  function AfterAttempt(d: Disk, a: Attempt, minRatio: real, force: bool): Disk {
    if !GuardAllows(d.target, a.rows, minRatio, force) then d
    else
      var complete := Complete(a.version, a.rows);
      match a.fault
      case NoFault => Disk(complete, Absent, a.flushWorks)
      case CrashAfterReplace => Disk(complete, Absent, a.flushWorks)
      case WriteRaises(partial) => d.(tmp := if a.cleanUpWorks then Absent else Partial(partial, d.tmp))
      case CrashWhileWriting(partial) => d.(tmp := Partial(partial, d.tmp))
      case CrashBeforeReplace => d.(tmp := complete)
      case ReplaceRaises => d.(tmp := if a.cleanUpWorks then Absent else complete)
  }

  class Lake {
    var target: File
    var tmp: File
    var flushed: bool

    function OnDisk(): Disk
      reads this
    {
      Disk(target, tmp, flushed)
    }

    constructor (target: File)
      ensures OnDisk() == Disk(target, Absent, true)
    {
      this.target, tmp, flushed := target, Absent, true;
    }

    /** The except branch: remove the temporary file if that works. */
    method CleanUp(works: bool)
      modifies this`tmp
      ensures tmp == if works then Absent else old(tmp)
    {
      if tmp != Absent && works {
        tmp := Absent;
      }
    }

    method AtomicWrite(a: Attempt) returns (outcome: Outcome)
      modifies this
      ensures OnDisk() == AfterAttempt(old(OnDisk()), a, 0.0, true)
      ensures outcome == match a.fault
                         case NoFault => Written
                         case WriteRaises(_) => Raised
                         case ReplaceRaises => Raised
                         case _ => Crashed
    {
      if a.fault.WriteRaises? || a.fault.CrashWhileWriting? {
        tmp := Partial(a.fault.partial, tmp);
        if a.fault.CrashWhileWriting? {
          return Crashed;
        }
        CleanUp(a.cleanUpWorks);
        return Raised;
      }
      tmp := Complete(a.version, a.rows);
      var tmpFlushed := a.flushWorks;
      if a.fault.CrashBeforeReplace? {
        return Crashed;
      }
      if a.fault.ReplaceRaises? {
        CleanUp(a.cleanUpWorks);
        return Raised;
      }
      target, tmp, flushed := tmp, Absent, tmpFlushed;
      outcome := if a.fault.CrashAfterReplace? then Crashed else Written;
    }

    method Overwrite(a: Attempt, minRatio: real, force: bool) returns (outcome: Outcome)
      modifies this
      ensures OnDisk() == AfterAttempt(old(OnDisk()), a, minRatio, force)
      // Refused: an unreadable target, an empty table for an existing one, or too few rows.
      ensures outcome == Refused <==>
                !force && old(target) != Absent &&
                (old(target) == Corrupt || a.rows == 0 ||
                 (old(target).rows > 0 && a.rows as real < minRatio * old(target).rows as real))
      ensures outcome == Written <==> outcome != Refused && a.fault.NoFault?
      ensures outcome == Raised <==> outcome != Refused && (a.fault.WriteRaises? || a.fault.ReplaceRaises?)
      // The new table is in place, whole, when the replacement was reached, and the old one otherwise.
      ensures target == if outcome != Refused && (a.fault.NoFault? || a.fault.CrashAfterReplace?)
                        then Complete(a.version, a.rows) else old(target)
      ensures outcome == Refused ==> OnDisk() == old(OnDisk())
      ensures outcome == Written || (outcome == Raised && a.cleanUpWorks) ==> tmp == Absent
    {
      if !GuardAllows(target, a.rows, minRatio, force) {
        return Refused;
      }
      outcome := AtomicWrite(a);
    }
  }

  // ---- whole histories ---------------------------------------------------------------------

  /** A history of unforced attempts at the default ratio and of power losses, which cost a
      target that was never flushed. */
  datatype Happening = Tried(attempt: Attempt) | PowerLoss

  function AfterHappening(d: Disk, h: Happening): Disk {
    match h
    case Tried(a) => AfterAttempt(d, a, WRITE_GUARD_MIN_RATIO, false)
    case PowerLoss => if d.flushed then d else Disk(Corrupt, d.tmp, true)
  }

  function AfterHistory(d: Disk, hs: seq<Happening>): Disk {
    if hs == [] then d else AfterHappening(AfterHistory(d, hs[..|hs| - 1]), hs[|hs| - 1])
  }

  function AttemptsIn(hs: seq<Happening>): nat {
    if hs == [] then 0 else AttemptsIn(hs[..|hs| - 1]) + if hs[|hs| - 1].Tried? then 1 else 0
  }

  /** No power loss strikes while the target is unflushed. */
  ghost predicate PowerLossesAreSafe(d: Disk, hs: seq<Happening>) {
    forall n | 0 <= n < |hs| && hs[n] == PowerLoss :: AfterHistory(d, hs[..n]).flushed
  }

  /** 0.9 to the power `k`. */
  function Remaining(k: nat): (r: real)
    ensures 0.0 < r <= 1.0
  {
    if k == 0 then 1.0 else Remaining(k - 1) * WRITE_GUARD_MIN_RATIO
  }

  /** The tables that a history ever tried to write. */
  ghost predicate TriedToWrite(hs: seq<Happening>, f: File) {
    exists n :: 0 <= n < |hs| && hs[n].Tried? && f == Complete(hs[n].attempt.version, hs[n].attempt.rows)
  }

  lemma {:induction false} PowerLossesPrefix(d: Disk, hs: seq<Happening>)
    requires hs != [] && PowerLossesAreSafe(d, hs)
    ensures PowerLossesAreSafe(d, hs[..|hs| - 1])
    ensures hs[|hs| - 1] == PowerLoss ==> AfterHistory(d, hs[..|hs| - 1]).flushed
  {
    var front := hs[..|hs| - 1];
    forall n | 0 <= n < |front| && front[n] == PowerLoss ensures AfterHistory(d, front[..n]).flushed {
      assert hs[..n] == front[..n] && hs[n] == front[n];
    }
  }

  /** Atomicity: whatever crashes and exceptions happen in between, the target is always the
      table it started with or one complete table that some attempt wrote. */
  lemma {:induction false} TargetIsAlwaysOneCompleteVersion(d: Disk, hs: seq<Happening>)
    requires PowerLossesAreSafe(d, hs)
    ensures var t := AfterHistory(d, hs).target; t == d.target || TriedToWrite(hs, t)
  {
    if hs != [] {
      var front, last := hs[..|hs| - 1], hs[|hs| - 1];
      PowerLossesPrefix(d, hs);
      TargetIsAlwaysOneCompleteVersion(d, front);
      var t := AfterHistory(d, front).target;
      if TriedToWrite(front, t) {
        var n :| 0 <= n < |front| && front[n].Tried? && t == Complete(front[n].attempt.version, front[n].attempt.rows);
        assert hs[n] == front[n];
      }
    }
  }

  /** A table that does not shrink is always let through, unless it is empty. */
  lemma {:induction false} GrowingIsAllowed(target: File, newRows: nat, minRatio: real)
    requires target.Complete? && target.rows <= newRows && newRows > 0 && minRatio <= 1.0
    ensures GuardAllows(target, newRows, minRatio, false)
  {
    var rows := target.rows as real;
    Arithmetic.ProductNonNegative(rows, 1.0 - minRatio);
    Arithmetic.Distribute(1.0, -minRatio, rows);
    assert rows * minRatio <= rows;
  }

  /** At the default ratio: a first table always, else a non-empty one of at least nine tenths of the
      rows, and nothing over an unreadable file. */
  lemma {:induction false} DefaultGuard(target: File, newRows: nat)
    ensures GuardAllows(target, newRows, WRITE_GUARD_MIN_RATIO, false) <==>
            target == Absent || (target.Complete? && newRows > 0 && 9 * target.rows <= 10 * newRows)
  {
    if target.Complete? {
      var least := target.rows as real * WRITE_GUARD_MIN_RATIO;
      assert least == (9 * target.rows) as real / 10.0;
      assert newRows as real >= least <==> (10 * newRows) as real >= (9 * target.rows) as real;
    }
  }

  /** A readable, non-empty table with at least 0.9^k of the original `n` rows. */
  ghost predicate Holds(f: File, n: nat, k: nat) {
    f.Complete? && f.rows > 0 && f.rows as real >= Remaining(k) * n as real
  }

  lemma {:induction false} RemainingShrinks(k: nat, n: nat)
    ensures Remaining(k + 1) * n as real == Remaining(k) * n as real * WRITE_GUARD_MIN_RATIO
    ensures Remaining(k + 1) * n as real <= Remaining(k) * n as real
  {
    assert Remaining(k) * n as real >= 0.0;
  }

  lemma {:induction false} AttemptKeepsRows(d: Disk, a: Attempt, n: nat, k: nat)
    requires Holds(d.target, n, k)
    ensures Holds(AfterHappening(d, Tried(a)).target, n, k + 1)
  {
    RemainingShrinks(k, n);
    if GuardAllows(d.target, a.rows, WRITE_GUARD_MIN_RATIO, false) {
      assert a.rows as real >= d.target.rows as real * WRITE_GUARD_MIN_RATIO;
    }
  }

  lemma {:induction false} HistoryStep(d: Disk, hs: seq<Happening>)
    requires hs != []
    ensures AfterHistory(d, hs) == AfterHappening(AfterHistory(d, hs[..|hs| - 1]), hs[|hs| - 1])
    ensures AttemptsIn(hs) == AttemptsIn(hs[..|hs| - 1]) + if hs[|hs| - 1].Tried? then 1 else 0
  {}

  lemma {:induction false} SafePowerLoss(d: Disk)
    requires d.flushed
    ensures AfterHappening(d, PowerLoss) == d
  {}

  /** Loss bound: after any history with `k` attempts a lake that started with n > 0 rows
      still holds at least 0.9^k * n of them, and is never empty. */
  lemma {:induction false} RowsNeverCollapse(d: Disk, hs: seq<Happening>)
    requires PowerLossesAreSafe(d, hs) && d.target.Complete? && d.target.rows > 0
    ensures Holds(AfterHistory(d, hs).target, d.target.rows, AttemptsIn(hs))
  {
    if hs == [] {
      assert Remaining(0) == 1.0;
    } else {
      hide AfterHistory, AttemptsIn, AfterHappening, Holds, PowerLossesAreSafe;
      var front, last := hs[..|hs| - 1], hs[|hs| - 1];
      PowerLossesPrefix(d, hs);
      RowsNeverCollapse(d, front);
      HistoryStep(d, hs);
      match last {
        case Tried(a) => AttemptKeepsRows(AfterHistory(d, front), a, d.target.rows, AttemptsIn(front));
        case PowerLoss => SafePowerLoss(AfterHistory(d, front));
      }
    }
  }

  // ---- power loss --------------------------------------------------------------------------

  /** Attempt n of the history put a new table in place. */
  ghost predicate Replaces(d: Disk, hs: seq<Happening>, n: nat)
    requires n < |hs|
  {
    && hs[n].Tried?
    && GuardAllows(AfterHistory(d, hs[..n]).target, hs[n].attempt.rows, WRITE_GUARD_MIN_RATIO, false)
    && (hs[n].attempt.fault.NoFault? || hs[n].attempt.fault.CrashAfterReplace?)
  }

  lemma {:induction false} ReplacesInPrefix(d: Disk, hs: seq<Happening>, n: nat, k: nat)
    requires n < k <= |hs|
    ensures Replaces(d, hs[..k], n) <==> Replaces(d, hs, n)
  {
    assert hs[..k][..n] == hs[..n];
  }

  /** Attempt n was the last to put a new table in place. */
  ghost predicate IsLastReplacement(d: Disk, hs: seq<Happening>, n: nat) {
    n < |hs| && Replaces(d, hs, n) && forall i | n < i < |hs| :: !Replaces(d, hs, i)
  }

  lemma {:induction false} LastInPrefix(d: Disk, hs: seq<Happening>, k: nat, n: nat)
    requires k < |hs| && k + 1 == |hs| && !Replaces(d, hs, k)
    ensures IsLastReplacement(d, hs, n) <==> IsLastReplacement(d, hs[..k], n)
  {
    hide Replaces;
    var front := hs[..k];
    forall i | 0 <= i < k ensures Replaces(d, front, i) <==> Replaces(d, hs, i) { ReplacesInPrefix(d, hs, i, k); }
    if IsLastReplacement(d, front, n) {
      forall i | n < i < |hs| ensures !Replaces(d, hs, i) {
        assert i < k ==> !Replaces(d, front, i);
      }
    }
    if IsLastReplacement(d, hs, n) {
      assert n != k;
      forall i | n < i < |front| ensures !Replaces(d, front, i) {
        assert !Replaces(d, hs, i);
      }
    }
  }

  lemma {:induction false} LastTarget(d: Disk, hs: seq<Happening>)
    requires hs != [] && PowerLossesAreSafe(d, hs)
    ensures var k := |hs| - 1;
            AfterHistory(d, hs).target ==
              if Replaces(d, hs, k) then Complete(hs[k].attempt.version, hs[k].attempt.rows)
              else AfterHistory(d, hs[..k]).target
  {
    PowerLossesPrefix(d, hs);
  }

  /** The target holds the table of the last replacement, or the one it started with. */
  ghost predicate HoldsTheLast(d: Disk, hs: seq<Happening>, target: File) {
    && ((forall n: nat :: !IsLastReplacement(d, hs, n)) ==> target == d.target)
    && forall n: nat | IsLastReplacement(d, hs, n) ::
         hs[n].Tried? && target == Complete(hs[n].attempt.version, hs[n].attempt.rows)
  }

  lemma {:induction false} NotReplaced(d: Disk, hs: seq<Happening>, k: nat, target: File)
    requires k < |hs| && k + 1 == |hs| && !Replaces(d, hs, k) && HoldsTheLast(d, hs[..k], target)
    ensures HoldsTheLast(d, hs, target)
  {
    forall n: nat ensures IsLastReplacement(d, hs, n) <==> IsLastReplacement(d, hs[..k], n) {
      LastInPrefix(d, hs, k, n);
    }
    forall n: nat | IsLastReplacement(d, hs[..k], n) ensures n < k && hs[n] == hs[..k][n] {}
    hide IsLastReplacement;
  }

  lemma {:induction false} JustReplaced(d: Disk, hs: seq<Happening>)
    requires hs != [] && Replaces(d, hs, |hs| - 1)
    ensures HoldsTheLast(d, hs, Complete(hs[|hs| - 1].attempt.version, hs[|hs| - 1].attempt.rows))
  {
    assert hs[|hs| - 1].Tried?;
    hide Replaces;
    assert IsLastReplacement(d, hs, |hs| - 1);
  }

  /** Unless power is lost at a bad moment, the target holds the table of the last attempt that put a
      new one in place, and the table it started with if none did. */
  lemma {:induction false} TargetIsTheLastReplacement(d: Disk, hs: seq<Happening>)
    requires PowerLossesAreSafe(d, hs)
    ensures HoldsTheLast(d, hs, AfterHistory(d, hs).target)
  {
    if hs == [] {
      assert AfterHistory(d, hs) == d;
    } else {
      hide AfterHistory, PowerLossesAreSafe, HoldsTheLast;
      PowerLossesPrefix(d, hs);
      TargetIsTheLastReplacement(d, hs[..|hs| - 1]);
      LastTarget(d, hs);
      if Replaces(d, hs, |hs| - 1) {
        JustReplaced(d, hs);
      } else {
        NotReplaced(d, hs, |hs| - 1, AfterHistory(d, hs[..|hs| - 1]).target);
      }
    }
  }

  predicate FailsToFlush(h: Happening) { h.Tried? && !h.attempt.flushWorks }

  /** The table of attempt n was never flushed and is still in place before happening k. */
  ghost predicate UnflushedSince(d: Disk, hs: seq<Happening>, n: nat, k: nat)
    requires k <= |hs|
  {
    && n < k && Replaces(d, hs, n) && FailsToFlush(hs[n])
    && forall i | n < i < k :: !Replaces(d, hs, i) && hs[i] != PowerLoss
  }

  lemma {:induction false} UnflushedInPrefix(d: Disk, hs: seq<Happening>, n: nat, k: nat, m: nat)
    requires k <= m <= |hs|
    ensures UnflushedSince(d, hs[..m], n, k) <==> UnflushedSince(d, hs, n, k)
  {
    forall i | 0 <= i < k ensures Replaces(d, hs[..m], i) <==> Replaces(d, hs, i) { ReplacesInPrefix(d, hs, i, m); }
  }

  /** After any history the target is unflushed exactly when the last attempt that replaced it could
      not flush and no power loss came since. */
  lemma {:induction false} UnflushedExactlyWhen(d: Disk, hs: seq<Happening>)
    requires d.flushed
    ensures !AfterHistory(d, hs).flushed <==> exists n :: UnflushedSince(d, hs, n, |hs|)
  {
    hide AfterHistory, Replaces, UnflushedSince, FailsToFlush;
    if hs == [] {
      NothingHappened(d);
    } else {
      var k := |hs| - 1;
      UnflushedExactlyWhen(d, hs[..k]);
      LastHappening(d, hs);
      LastUnflushed(d, hs);
      forall n: nat ensures UnflushedSince(d, hs[..k], n, k) <==> UnflushedSince(d, hs, n, k) {
        UnflushedInPrefix(d, hs, n, k, k);
      }
      NotYet(d, hs, k);
      assert |hs[..k]| == k;
      if Replaces(d, hs, k) {
        assert FailsToFlush(hs[k]) <==> UnflushedSince(d, hs, k, |hs|);
      } else if n :| UnflushedSince(d, hs[..k], n, k) {
        assert hs[k] != PowerLoss ==> UnflushedSince(d, hs, n, |hs|);
      }
    }
  }

  lemma {:induction false} NothingHappened(d: Disk)
    ensures AfterHistory(d, []) == d && forall n :: !UnflushedSince(d, [], n, 0)
  {}

  lemma {:induction false} NotYet(d: Disk, hs: seq<Happening>, k: nat)
    requires k <= |hs|
    ensures !UnflushedSince(d, hs, k, k)
  {}

  lemma {:induction false} LastUnflushed(d: Disk, hs: seq<Happening>)
    requires hs != []
    ensures var k := |hs| - 1;
            forall n: nat :: UnflushedSince(d, hs, n, |hs|) <==>
              if n == k then Replaces(d, hs, k) && FailsToFlush(hs[k])
              else UnflushedSince(d, hs, n, k) && !Replaces(d, hs, k) && hs[k] != PowerLoss
  {
    hide Replaces, FailsToFlush;
  }

  /** What the last happening does to the flush. */
  lemma {:induction false} LastHappening(d: Disk, hs: seq<Happening>)
    requires hs != []
    ensures var k := |hs| - 1;
            AfterHistory(d, hs).flushed ==
              if Replaces(d, hs, k) then !FailsToFlush(hs[k])
              else hs[k] == PowerLoss || AfterHistory(d, hs[..k]).flushed
  {}

  /** A readable target is lost in a history exactly when some power loss strikes while it is
      unflushed. */
  lemma {:induction false} LostExactlyWhen(d: Disk, hs: seq<Happening>)
    requires d.target != Corrupt
    ensures AfterHistory(d, hs).target == Corrupt <==> !PowerLossesAreSafe(d, hs)
  {
    if hs != [] {
      var k := |hs| - 1;
      var front := hs[..k];
      LostExactlyWhen(d, front);
      forall n | 0 <= n < k ensures hs[n] == front[n] && hs[..n] == front[..n] {}
      assert PowerLossesAreSafe(d, hs) <==>
             PowerLossesAreSafe(d, front) && (hs[k] == PowerLoss ==> AfterHistory(d, hs[..k]).flushed);
    }
  }

  /** In terms of the happenings alone: an allowed attempt replaced the table without flushing it,
      and the next thing that replaced or cut the power was a power loss. */
  lemma {:induction false} CorruptionExactlyWhen(d: Disk, hs: seq<Happening>)
    requires d.target != Corrupt && d.flushed
    ensures AfterHistory(d, hs).target == Corrupt <==>
            exists n, k :: 0 <= n < k < |hs| && hs[k] == PowerLoss && UnflushedSince(d, hs, n, k)
  {
    LostExactlyWhen(d, hs);
    hide AfterHistory, Replaces, UnflushedSince;
    forall k | 0 <= k < |hs| ensures !AfterHistory(d, hs[..k]).flushed <==> exists n :: UnflushedSince(d, hs, n, k) {
      UnflushedBefore(d, hs, k);
    }
    if !PowerLossesAreSafe(d, hs) {
      var k :| 0 <= k < |hs| && hs[k] == PowerLoss && !AfterHistory(d, hs[..k]).flushed;
      var n :| UnflushedSince(d, hs, n, k);
      UnflushedEarlier(d, hs, n, k);
    }
    if n, k :| 0 <= n < k < |hs| && hs[k] == PowerLoss && UnflushedSince(d, hs, n, k) {
      assert !AfterHistory(d, hs[..k]).flushed;
    }
  }

  lemma {:induction false} UnflushedEarlier(d: Disk, hs: seq<Happening>, n: nat, k: nat)
    requires k <= |hs| && UnflushedSince(d, hs, n, k)
    ensures n < k
  {}

  lemma {:induction false} UnflushedBefore(d: Disk, hs: seq<Happening>, k: nat)
    requires d.flushed && k <= |hs|
    ensures !AfterHistory(d, hs[..k]).flushed <==> exists n :: UnflushedSince(d, hs, n, k)
  {
    hide AfterHistory, UnflushedSince;
    UnflushedExactlyWhen(d, hs[..k]);
    assert |hs[..k]| == k;
    forall n: nat ensures UnflushedSince(d, hs[..k], n, k) <==> UnflushedSince(d, hs, n, k) {
      UnflushedInPrefix(d, hs, n, k, k);
    }
  }

  /** A fresh lake, one write whose flush fails, then a power loss. */
  lemma {:induction false} FailedFlushThenPowerLoss()
    ensures var written := Tried(Attempt(1, 10, NoFault, false, true));
            && AfterHistory(Disk(Absent, Absent, true), [written]).target == Complete(1, 10)
            && AfterHistory(Disk(Absent, Absent, true), [written, PowerLoss]).target == Corrupt
  {
    var written := Tried(Attempt(1, 10, NoFault, false, true));
    assert [written][..0] == [] && [written, PowerLoss][..1] == [written];
  }

  /** Once the target is unreadable, no unforced history ever writes it again. */
  lemma {:induction false} CorruptStaysUntilForced(d: Disk, hs: seq<Happening>)
    requires d.target == Corrupt
    ensures AfterHistory(d, hs).target == Corrupt
  {
    if hs != [] { CorruptStaysUntilForced(d, hs[..|hs| - 1]); }
  }
}
