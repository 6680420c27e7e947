/** The rows of `export_jobs` and the effect of each SQL statement on them
    (`src/databridge/export/db.py`, `src/databridge/export/sweep.py`). */
module JobRows {
  import opened Wrappers

  /** A UUID in its text form. */
  type JobId = string

  datatype Status = Pending | Running | Completed | Failed | Cancelled

  /** The columns that the statements below read or write; times are in seconds. */
  datatype Row = Row(
    org: string,
    user: string,
    status: Status,
    createdAt: int,
    startedAt: Option<int>,
    lastHeartbeatAt: Option<int>,
    completedAt: Option<int>,
    processed: nat,
    skipped: nat,
    assetErrors: nat,
    error: Option<string>
  ) {
    predicate Active() {
      status == Pending || status == Running
    }
  }

  type Rows = map<JobId, Row>

  const NO_HEARTBEAT: string := "job timed out (no heartbeat)"
  const NEVER_STARTED: string := "job timed out (never started)"

  /** `_STALE_JOB_TIMEOUT_MINUTES`, in seconds. */
  const COUNT_TIMEOUT: int := 30 * 60

  function NewRow(org: string, user: string, now: int): Row {
    Row(org, user, Pending, now, None, None, None, 0, 0, 0, None)
  }

  /** `UPDATE ... WHERE id = ...`: nothing happens when the row is gone. */
  function UpdateRow(rows: Rows, id: JobId, f: Row -> Row): Rows {
    if id in rows then rows[id := f(rows[id])] else rows
  }

  // ----- Statements of the worker

  function SetRunning(rows: Rows, id: JobId, now: int): Rows {
    UpdateRow(rows, id, (r: Row) => r.(status := Running, startedAt := Some(now), lastHeartbeatAt := Some(now)))
  }

  /** The completed and the failed write, whatever the status was. */
  function SetEnded(rows: Rows, id: JobId, status: Status, now: int, error: Option<string>): Rows {
    UpdateRow(rows, id, (r: Row) => r.(status := status, completedAt := Some(now), error := error))
  }

  /** A write of any other status. */
  function SetStatus(rows: Rows, id: JobId, status: Status): Rows {
    UpdateRow(rows, id, (r: Row) => r.(status := status))
  }

  function SetProgress(rows: Rows, id: JobId, processed: nat, skipped: nat, assetErrors: nat, now: int): Rows {
    UpdateRow(rows, id, (r: Row) =>
      r.(processed := processed, skipped := skipped, assetErrors := assetErrors, lastHeartbeatAt := Some(now)))
  }

  // ----- Statements of the requests

  /** The guarded update behind a cancel request. */
  function SetCancelled(rows: Rows, id: JobId): Rows {
    if id in rows && rows[id].Active() then rows[id := rows[id].(status := Cancelled)] else rows
  }

  predicate SilentRunning(r: Row, org: string, cutoff: int) {
    r.org == org && r.status == Running && (r.lastHeartbeatAt.None? || r.lastHeartbeatAt.value < cutoff)
  }

  predicate StalePending(r: Row, org: string, cutoff: int) {
    r.org == org && r.status == Pending && r.createdAt < cutoff
  }

  /** A row after the first, and after the second expiring update of `count_active_jobs_for_org`. */
  function RunningExpired(r: Row, org: string, cutoff: int): Row {
    if SilentRunning(r, org, cutoff) then r.(status := Failed, error := Some(NO_HEARTBEAT)) else r
  }

  function PendingExpired(r: Row, org: string, cutoff: int): Row {
    if StalePending(r, org, cutoff) then r.(status := Failed, error := Some(NEVER_STARTED)) else r
  }

  function ExpireRunning(rows: Rows, org: string, cutoff: int): Rows {
    map id | id in rows :: RunningExpired(rows[id], org, cutoff)
  }

  function ExpirePending(rows: Rows, org: string, cutoff: int): Rows {
    map id | id in rows :: PendingExpired(rows[id], org, cutoff)
  }

  function ActiveOf(rows: Rows, org: string): set<JobId> {
    set id | id in rows && rows[id].org == org && rows[id].Active()
  }

  // ----- Statements of the sweep loop

  /** `message` is the text of the timeout error. */
  function MarkStale(rows: Rows, now: int, timeout: int, message: string): Rows {
    map id | id in rows ::
      var r := rows[id];
      if r.status == Running && r.lastHeartbeatAt.Some? && r.lastHeartbeatAt.value < now - timeout
      then r.(status := Failed, error := Some(message), completedAt := Some(now)) else r
  }

  predicate Purgeable(r: Row, now: int, ttl: int) {
    (r.status == Completed || r.status == Failed) && r.completedAt.Some? && r.completedAt.value < now - ttl
  }

  function Purge(rows: Rows, now: int, ttl: int): Rows {
    map id | id in rows && !Purgeable(rows[id], now, ttl) :: rows[id]
  }
}
