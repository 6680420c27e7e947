/** The in-memory job table (`src/databridge/db/demo_pool.py`) under the functions of
    `src/databridge/export/db.py` that run on it. */
module JobStore {
  import opened Wrappers
  import opened JobRows

  datatype Role = SuperAdmin | OrgAdmin | User

  class DemoPool {
    var jobs: Rows

    constructor ()
      ensures jobs == map[]
    {
      jobs := map[];
    }

    /** `id` is the value of `uuid4()`. */
    method Insert(id: JobId, org: string, user: string, now: int)
      requires id !in jobs
      modifies this
      ensures jobs == old(jobs)[id := NewRow(org, user, now)]
      ensures jobs[id] == Row(org, user, Pending, now, None, None, None, 0, 0, 0, None)
    {
      jobs := jobs[id := NewRow(org, user, now)];
    }

    /** The two sweep branches of `_job_update`, each over a snapshot of the table. */
    method SweepRunning(org: string, cutoff: int) returns (count: nat)
      modifies this
      ensures jobs == ExpireRunning(old(jobs), org, cutoff)
      ensures count == |set id | id in old(jobs) && SilentRunning(old(jobs)[id], org, cutoff)|
    {
      var todo := jobs.Keys;
      ghost var was := jobs;
      ghost var failed: set<JobId> := {};
      count := 0;
      while todo != {}
        invariant jobs.Keys == was.Keys && todo <= was.Keys
        invariant forall id | id in was ::
          jobs[id] == if id in todo then was[id] else RunningExpired(was[id], org, cutoff)
        invariant forall id :: id in failed <==> id in was && id !in todo && SilentRunning(was[id], org, cutoff)
        invariant count == |failed|
        decreases |todo|
      {
        var id :| id in todo;
        todo := todo - {id};
        var rec := jobs[id];
        if rec.org == org && rec.status == Running && (rec.lastHeartbeatAt.None? || rec.lastHeartbeatAt.value < cutoff) {
          jobs := jobs[id := rec.(status := Failed, error := Some(NO_HEARTBEAT))];
          count := count + 1;
          failed := failed + {id};
        }
      }
      assert jobs == ExpireRunning(was, org, cutoff);
      assert failed == set id | id in was && SilentRunning(was[id], org, cutoff);
    }

    method SweepPending(org: string, cutoff: int) returns (count: nat)
      modifies this
      ensures jobs == ExpirePending(old(jobs), org, cutoff)
      ensures count == |set id | id in old(jobs) && StalePending(old(jobs)[id], org, cutoff)|
    {
      var todo := jobs.Keys;
      ghost var was := jobs;
      ghost var failed: set<JobId> := {};
      count := 0;
      while todo != {}
        invariant jobs.Keys == was.Keys && todo <= was.Keys
        invariant forall id | id in was ::
          jobs[id] == if id in todo then was[id] else PendingExpired(was[id], org, cutoff)
        invariant forall id :: id in failed <==> id in was && id !in todo && StalePending(was[id], org, cutoff)
        invariant count == |failed|
        decreases |todo|
      {
        var id :| id in todo;
        todo := todo - {id};
        var rec := jobs[id];
        if rec.org == org && rec.status == Pending && rec.createdAt < cutoff {
          jobs := jobs[id := rec.(status := Failed, error := Some(NEVER_STARTED))];
          count := count + 1;
          failed := failed + {id};
        }
      }
      assert jobs == ExpirePending(was, org, cutoff);
      assert failed == set id | id in was && StalePending(was[id], org, cutoff);
    }

    /** `_job_count` with the filters of the counting statement: the org first, then the status. */
    method CountFiltered(org: string) returns (count: nat)
      ensures count == |ActiveOf(jobs, org)|
    {
      var todo := jobs.Keys;
      var ofOrg: set<JobId> := {};
      while todo != {}
        invariant todo <= jobs.Keys
        invariant ofOrg == set id | id in jobs && id !in todo && jobs[id].org == org
        decreases |todo|
      {
        var id :| id in todo;
        todo := todo - {id};
        if jobs[id].org == org { ofOrg := ofOrg + {id}; }
      }
      var active := set id | id in ofOrg && jobs[id].Active();
      assert active == ActiveOf(jobs, org);
      count := |active|;
    }

    /** `count_active_jobs_for_org`: afterwards the org's active rows are exactly those that were
        active and fresh before, the count is their number, and nothing else has changed. */
    method CountActiveJobs(org: string, now: int) returns (count: nat)
      modifies this
      ensures jobs.Keys == old(jobs).Keys
      ensures ActiveOf(jobs, org) ==
        set id | id in old(jobs) && old(jobs)[id].org == org && Fresh(old(jobs)[id], now - 30 * 60)
      ensures count == |set id | id in jobs && jobs[id].org == org && (jobs[id].status == Pending || jobs[id].status == Running)|
      ensures forall id | id in jobs :: Swept(old(jobs)[id], jobs[id], org, now)
    {
      var cutoff := now - COUNT_TIMEOUT;
      var _ := SweepRunning(org, cutoff);
      var _ := SweepPending(org, cutoff);
      count := CountFiltered(org);
      hide ExpireRunning, ExpirePending, Swept;
      ExpireOutcome(old(jobs), org, cutoff);
      SweptIs(old(jobs), org, now);
      ActiveIs(jobs, org);
    }

    /** `cancel_export_job`: true iff the caller may see the row and it was pending or running. */
    method CancelExportJob(id: JobId, org: string, user: string, role: Role) returns (cancelled: bool)
      modifies this
      ensures cancelled <==> id in old(jobs) && MayCancel(old(jobs)[id], org, user, role) && old(jobs)[id].Active()
      ensures cancelled ==> old(jobs)[id].status == Pending || old(jobs)[id].status == Running
      ensures id in old(jobs) && (old(jobs)[id].status == Pending || old(jobs)[id].status == Running) ==>
                match role
                case SuperAdmin => cancelled
                case OrgAdmin => cancelled <==> old(jobs)[id].org == org
                case User => cancelled <==> old(jobs)[id].org == org && old(jobs)[id].user == user
      ensures jobs == if cancelled then old(jobs)[id := old(jobs)[id].(status := Cancelled)] else old(jobs)
    {
      if id !in jobs { return false; }
      var row := jobs[id];
      if role == User {
        if row.org != org || row.user != user { return false; }
      } else if role == OrgAdmin && row.org != org {
        return false;
      }
      if row.status != Pending && row.status != Running { return false; }
      jobs := SetCancelled(jobs, id);
      return true;
    }

    method UpdateStatus(id: JobId, status: Status, now: int, error: Option<string>)
      modifies this
      ensures jobs == match status
        case Running => SetRunning(old(jobs), id, now)
        case Completed => SetEnded(old(jobs), id, Completed, now, error)
        case Failed => SetEnded(old(jobs), id, Failed, now, error)
        case _ => SetStatus(old(jobs), id, status)
      ensures jobs.Keys == old(jobs).Keys && forall j | j in jobs && j != id :: jobs[j] == old(jobs)[j]
      ensures id in jobs ==>
        var was := old(jobs)[id];
        match status
        case Running => jobs[id] == was.(status := Running, startedAt := Some(now), lastHeartbeatAt := Some(now))
        case Completed => jobs[id] == was.(status := Completed, completedAt := Some(now), error := error)
        case Failed => jobs[id] == was.(status := Failed, completedAt := Some(now), error := error)
        case Pending => jobs[id] == was.(status := Pending)
        case Cancelled => jobs[id] == was.(status := Cancelled)
    {
      if id in jobs {
        var row := jobs[id];
        if status == Running {
          jobs := jobs[id := row.(status := status, startedAt := Some(now), lastHeartbeatAt := Some(now))];
        } else if status == Completed || status == Failed {
          jobs := jobs[id := row.(status := status, completedAt := Some(now), error := error)];
        } else {
          jobs := jobs[id := row.(status := status)];
        }
      }
    }

    method UpdateProgress(id: JobId, processed: nat, skipped: nat, assetErrors: nat, now: int)
      modifies this
      ensures jobs == SetProgress(old(jobs), id, processed, skipped, assetErrors, now)
      ensures jobs.Keys == old(jobs).Keys && forall j | j in jobs && j != id :: jobs[j] == old(jobs)[j]
      ensures id in jobs ==>
        && jobs[id].processed == processed && jobs[id].skipped == skipped && jobs[id].assetErrors == assetErrors
        && jobs[id].lastHeartbeatAt == Some(now)
        && jobs[id].(processed := 0, skipped := 0, assetErrors := 0, lastHeartbeatAt := None)
           == old(jobs)[id].(processed := 0, skipped := 0, assetErrors := 0, lastHeartbeatAt := None)
    {
      if id in jobs {
        jobs := jobs[id := jobs[id].(processed := processed, skipped := skipped, assetErrors := assetErrors,
                                     lastHeartbeatAt := Some(now))];
      }
    }

    method IsJobCancelled(id: JobId) returns (cancelled: bool)
      ensures cancelled <==> id in jobs && jobs[id].status == Cancelled
    {
      cancelled := id in jobs && jobs[id].status == Cancelled;
    }
  }

  /** An active row that the counting sweeps let live. */
  predicate Fresh(r: Row, cutoff: int) {
    match r.status
    case Running => r.lastHeartbeatAt.Some? && r.lastHeartbeatAt.value >= cutoff
    case Pending => r.createdAt >= cutoff
    case _ => false
  }

  /** What a counting request makes of a row: a running row of the org that was silent for more than 30
      minutes, or a pending one that is older than that, fails with its message; no other changes. */
  predicate Swept(was: Row, row: Row, org: string, now: int) {
    if was.org == org && was.status == Running && (was.lastHeartbeatAt.None? || was.lastHeartbeatAt.value < now - 1800)
    then row == was.(status := Failed, error := Some("job timed out (no heartbeat)"))
    else if was.org == org && was.status == Pending && was.createdAt < now - 1800
    then row == was.(status := Failed, error := Some("job timed out (never started)"))
    else row == was
  }

  lemma ActiveIs(rows: Rows, org: string)
    ensures ActiveOf(rows, org)
         == set id | id in rows && rows[id].org == org && (rows[id].status == Pending || rows[id].status == Running)
  {
  }

  lemma SweptIs(rows: Rows, org: string, now: int)
    ensures var after := ExpirePending(ExpireRunning(rows, org, now - COUNT_TIMEOUT), org, now - COUNT_TIMEOUT);
      after.Keys == rows.Keys && forall id | id in after :: Swept(rows[id], after[id], org, now)
  {
  }

  /** The two expiring updates, together. */
  lemma ExpireOutcome(rows: Rows, org: string, cutoff: int)
    ensures var after := ExpirePending(ExpireRunning(rows, org, cutoff), org, cutoff);
      && after.Keys == rows.Keys
      && ActiveOf(after, org) == (set id | id in rows && rows[id].org == org && Fresh(rows[id], cutoff))
      && forall id | id in rows ::
           if rows[id].org == org && rows[id].Active() && !Fresh(rows[id], cutoff)
           then after[id].error.Some? && after[id] == rows[id].(status := Failed, error := after[id].error)
           else after[id] == rows[id]
  {
  }

  predicate MayCancel(r: Row, org: string, user: string, role: Role) {
    role == SuperAdmin || (r.org == org && (role == OrgAdmin || r.user == user))
  }
}
