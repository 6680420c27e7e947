/** The life of export jobs as a concurrent protocol: create and retry requests, workers, cancel
    requests and the sweep loop write the same rows, one SQL statement at a time, in any order
    (`src/databridge/routes/export_jobs.py`, `src/databridge/export/db.py`,
    `src/databridge/export/worker.py`, `src/databridge/export/sweep.py`). */
module Protocol {
  import opened Wrappers
  import opened JobRows

  /** Settings; times are in seconds. */
  datatype Settings = Settings(maxConcurrent: nat, staleTimeout: nat, ttl: nat)

  /** How far a create or retry request has come. The cutoff is computed before the first
      statement; `Admitted` has counted fewer active jobs than allowed and has yet to insert. */
  datatype Request =
    | Counting(org: string, cutoff: int)
    | RunningSwept(org: string, cutoff: int)
    | PendingSwept(org: string)
    | Admitted(org: string)
    | Done(org: string)

  /** How far the worker of a job has come: it is queued, has loaded a row that was not cancelled,
      is between its running write and its last cancellation check, has passed that check, has
      written `completed`, or has ended. */
  datatype Worker = Queued | Loaded | InLoop | Finishing | Notifying | Exited

  datatype State = State(
    rows: Rows,
    now: int,
    requests: map<string, Request>,
    workers: map<JobId, Worker>,
    posts: map<JobId, nat>
  )

  datatype Event =
    | Tick(seconds: nat)
    | Ask(req: string, org: string)
    | SweepRunning(req: string)
    | SweepPending(req: string)
    | Count(req: string)
    | Abandon(req: string)
    | Insert(req: string, id: JobId, user: string)
    | Enqueue(id: JobId)
    | Load(id: JobId)
    | NoSink(id: JobId, sink: string)
    | Start(id: JobId)
    | Post(id: JobId)
    | Report(id: JobId, processed: nat, skipped: nat, assetErrors: nat)
    | Check(id: JobId)
    | Complete(id: JobId)
    | Fail(id: JobId, message: string)
    | Leave(id: JobId)
    | Cancel(id: JobId)
    | Stale(message: string)
    | Clean

  const Initial := State(map[], 0, map[], map[], map[])

  /** A worker that writes nothing before it loads its row again. */
  predicate Idle(s: State, id: JobId) {
    id !in s.workers || s.workers[id] == Queued || s.workers[id] == Exited
  }

  function PostsOf(s: State, id: JobId): nat {
    if id in s.posts then s.posts[id] else 0
  }

  predicate At(s: State, id: JobId, w: Worker) {
    id in s.workers && s.workers[id] == w
  }

  predicate Enabled(s: State, e: Event) {
    match e
    case Ask(req, _) => req !in s.requests
    case SweepRunning(req) => req in s.requests && s.requests[req].Counting?
    case SweepPending(req) => req in s.requests && s.requests[req].RunningSwept?
    case Count(req) => req in s.requests && s.requests[req].PendingSwept?
    case Abandon(req) => req in s.requests && s.requests[req].Admitted?
    case Insert(req, id, _) => req in s.requests && s.requests[req].Admitted? && id !in s.rows && id !in s.workers
    case Enqueue(id) => id in s.rows && id !in s.workers
    case Load(id) => At(s, id, Queued)
    case NoSink(id, _) => At(s, id, Loaded)
    case Start(id) => At(s, id, Loaded)
    case Post(id) => At(s, id, InLoop)
    case Report(id, _, _, _) => At(s, id, InLoop)
    case Check(id) => At(s, id, InLoop)
    case Complete(id) => At(s, id, Finishing)
    case Fail(id, _) => !Idle(s, id)
    case Leave(id) => At(s, id, Notifying)
    case _ => true
  }

  function Next(c: Settings, s: State, e: Event): State
    requires Enabled(s, e)
  {
    match e
    case Tick(seconds) => s.(now := s.now + seconds)
    case Ask(req, org) => s.(requests := s.requests[req := Counting(org, s.now - COUNT_TIMEOUT)])
    case SweepRunning(req) =>
      var r := s.requests[req];
      s.(rows := ExpireRunning(s.rows, r.org, r.cutoff), requests := s.requests[req := RunningSwept(r.org, r.cutoff)])
    case SweepPending(req) =>
      var r := s.requests[req];
      s.(rows := ExpirePending(s.rows, r.org, r.cutoff), requests := s.requests[req := PendingSwept(r.org)])
    case Count(req) =>
      var org := s.requests[req].org;
      s.(requests := s.requests[req := if |ActiveOf(s.rows, org)| >= c.maxConcurrent then Done(org) else Admitted(org)])
    case Abandon(req) => s.(requests := s.requests[req := Done(s.requests[req].org)])
    case Insert(req, id, user) =>
      var org := s.requests[req].org;
      s.(rows := s.rows[id := NewRow(org, user, s.now)], requests := s.requests[req := Done(org)])
    case Enqueue(id) => s.(workers := s.workers[id := Queued])
    case Load(id) =>
      s.(workers := s.workers[id := if id in s.rows && s.rows[id].status != Cancelled then Loaded else Exited])
    case NoSink(id, sink) =>
      s.(rows := SetEnded(s.rows, id, Failed, s.now, Some("datasink '" + sink + "' not found in config")),
         workers := s.workers[id := Exited])
    case Start(id) => s.(rows := SetRunning(s.rows, id, s.now), workers := s.workers[id := InLoop])
    case Post(id) => s.(posts := s.posts[id := PostsOf(s, id) + 1])
    case Report(id, processed, skipped, assetErrors) =>
      s.(rows := SetProgress(s.rows, id, processed, skipped, assetErrors, s.now))
    case Check(id) =>
      s.(workers := s.workers[id := if id in s.rows && s.rows[id].status == Cancelled then Exited else Finishing])
    case Complete(id) =>
      s.(rows := SetEnded(s.rows, id, Completed, s.now, None), workers := s.workers[id := Notifying])
    case Fail(id, message) =>
      s.(rows := SetEnded(s.rows, id, Failed, s.now, Some(message)), workers := s.workers[id := Exited])
    case Leave(id) => s.(workers := s.workers[id := Exited])
    case Cancel(id) => s.(rows := SetCancelled(s.rows, id))
    case Stale(message) => s.(rows := MarkStale(s.rows, s.now, c.staleTimeout, message))
    case Clean => s.(rows := Purge(s.rows, s.now, c.ttl))
  }

  // ----- Runs

  /** A sequence of events, the last one outermost. */
  datatype Run = Nothing | Then(before: Run, event: Event)

  /** The state after a run; None when some event was not possible in its turn. */
  function Outcome(c: Settings, s: State, run: Run): Option<State> {
    match run
    case Nothing => Some(s)
    case Then(before, e) =>
      match Outcome(c, s, before)
      case Some(t) => if Enabled(t, e) then Some(Next(c, t, e)) else None
      case None => None
  }

  predicate ValidRun(c: Settings, s: State, run: Run) {
    Outcome(c, s, run).Some?
  }

  function After(c: Settings, s: State, run: Run): State
    requires ValidRun(c, s, run)
  {
    Outcome(c, s, run).value
  }

  // ----- The quota

  function InFlight(s: State, org: string): set<string> {
    set req | req in s.requests && s.requests[req] == Admitted(org)
  }

  function Max(a: nat, b: nat): nat {
    if a < b then b else a
  }

  /** The most requests of the org that were ever between their count and their insert. */
  function Peak(c: Settings, run: Run, org: string): nat
    requires ValidRun(c, Initial, run)
  {
    if run == Nothing then 0
    else Max(Peak(c, run.before, org), |InFlight(After(c, Initial, run), org)|)
  }

  /** A running write that lands on a row of the org which is no longer active. */
  predicate Revives(s: State, e: Event, org: string) {
    e.Start? && e.id in s.rows && s.rows[e.id].org == org && !s.rows[e.id].Active()
  }

  function Revivals(c: Settings, run: Run, org: string): nat
    requires ValidRun(c, Initial, run)
  {
    if run == Nothing then 0
    else
      Revivals(c, run.before, org) + if Revives(After(c, Initial, run.before), run.event, org) then 1 else 0
  }

  /** Active jobs and admitted requests of the org. */
  function Claims(s: State, org: string): nat {
    |ActiveOf(s.rows, org)| + |InFlight(s, org)|
  }

  lemma SubsetSize<T>(a: set<T>, b: set<T>)
    requires a <= b
    ensures |a| <= |b|
  {
    assert b == a + (b - a);
  }

  lemma ActiveRowStep(c: Settings, s: State, e: Event, org: string, id: JobId)
    requires Enabled(s, e) && id in ActiveOf(Next(c, s, e).rows, org)
    ensures || id in ActiveOf(s.rows, org)
            || ((Revives(s, e, org) || (e.Insert? && s.requests[e.req].org == org)) && id == e.id)
  {
  }

  /** The active rows of an org grow only by an insert of the org and by a revival. */
  lemma ActiveStep(c: Settings, s: State, e: Event, org: string)
    requires Enabled(s, e)
    ensures var a, b := ActiveOf(s.rows, org), ActiveOf(Next(c, s, e).rows, org);
      |b| <= |a| + if Revives(s, e, org) || (e.Insert? && s.requests[e.req].org == org) then 1 else 0
  {
    var a, b := ActiveOf(s.rows, org), ActiveOf(Next(c, s, e).rows, org);
    var more := if Revives(s, e, org) || (e.Insert? && s.requests[e.req].org == org) then {e.id} else {};
    forall id | id in b ensures id in a + more { ActiveRowStep(c, s, e, org, id); }
    SubsetSize(b, a + more);
  }

  lemma AdmittedStep(c: Settings, s: State, e: Event, org: string, req: string)
    requires Enabled(s, e)
    ensures req in InFlight(Next(c, s, e), org) <==>
      if e.Count? && e.req == req then s.requests[req].org == org && |ActiveOf(s.rows, org)| < c.maxConcurrent
      else req in InFlight(s, org) && !((e.Insert? || e.Abandon?) && e.req == req)
  {
  }

  /** The admitted requests of an org grow only by a count below the limit. */
  lemma InFlightStep(c: Settings, s: State, e: Event, org: string)
    requires Enabled(s, e)
    ensures var f, g := InFlight(s, org), InFlight(Next(c, s, e), org);
      if e.Count? && s.requests[e.req].org == org && |ActiveOf(s.rows, org)| < c.maxConcurrent then |g| == |f| + 1
      else if e.Insert? && s.requests[e.req].org == org then |g| == |f| - 1
      else |g| <= |f|
  {
    hide Next, ActiveOf;
    var f, g := InFlight(s, org), InFlight(Next(c, s, e), org);
    forall req ensures req in g <==>
      if e.Count? && e.req == req then s.requests[req].org == org && |ActiveOf(s.rows, org)| < c.maxConcurrent
      else req in f && !((e.Insert? || e.Abandon?) && e.req == req)
    {
      AdmittedStep(c, s, e, org, req);
    }
    if e.Count? && s.requests[e.req].org == org && |ActiveOf(s.rows, org)| < c.maxConcurrent {
      assert g == f + {e.req};
    } else if e.Insert? && s.requests[e.req].org == org {
      assert g == f - {e.req} && e.req in f;
    } else {
      assert g <= f;
      SubsetSize(g, f);
    }
  }

  /** One step raises the claims only by admitting a request, when the active jobs are below the
      limit, or by reviving a row. */
  lemma ClaimsStep(c: Settings, s: State, e: Event, org: string)
    requires Enabled(s, e)
    ensures var t := Next(c, s, e);
      || Claims(t, org) <= Claims(s, org) + (if Revives(s, e, org) then 1 else 0)
      || (|ActiveOf(t.rows, org)| < c.maxConcurrent && |InFlight(t, org)| == |InFlight(s, org)| + 1)
  {
    ActiveStep(c, s, e, org);
    InFlightStep(c, s, e, org);
  }

  /** In every run an org's active jobs, with its admitted requests, stay below the limit plus the
      number of requests that were ever admitted at once plus the revived rows. */
  lemma {:induction false} QuotaBound(c: Settings, run: Run, org: string)
    requires ValidRun(c, Initial, run)
    ensures Claims(After(c, Initial, run), org) <=
      (if Peak(c, run, org) == 0 then 0 else c.maxConcurrent + Peak(c, run, org) - 1) + Revivals(c, run, org)
  {
    if run == Nothing {
      assert ActiveOf(Initial.rows, org) == {} && InFlight(Initial, org) == {};
    } else {
      QuotaBound(c, run.before, org);
      ClaimsStep(c, After(c, Initial, run.before), run.event, org);
    }
  }

  /** With at most `k` requests admitted at once and no revival, an org has at most
      `max + k - 1` active jobs; with one at a time, at most the documented limit. */
  lemma QuotaPerAdmission(c: Settings, run: Run, org: string, k: nat)
    requires ValidRun(c, Initial, run) && 1 <= k && 1 <= c.maxConcurrent
    requires Peak(c, run, org) <= k && Revivals(c, run, org) == 0
    ensures |ActiveOf(After(c, Initial, run).rows, org)| <= c.maxConcurrent + k - 1
  {
    QuotaBound(c, run, org);
  }

  // ----- Cancelled jobs

  /** While no worker is under way for it, a cancelled row outlives every event unchanged, and
      nothing is posted for it. */
  lemma {:induction false} CancelledSticks(c: Settings, s: State, run: Run, id: JobId)
    requires ValidRun(c, s, run)
    requires id in s.rows && s.rows[id].status == Cancelled && Idle(s, id)
    ensures var t := After(c, s, run);
      id in t.rows && t.rows[id] == s.rows[id] && Idle(t, id) && PostsOf(t, id) == PostsOf(s, id)
  {
    if run != Nothing {
      CancelledSticks(c, s, run.before, id);
      CancelledStep(c, After(c, s, run.before), run.event, id);
    }
  }

  lemma CancelledStep(c: Settings, s: State, e: Event, id: JobId)
    requires Enabled(s, e)
    requires id in s.rows && s.rows[id].status == Cancelled && Idle(s, id)
    ensures var t := Next(c, s, e);
      id in t.rows && t.rows[id] == s.rows[id] && Idle(t, id) && PostsOf(t, id) == PostsOf(s, id)
  {
  }

  /** A cancelled row stays cancelled in every continuation exactly when its worker is idle: the
      writes of a worker that has loaded the row look at nothing. */
  lemma CancelledSticksIff(c: Settings, s: State, id: JobId)
    requires id in s.rows && s.rows[id].status == Cancelled
    ensures Idle(s, id) <==> forall run | ValidRun(c, s, run) ::
      id in After(c, s, run).rows && After(c, s, run).rows[id].status == Cancelled
  {
    if Idle(s, id) {
      forall run | ValidRun(c, s, run)
        ensures id in After(c, s, run).rows && After(c, s, run).rows[id].status == Cancelled
      {
        CancelledSticks(c, s, run, id);
      }
    } else {
      var e := Event.Fail(id, "");
      assert ValidRun(c, s, Nothing);
      assert ValidRun(c, s, Then(Nothing, e)) && After(c, s, Then(Nothing, e)).rows[id].status == Failed;
    }
  }

  /** The run holds no failure write of the job. */
  predicate Unfailed(run: Run, id: JobId) {
    run != Nothing ==> Unfailed(run.before, id) && !(run.event.Fail? && run.event.id == id)
  }

  /** A job that is cancelled while its worker is in the loop never completes: unless the worker
      fails, its row stays cancelled, and the next cancellation check ends the worker. */
  lemma {:induction false} CancelSeenInLoop(c: Settings, s: State, run: Run, id: JobId)
    requires ValidRun(c, s, run) && Unfailed(run, id)
    requires id in s.rows && s.rows[id].status == Cancelled && At(s, id, InLoop)
    ensures var t := After(c, s, run);
      && id in t.rows && t.rows[id].status == Cancelled
      && (At(t, id, InLoop) || At(t, id, Exited))
      && (At(t, id, InLoop) ==> At(Next(c, t, Check(id)), id, Exited))
  {
    if run != Nothing {
      CancelSeenInLoop(c, s, run.before, id);
      CancelSeenStep(c, After(c, s, run.before), run.event, id);
    }
  }

  lemma CancelSeenStep(c: Settings, s: State, e: Event, id: JobId)
    requires Enabled(s, e) && !(e.Fail? && e.id == id)
    requires id in s.rows && s.rows[id].status == Cancelled && (At(s, id, InLoop) || At(s, id, Exited))
    ensures var t := Next(c, s, e);
      id in t.rows && t.rows[id].status == Cancelled && (At(t, id, InLoop) || At(t, id, Exited))
  {
  }

  /** Nothing is posted for a job before a worker has loaded its row. */
  lemma {:induction false} UnloadedUnposted(c: Settings, run: Run, id: JobId)
    requires ValidRun(c, Initial, run)
    ensures var s := After(c, Initial, run);
      Unstarted(s, id) ==> PostsOf(s, id) == 0
  {
    if run != Nothing {
      UnloadedUnposted(c, run.before, id);
      UnpostedStep(c, After(c, Initial, run.before), run.event, id);
    }
  }

  lemma UnpostedStep(c: Settings, s: State, e: Event, id: JobId)
    requires Enabled(s, e) && (Unstarted(s, id) ==> PostsOf(s, id) == 0)
    ensures Unstarted(Next(c, s, e), id) ==> PostsOf(Next(c, s, e), id) == 0
  {
  }

  /** A job cancelled before any worker has loaded its row stays cancelled in every continuation,
      and nothing is ever posted for it. */
  lemma CancelledBeforeLoad(c: Settings, run: Run, rest: Run, id: JobId)
    requires ValidRun(c, Initial, run) && ValidRun(c, After(c, Initial, run), rest)
    requires var s := After(c, Initial, run);
      id in s.rows && s.rows[id].status == Cancelled && (id !in s.workers || s.workers[id] == Queued)
    ensures var t := After(c, After(c, Initial, run), rest);
      id in t.rows && t.rows[id].status == Cancelled && PostsOf(t, id) == 0
  {
    UnloadedUnposted(c, run, id);
    CancelledSticks(c, After(c, Initial, run), rest, id);
  }

  // ----- Heartbeats

  /** The worker may still write heartbeats, its final status write is to come. */
  predicate Beating(s: State, id: JobId) {
    At(s, id, InLoop) || At(s, id, Finishing)
  }

  predicate Unstarted(s: State, id: JobId) {
    id !in s.workers || s.workers[id] == Queued || s.workers[id] == Loaded
  }

  /** The times of a row that is running, or whose worker is under way. */
  predicate TimesInOrder(s: State, r: Row) {
    r.startedAt.Some? && r.lastHeartbeatAt.Some? && r.startedAt.value <= r.lastHeartbeatAt.value <= s.now
  }

  /** A job that no worker has started on has its row, and was neither running nor ended yet. */
  predicate Awaits(s: State, id: JobId) {
    && (id in s.workers && Unstarted(s, id) ==> id in s.rows)
    && (id in s.rows && Unstarted(s, id) ==>
        var r := s.rows[id];
        r.status != Running && r.status != Completed && r.completedAt == None)
  }

  predicate Timed(s: State, id: JobId) {
    id in s.rows && (s.rows[id].status == Running || Beating(s, id)) ==> TimesInOrder(s, s.rows[id])
  }

  /** What every run keeps of one job. */
  predicate JobInv(s: State, id: JobId) {
    Awaits(s, id) && Timed(s, id)
  }

  lemma {:induction false} JobInvHolds(c: Settings, run: Run, id: JobId)
    requires ValidRun(c, Initial, run)
    ensures JobInv(After(c, Initial, run), id)
  {
    if run != Nothing {
      JobInvHolds(c, run.before, id);
      JobInvStep(c, After(c, Initial, run.before), run.event, id);
    }
  }

  lemma JobInvStep(c: Settings, s: State, e: Event, id: JobId)
    requires Enabled(s, e) && JobInv(s, id)
    ensures JobInv(Next(c, s, e), id)
  {
    hide Awaits, Timed, Next;
    AwaitsStep(c, s, e, id);
    TimedStep(c, s, e, id);
  }

  lemma AwaitsStep(c: Settings, s: State, e: Event, id: JobId)
    requires Enabled(s, e) && Awaits(s, id)
    ensures Awaits(Next(c, s, e), id)
  {
  }

  predicate OfWorker(e: Event) {
    e.Load? || e.NoSink? || e.Start? || e.Post? || e.Report? || e.Check? || e.Complete? || e.Fail? || e.Leave?
  }

  lemma TimedStep(c: Settings, s: State, e: Event, id: JobId)
    requires Enabled(s, e) && Awaits(s, id) && Timed(s, id)
    ensures Timed(Next(c, s, e), id)
  {
    hide Awaits, Timed, Next, Enabled;
    if OfWorker(e) { TimedByWorker(c, s, e, id); } else { TimedByOthers(c, s, e, id); }
  }

  lemma TimedByWorker(c: Settings, s: State, e: Event, id: JobId)
    requires Enabled(s, e) && OfWorker(e) && Timed(s, id)
    ensures Timed(Next(c, s, e), id)
  {
  }

  lemma TimedByOthers(c: Settings, s: State, e: Event, id: JobId)
    requires Enabled(s, e) && !OfWorker(e) && Timed(s, id)
    ensures Timed(Next(c, s, e), id)
  {
  }

  /** Every running row was started, and has been heard of since, in the past. */
  lemma RunningRowsHaveTimes(c: Settings, run: Run, id: JobId)
    requires ValidRun(c, Initial, run)
    requires id in After(c, Initial, run).rows && After(c, Initial, run).rows[id].status == Running
    ensures TimesInOrder(After(c, Initial, run), After(c, Initial, run).rows[id])
  {
    JobInvHolds(c, run, id);
  }

  /** A cutoff computed earlier is no later than one computed now. */
  ghost predicate CutoffsPast(s: State) {
    forall req | req in s.requests && (s.requests[req].Counting? || s.requests[req].RunningSwept?) ::
      s.requests[req].cutoff <= s.now - COUNT_TIMEOUT
  }

  lemma {:induction false} CutoffsArePast(c: Settings, run: Run)
    requires ValidRun(c, Initial, run)
    ensures CutoffsPast(After(c, Initial, run))
  {
    if run != Nothing {
      CutoffsArePast(c, run.before);
      CutoffsStep(c, After(c, Initial, run.before), run.event);
    }
  }

  lemma CutoffsStep(c: Settings, s: State, e: Event)
    requires Enabled(s, e) && CutoffsPast(s)
    ensures CutoffsPast(Next(c, s, e))
  {
  }

  /** While its worker is beating, the last heartbeat of the row is within both timeouts. */
  predicate InTime(c: Settings, s: State, id: JobId) {
    Beating(s, id) && id in s.rows && s.rows[id].lastHeartbeatAt.Some? ==>
      && s.now - s.rows[id].lastHeartbeatAt.value <= c.staleTimeout
      && s.now - s.rows[id].lastHeartbeatAt.value <= COUNT_TIMEOUT
  }

  /** The job is in time throughout the run. */
  ghost predicate Timely(c: Settings, run: Run, id: JobId)
    requires ValidRun(c, Initial, run)
  {
    InTime(c, After(c, Initial, run), id) && (run != Nothing ==> Timely(c, run.before, id))
  }

  predicate RunningOrCancelled(s: State, id: JobId) {
    id in s.rows && (s.rows[id].status == Running || s.rows[id].status == Cancelled)
  }

  /** An event of the sweep loop or of a counting request. */
  predicate Sweeps(e: Event) {
    e.SweepRunning? || e.SweepPending? || e.Stale? || e.Clean?
  }

  lemma SweepsSpare(c: Settings, s: State, e: Event, id: JobId)
    requires Enabled(s, e) && Sweeps(e)
    requires JobInv(s, id) && CutoffsPast(s) && InTime(c, s, id)
    requires Beating(s, id) && RunningOrCancelled(s, id)
    ensures id in Next(c, s, e).rows && Next(c, s, e).rows[id] == s.rows[id]
  {
  }

  /** In a timely run the row of a beating worker is running or was cancelled, and no sweep, of
      either kind, nor the purge, touches it. */
  lemma {:induction false} TimelyRowsSurvive(c: Settings, run: Run, id: JobId)
    requires ValidRun(c, Initial, run) && Timely(c, run, id)
    ensures var s := After(c, Initial, run);
      At(s, id, InLoop) || At(s, id, Finishing) ==>
        && RunningOrCancelled(s, id)
        && forall e | Sweeps(e) && Enabled(s, e) :: id in Next(c, s, e).rows && Next(c, s, e).rows[id] == s.rows[id]
  {
    var s := After(c, Initial, run);
    JobInvHolds(c, run, id);
    CutoffsArePast(c, run);
    if run != Nothing {
      TimelyRowsSurvive(c, run.before, id);
      JobInvHolds(c, run.before, id);
      SurvivalStep(c, After(c, Initial, run.before), run.event, id);
    }
    if Beating(s, id) {
      forall e | Sweeps(e) && Enabled(s, e)
        ensures id in Next(c, s, e).rows && Next(c, s, e).rows[id] == s.rows[id]
      {
        SweepsSpare(c, s, e, id);
      }
    }
  }

  lemma SurvivalStep(c: Settings, s: State, e: Event, id: JobId)
    requires Enabled(s, e) && JobInv(s, id)
    requires Beating(s, id) ==> RunningOrCancelled(s, id)
    requires Beating(s, id) && Sweeps(e) ==> id in Next(c, s, e).rows && Next(c, s, e).rows[id] == s.rows[id]
    ensures Beating(Next(c, s, e), id) ==> RunningOrCancelled(Next(c, s, e), id)
  {
  }

  /** A write of the job's own: by its worker, or a cancel request. */
  predicate Writes(e: Event, id: JobId) {
    match e
    case Start(j) => j == id
    case NoSink(j, _) => j == id
    case Report(j, _, _, _) => j == id
    case Complete(j) => j == id
    case Fail(j, _) => j == id
    case Cancel(j) => j == id
    case _ => false
  }

  predicate Silent(run: Run, id: JobId) {
    run != Nothing ==> Silent(run.before, id) && !Writes(run.event, id)
  }

  /** The row was failed, and perhaps purged since; no insert takes its id again. */
  predicate GivenUp(s: State, id: JobId) {
    id in s.workers && (id in s.rows ==> s.rows[id].status == Failed)
  }

  lemma GivenUpStep(c: Settings, s: State, e: Event, id: JobId)
    requires Enabled(s, e) && !Writes(e, id) && GivenUp(s, id)
    ensures GivenUp(Next(c, s, e), id)
  {
  }

  lemma RunningStep(c: Settings, s: State, e: Event, id: JobId)
    requires Enabled(s, e) && !Writes(e, id)
    requires id in s.workers && id in s.rows && s.rows[id].status == Running
    ensures var t := Next(c, s, e);
      GivenUp(t, id) || (id in t.workers && id in t.rows && t.rows[id] == s.rows[id])
  {
  }

  lemma {:induction false} GivenUpStays(c: Settings, s: State, run: Run, id: JobId)
    requires ValidRun(c, s, run) && Silent(run, id) && GivenUp(s, id)
    ensures GivenUp(After(c, s, run), id)
  {
    if run != Nothing {
      GivenUpStays(c, s, run.before, id);
      GivenUpStep(c, After(c, s, run.before), run.event, id);
    }
  }

  /** While nothing is written for a running job, its row stays as it is until a sweep fails it. */
  lemma {:induction false} RunningUntilGivenUp(c: Settings, s: State, run: Run, id: JobId)
    requires ValidRun(c, s, run) && Silent(run, id)
    requires id in s.workers && id in s.rows && s.rows[id].status == Running
    ensures var t := After(c, s, run);
      GivenUp(t, id) || (id in t.workers && id in t.rows && t.rows[id] == s.rows[id])
  {
    if run != Nothing {
      RunningUntilGivenUp(c, s, run.before, id);
      var t := After(c, s, run.before);
      if GivenUp(t, id) { GivenUpStep(c, t, run.event, id); } else { RunningStep(c, t, run.event, id); }
    }
  }

  /** The heartbeat is older than the sweep, or the cutoff of a counting request of the org, allows. */
  predicate Overdue(c: Settings, s: State, e: Event, row: Row) {
    row.lastHeartbeatAt.Some? && Enabled(s, e) &&
    match e
    case Stale(_) => s.now - row.lastHeartbeatAt.value > c.staleTimeout
    case SweepRunning(req) => s.requests[req].org == row.org && row.lastHeartbeatAt.value < s.requests[req].cutoff
    case _ => false
  }

  /** One sweep fails a running row exactly when it is overdue, and else leaves it alone. */
  lemma SweepFailsOverdue(c: Settings, s: State, e: Event, id: JobId)
    requires Enabled(s, e) && (e.Stale? || e.SweepRunning?)
    requires id in s.workers && id in s.rows && s.rows[id].status == Running && Timed(s, id)
    ensures var t := Next(c, s, e);
      && id in t.rows
      && if Overdue(c, s, e, s.rows[id])
         then GivenUp(t, id) && t.rows[id].error.Some? && (e.Stale? ==> t.rows[id].completedAt == Some(s.now))
         else t.rows[id] == s.rows[id]
  {
  }

  lemma TimedOnward(s: State, t: State, id: JobId)
    requires Timed(s, id) && id in s.rows && s.rows[id].status == Running && s.now <= t.now
    requires id in t.rows && t.rows[id] == s.rows[id]
    ensures Timed(t, id)
  {
  }

  lemma TimeStep(c: Settings, s: State, e: Event)
    requires Enabled(s, e)
    ensures s.now <= Next(c, s, e).now
  {
  }

  lemma {:induction false} TimeGoesOn(c: Settings, s: State, run: Run)
    requires ValidRun(c, s, run)
    ensures s.now <= After(c, s, run).now
  {
    hide Next;
    if run != Nothing {
      TimeGoesOn(c, s, run.before);
      TimeStep(c, After(c, s, run.before), run.event);
    }
  }

  /** Once nothing more is written for a running job, the first sweep that finds its heartbeat overdue,
      of whichever kind, however much happens before, leaves the row failed or already gone, and so it
      is in every continuation. */
  lemma SilentRowsFail(c: Settings, run: Run, rest: Run, e: Event, more: Run, id: JobId)
    requires ValidRun(c, Initial, run)
    requires var s := After(c, Initial, run);
      && id in s.rows && s.rows[id].status == Running
      && ValidRun(c, s, rest) && Silent(rest, id)
      && var t := After(c, s, rest);
      && Overdue(c, t, e, s.rows[id])
      && ValidRun(c, Next(c, t, e), more) && Silent(more, id)
    ensures GivenUp(After(c, Next(c, After(c, After(c, Initial, run), rest), e), more), id)
  {
    var s := After(c, Initial, run);
    var t := After(c, s, rest);
    JobInvHolds(c, run, id);
    RunningUntilGivenUp(c, s, rest, id);
    TimeGoesOn(c, s, rest);
    if !GivenUp(t, id) { TimedOnward(s, t, id); }
    if GivenUp(t, id) { GivenUpStep(c, t, e, id); } else { SweepFailsOverdue(c, t, e, id); }
    GivenUpStays(c, Next(c, t, e), more, id);
  }

  // ----- What the purge takes

  predicate Ended(r: Row) {
    r.status == Completed || r.status == Failed
  }

  /** One event removes a row if and only if it is the purge, and the row ended more than the time to
      live ago. */
  lemma RemovedByPurgeOnly(c: Settings, s: State, e: Event, id: JobId)
    requires Enabled(s, e) && id in s.rows
    ensures id !in Next(c, s, e).rows <==>
      var r := s.rows[id];
      && e == Clean
      && (r.status == Completed || r.status == Failed)
      && r.completedAt.Some? && s.now - r.completedAt.value > c.ttl
  {
  }

  /** A row that has ended changes by its own writes alone. */
  lemma EndedStep(c: Settings, s: State, e: Event, id: JobId)
    requires Enabled(s, e) && !Writes(e, id) && id in s.workers
    requires id in s.rows ==> Ended(s.rows[id])
    ensures var t := Next(c, s, e);
      id in t.workers && (id in t.rows ==> id in s.rows && t.rows[id] == s.rows[id])
  {
  }

  lemma {:induction false} EndedStays(c: Settings, s: State, run: Run, id: JobId)
    requires ValidRun(c, s, run) && Silent(run, id) && id in s.workers && id in s.rows && Ended(s.rows[id])
    ensures var t := After(c, s, run);
      && id in t.workers && (id in t.rows ==> t.rows[id] == s.rows[id])
      && (id !in t.rows ==> s.rows[id].completedAt.Some? && t.now - s.rows[id].completedAt.value > c.ttl)
  {
    hide Next, Enabled;
    if run != Nothing {
      EndedStays(c, s, run.before, id);
      var t := After(c, s, run.before);
      EndedStep(c, t, run.event, id);
      TimeStep(c, t, run.event);
      if id in t.rows { RemovedByPurgeOnly(c, t, run.event, id); }
    }
  }

  /** A job that ended at some time keeps its row, as it is, in every continuation without a further
      write of its own, until the time to live is over, and the first purge after that removes it for
      good. */
  lemma PurgedAfterTimeToLive(c: Settings, run: Run, rest: Run, more: Run, id: JobId)
    requires ValidRun(c, Initial, run) && ValidRun(c, After(c, Initial, run), rest) && Silent(rest, id)
    requires var s := After(c, Initial, run);
      id in s.rows && (s.rows[id].status == Completed || s.rows[id].status == Failed) && s.rows[id].completedAt.Some?
    requires var t := After(c, After(c, Initial, run), rest);
      ValidRun(c, Next(c, t, Clean), more) && Silent(more, id)
    ensures var s := After(c, Initial, run);
      var t := After(c, s, rest);
      var age := t.now - s.rows[id].completedAt.value;
      && (age <= c.ttl ==> id in t.rows && t.rows[id] == s.rows[id] && id in Next(c, t, Clean).rows)
      && (age > c.ttl ==> id !in After(c, Next(c, t, Clean), more).rows)
  {
    var s := After(c, Initial, run);
    var t := After(c, s, rest);
    JobInvHolds(c, run, id);
    EndedStays(c, s, rest, id);
    EndedStep(c, t, Clean, id);
    if id in t.rows { RemovedByPurgeOnly(c, t, Clean, id); }
    if id !in Next(c, t, Clean).rows { GoneStays(c, Next(c, t, Clean), more, id); }
  }

  lemma {:induction false} GoneStays(c: Settings, s: State, run: Run, id: JobId)
    requires ValidRun(c, s, run) && Silent(run, id) && id in s.workers && id !in s.rows
    ensures id !in After(c, s, run).rows && id in After(c, s, run).workers
  {
    if run != Nothing {
      GoneStays(c, s, run.before, id);
      EndedStep(c, After(c, s, run.before), run.event, id);
    }
  }

  /** A row that a counting request gave up has no time of completion: no purge ever takes it. */
  lemma GivenUpIsNeverPurged(c: Settings, s: State, run: Run, id: JobId)
    requires ValidRun(c, s, run) && Silent(run, id) && id in s.workers
    requires id in s.rows && s.rows[id].status == Failed && s.rows[id].completedAt == None
    ensures id in After(c, s, run).rows && After(c, s, run).rows[id] == s.rows[id]
  {
    EndedStays(c, s, run, id);
  }

  // ----- A job from its queue to its end

  lemma OneMore(c: Settings, s: State, run: Run, t: State, e: Event)
    requires Outcome(c, s, run) == Some(t) && Enabled(t, e)
    ensures Outcome(c, s, Then(run, e)) == Some(Next(c, t, e))
  {
  }

  lemma BeginsIs(c: Settings, s: State, id: JobId)
    requires At(s, id, Queued) && id in s.rows && s.rows[id].status != Cancelled
    ensures Enabled(s, Load(id)) && Enabled(Next(c, s, Load(id)), Start(id))
    ensures var t := Next(c, Next(c, s, Load(id)), Start(id));
      && t.rows == s.rows[id := s.rows[id].(
           status := Running, startedAt := Some(s.now), lastHeartbeatAt := Some(s.now))]
      && t == s.(rows := t.rows, workers := s.workers[id := InLoop])
  {
    assert s.workers[id := Loaded][id := InLoop] == s.workers[id := InLoop];
  }

  lemma WorksIs(c: Settings, s: State, id: JobId, processed: nat, skipped: nat, assetErrors: nat)
    requires At(s, id, InLoop) && id in s.rows
    ensures var report := Report(id, processed, skipped, assetErrors);
      && Enabled(s, Post(id)) && Enabled(Next(c, s, Post(id)), report)
      && var t := Next(c, Next(c, s, Post(id)), report);
      && t.rows == s.rows[id := s.rows[id].(
           processed := processed, skipped := skipped, assetErrors := assetErrors, lastHeartbeatAt := Some(s.now))]
      && t == s.(rows := t.rows, posts := s.posts[id := PostsOf(s, id) + 1])
  {
  }

  lemma EndsIs(c: Settings, s: State, id: JobId)
    requires At(s, id, InLoop) && id in s.rows && s.rows[id].status == Running
    ensures Enabled(s, Check(id)) && Enabled(Next(c, s, Check(id)), Complete(id))
    ensures Enabled(Next(c, Next(c, s, Check(id)), Complete(id)), Leave(id))
    ensures var t := Next(c, Next(c, Next(c, s, Check(id)), Complete(id)), Leave(id));
      && t.rows == s.rows[id := s.rows[id].(status := Completed, completedAt := Some(s.now), error := None)]
      && t == s.(rows := t.rows, workers := s.workers[id := Exited])
  {
    assert s.workers[id := Finishing][id := Notifying][id := Exited] == s.workers[id := Exited];
  }

  /** A worker that meets no exception and no cancellation takes a job from the queue to completion,
      whatever the row said before, unless it was cancelled; no other row changes. */
  lemma CompletesUndisturbed(c: Settings, s: State, id: JobId, processed: nat, skipped: nat, assetErrors: nat)
    requires At(s, id, Queued) && id in s.rows && s.rows[id].status != Cancelled
    ensures var begun := Then(Then(Nothing, Load(id)), Start(id));
      var worked := Then(Then(begun, Post(id)), Report(id, processed, skipped, assetErrors));
      var run := Then(Then(Then(worked, Check(id)), Complete(id)), Leave(id));
      && ValidRun(c, s, run)
      && var t := After(c, s, run);
      && id in t.rows && t.rows == s.rows[id := t.rows[id]]
      && t.rows[id] == s.rows[id].(
           status := Completed, startedAt := Some(s.now), lastHeartbeatAt := Some(s.now), completedAt := Some(s.now),
           processed := processed, skipped := skipped, assetErrors := assetErrors, error := None)
      && At(t, id, Exited) && PostsOf(t, id) == PostsOf(s, id) + 1 && t.requests == s.requests && t.now == s.now
  {
    hide Next, Enabled;
    var report := Report(id, processed, skipped, assetErrors);
    BeginsIs(c, s, id);
    OneMore(c, s, Nothing, s, Load(id));
    var run := Then(Nothing, Load(id));
    OneMore(c, s, run, Next(c, s, Load(id)), Start(id));
    run := Then(run, Start(id));
    var t := Next(c, Next(c, s, Load(id)), Start(id));
    WorksIs(c, t, id, processed, skipped, assetErrors);
    OneMore(c, s, run, t, Post(id));
    run := Then(run, Post(id));
    OneMore(c, s, run, Next(c, t, Post(id)), report);
    run := Then(run, report);
    var u := Next(c, Next(c, t, Post(id)), report);
    EndsIs(c, u, id);
    OneMore(c, s, run, u, Check(id));
    run := Then(run, Check(id));
    OneMore(c, s, run, Next(c, u, Check(id)), Complete(id));
    run := Then(run, Complete(id));
    OneMore(c, s, run, Next(c, Next(c, u, Check(id)), Complete(id)), Leave(id));
  }

  /** An exception of the worker fails the job with its message, and so does a sink that is not
      configured, whatever the row said before. */
  lemma FailsWithMessage(c: Settings, s: State, id: JobId, message: string)
    requires id in s.rows && (At(s, id, Loaded) || At(s, id, InLoop) || At(s, id, Finishing) || At(s, id, Notifying))
    ensures Enabled(s, Fail(id, message))
    ensures Next(c, s, Fail(id, message)).rows
         == s.rows[id := s.rows[id].(status := Failed, completedAt := Some(s.now), error := Some(message))]
    ensures forall sink | Enabled(s, NoSink(id, sink)) ::
      Next(c, s, NoSink(id, sink)).rows
      == Next(c, s, Fail(id, "datasink '" + sink + "' not found in config")).rows
  {
  }
}
