/** The quota bound is exact: for every limit, every number of requests that count together and every
    number of late running writes there is a run that attains it. */
module QuotaLimits {
  import opened Wrappers
  import opened JobRows
  import opened Protocol

  /** A run that ends in `s`, with what the quota bound speaks of. */
  ghost predicate Reaches(c: Settings, run: Run, s: State, org: string, peak: nat, revivals: nat) {
    && Outcome(c, Initial, run) == Some(s)
    && Peak(c, run, org) == peak
    && Revivals(c, run, org) == revivals
    && |InFlight(s, org)| <= peak
  }

  /** An event other than a count admits nothing. */
  lemma Quietly(c: Settings, run: Run, s: State, e: Event, org: string, peak: nat, revivals: nat) returns (more: Run)
    requires Reaches(c, run, s, org, peak, revivals) && Enabled(s, e) && !e.Count?
    ensures Reaches(c, more, Next(c, s, e), org, peak, revivals + if Revives(s, e, org) then 1 else 0)
  {
    InFlightStep(c, s, e, org);
    more := Then(run, e);
  }

  /** A count below the limit admits one more request. */
  lemma Admits(c: Settings, run: Run, s: State, req: string, org: string, peak: nat, revivals: nat) returns (more: Run)
    requires Reaches(c, run, s, org, peak, revivals) && Enabled(s, Count(req)) && s.requests[req].org == org
    requires |ActiveOf(s.rows, org)| < c.maxConcurrent
    ensures Reaches(c, more, s.(requests := s.requests[req := Admitted(org)]), org,
                    Max(peak, |InFlight(s, org)| + 1), revivals)
  {
    InFlightStep(c, s, Count(req), org);
    more := Then(run, Count(req));
  }

  /** A request up to its count. */
  lemma Asked(c: Settings, run: Run, s: State, req: string, org: string, peak: nat, revivals: nat) returns (more: Run)
    requires Reaches(c, run, s, org, peak, revivals) && req !in s.requests
    ensures var cutoff := s.now - COUNT_TIMEOUT;
      Reaches(c, more, s.(requests := s.requests[req := PendingSwept(org)],
                          rows := ExpirePending(ExpireRunning(s.rows, org, cutoff), org, cutoff)), org, peak, revivals)
  {
    var cutoff := s.now - COUNT_TIMEOUT;
    var s1 := s.(requests := s.requests[req := Counting(org, cutoff)]);
    var s2 := s1.(requests := s.requests[req := RunningSwept(org, cutoff)], rows := ExpireRunning(s.rows, org, cutoff));
    var s3 := s2.(requests := s.requests[req := PendingSwept(org)], rows := ExpirePending(s2.rows, org, cutoff));
    assert s1.requests[req := RunningSwept(org, cutoff)] == s2.requests;
    assert s2.requests[req := PendingSwept(org)] == s3.requests;
    more := Quietly(c, run, s, Ask(req, org), org, peak, revivals);
    more := Quietly(c, more, s1, Event.SweepRunning(req), org, peak, revivals);
    more := Quietly(c, more, s2, Event.SweepPending(req), org, peak, revivals);
  }

  lemma AtTheStart(c: Settings, org: string)
    ensures Reaches(c, Nothing, Initial, org, 0, 0)
    ensures ExpirePending(ExpireRunning(map[], org, -COUNT_TIMEOUT), org, -COUNT_TIMEOUT) == map[]
    ensures ActiveOf(map[], org) == {}
  {
    assert InFlight(Initial, org) == {};
  }

  // ----- Runs of any size

  function Name(n: nat): (name: string)
    ensures |name| == n
  {
    if n == 0 then "" else "j" + Name(n - 1)
  }

  /** All names are shorter than `n`, and every active row is so new that no sweep expires it. */
  ghost predicate Steady(s: State, n: nat) {
    && (forall req | req in s.requests :: |req| < n)
    && (forall id | id in s.workers :: |id| < n)
    && (forall id | id in s.rows :: |id| < n)
    && (forall id | id in s.rows && s.rows[id].Active() :: s.rows[id].status == Pending && s.rows[id].createdAt == s.now)
  }

  /** Rows of the org that are no longer active, though a worker has loaded them and is yet to start. */
  function Late(s: State, org: string): set<JobId> {
    set id | id in s.rows && s.rows[id].org == org && !s.rows[id].Active() && At(s, id, Loaded)
  }

  lemma Unswept(s: State, n: nat, org: string)
    requires Steady(s, n)
    ensures var cutoff := s.now - COUNT_TIMEOUT;
      ExpirePending(ExpireRunning(s.rows, org, cutoff), org, cutoff) == s.rows
  {
  }

  lemma AskOne(c: Settings, run: Run, s: State, n: nat, org: string, peak: nat, revivals: nat) returns (more: Run)
    requires Reaches(c, run, s, org, peak, revivals) && Steady(s, n)
    ensures Reaches(c, more, s.(requests := s.requests[Name(n) := PendingSwept(org)]), org, peak, revivals)
  {
    hide Reaches, ExpirePending, ExpireRunning;
    Unswept(s, n, org);
    assert Name(n) !in s.requests;
    more := Asked(c, run, s, Name(n), org, peak, revivals);
    assert s.(requests := s.requests[Name(n) := PendingSwept(org)], rows := s.rows)
        == s.(requests := s.requests[Name(n) := PendingSwept(org)]);
  }

  lemma AskedState(s: State, n: nat, org: string)
    requires Steady(s, n)
    ensures var asked := s.(requests := s.requests[Name(n) := PendingSwept(org)]);
      var admitted := asked.(requests := asked.requests[Name(n) := Admitted(org)]);
      && Enabled(asked, Count(Name(n))) && InFlight(asked, org) == InFlight(s, org)
      && InFlight(admitted, org) == InFlight(s, org) + {Name(n)} && Steady(admitted, n + 1)
  {
  }

  /** One more request is admitted. */
  lemma AdmitOne(c: Settings, run: Run, s: State, n: nat, org: string, peak: nat, revivals: nat)
    returns (more: Run, t: State)
    requires Reaches(c, run, s, org, peak, revivals) && Steady(s, n)
    requires |ActiveOf(s.rows, org)| < c.maxConcurrent
    ensures Reaches(c, more, t, org, Max(peak, |InFlight(s, org)| + 1), revivals) && Steady(t, n + 1)
    ensures t == s.(requests := t.requests) && InFlight(t, org) == InFlight(s, org) + {Name(n)}
  {
    hide Reaches, Steady, InFlight, ActiveOf, Enabled;
    var asked := s.(requests := s.requests[Name(n) := PendingSwept(org)]);
    AskedState(s, n, org);
    more := AskOne(c, run, s, n, org, peak, revivals);
    more := Admits(c, more, asked, Name(n), org, peak, revivals);
    t := asked.(requests := asked.requests[Name(n) := Admitted(org)]);
  }

  /** An admitted request inserts its row. */
  lemma InsertOne(c: Settings, run: Run, s: State, n: nat, org: string, peak: nat, revivals: nat)
    returns (more: Run, t: State)
    requires Reaches(c, run, s, org, peak, revivals) && Steady(s, n) && InFlight(s, org) != {}
    ensures Reaches(c, more, t, org, peak, revivals) && Steady(t, n + 1)
    ensures t == s.(requests := t.requests, rows := s.rows[Name(n) := NewRow(org, "u", s.now)])
    ensures Name(n) !in s.rows && ActiveOf(t.rows, org) == ActiveOf(s.rows, org) + {Name(n)}
    ensures |InFlight(t, org)| == |InFlight(s, org)| - 1
  {
    hide Peak, Revivals;
    var req :| req in InFlight(s, org);
    var e := Insert(req, Name(n), "u");
    InFlightStep(c, s, e, org);
    more := Quietly(c, run, s, e, org, peak, revivals);
    t := Next(c, s, e);
  }
  /** The row is cancelled, and its worker has loaded it before. */
  function Overtaken(s: State, id: JobId): State {
    s.(rows := SetCancelled(s.rows, id), workers := s.workers[id := Loaded])
  }

  lemma OvertakenIs(s: State, n: nat, id: JobId, org: string)
    requires Steady(s, n) && id in s.rows && s.rows[id].org == org && s.rows[id].status == Pending && id !in s.workers
    ensures var t := Overtaken(s, id);
      && Steady(t, n) && InFlight(t, org) == InFlight(s, org)
      && ActiveOf(t.rows, org) == ActiveOf(s.rows, org) - {id}
      && Late(t, org) == Late(s, org) + {id} && id !in Late(s, org)
  {
  }

  lemma OvertakenSteps(c: Settings, s: State, id: JobId, org: string)
    requires id in s.rows && s.rows[id].status == Pending && id !in s.workers
    ensures var queued := s.(workers := s.workers[id := Queued]);
      var loaded := s.(workers := s.workers[id := Loaded]);
      && Enabled(s, Enqueue(id)) && Next(c, s, Enqueue(id)) == queued
      && Enabled(queued, Load(id)) && Next(c, queued, Load(id)) == loaded
      && Enabled(loaded, Cancel(id)) && Next(c, loaded, Cancel(id)) == Overtaken(s, id)
  {
    assert s.workers[id := Queued][id := Loaded] == s.workers[id := Loaded];
  }

  /** A job that is cancelled after its worker has loaded the row. */
  lemma CancelLate(c: Settings, run: Run, s: State, n: nat, id: JobId, org: string, peak: nat, revivals: nat)
    returns (more: Run, t: State)
    requires Reaches(c, run, s, org, peak, revivals) && Steady(s, n)
    requires id in s.rows && s.rows[id].org == org && s.rows[id].status == Pending && id !in s.workers
    ensures Reaches(c, more, t, org, peak, revivals) && Steady(t, n)
    ensures ActiveOf(t.rows, org) == ActiveOf(s.rows, org) - {id} && InFlight(t, org) == InFlight(s, org)
    ensures Late(t, org) == Late(s, org) + {id} && id !in Late(s, org)
  {
    hide Reaches, Steady, ActiveOf, InFlight, Late, Next, Enabled, Overtaken;
    var queued := s.(workers := s.workers[id := Queued]);
    var loaded := s.(workers := s.workers[id := Loaded]);
    OvertakenSteps(c, s, id, org);
    OvertakenIs(s, n, id, org);
    more := Quietly(c, run, s, Enqueue(id), org, peak, revivals);
    more := Quietly(c, more, queued, Load(id), org, peak, revivals);
    more := Quietly(c, more, loaded, Cancel(id), org, peak, revivals);
    t := Overtaken(s, id);
  }

  /** A lone request inserts a job. */
  lemma AddOne(c: Settings, run: Run, s: State, n: nat, org: string, peak: nat, revivals: nat)
    returns (more: Run, t: State)
    requires Reaches(c, run, s, org, peak, revivals) && Steady(s, n)
    requires InFlight(s, org) == {} && |ActiveOf(s.rows, org)| < c.maxConcurrent
    ensures Reaches(c, more, t, org, Max(peak, 1), revivals) && Steady(t, n + 2) && t.now == s.now
    ensures InFlight(t, org) == {} && Late(t, org) == Late(s, org)
    ensures var id := Name(n + 1);
      && id !in s.rows && id !in t.workers && t.rows == s.rows[id := NewRow(org, "u", s.now)]
      && ActiveOf(t.rows, org) == ActiveOf(s.rows, org) + {id} && id !in ActiveOf(s.rows, org)
  {
    hide Reaches;
    var admitted;
    more, admitted := AdmitOne(c, run, s, n, org, peak, revivals);
    more, t := InsertOne(c, more, admitted, n + 1, org, Max(peak, 1), revivals);
    assert InFlight(t, org) == {};
  }

  lemma {:induction false} AddMany(c: Settings, run: Run, s: State, n: nat, org: string, peak: nat, revivals: nat, m: nat)
    returns (more: Run, t: State, n': nat)
    requires Reaches(c, run, s, org, peak, revivals) && Steady(s, n)
    requires InFlight(s, org) == {} && |ActiveOf(s.rows, org)| + m <= c.maxConcurrent
    ensures Reaches(c, more, t, org, if m == 0 then peak else Max(peak, 1), revivals) && Steady(t, n')
    ensures InFlight(t, org) == {} && Late(t, org) == Late(s, org)
    ensures |ActiveOf(t.rows, org)| == |ActiveOf(s.rows, org)| + m
    decreases m
  {
    hide Reaches, Steady, Late, InFlight, ActiveOf;
    if m == 0 {
      more, t, n' := run, s, n;
    } else {
      more, t := AddOne(c, run, s, n, org, peak, revivals);
      more, t, n' := AddMany(c, more, t, n + 2, org, Max(peak, 1), revivals, m - 1);
    }
  }

  /** A job that comes and goes, and leaves its worker behind. */
  lemma LateOne(c: Settings, run: Run, s: State, n: nat, org: string, peak: nat, revivals: nat)
    returns (more: Run, t: State)
    requires Reaches(c, run, s, org, peak, revivals) && Steady(s, n)
    requires InFlight(s, org) == {} && ActiveOf(s.rows, org) == {} && c.maxConcurrent >= 1
    ensures Reaches(c, more, t, org, Max(peak, 1), revivals) && Steady(t, n + 2)
    ensures InFlight(t, org) == {} && ActiveOf(t.rows, org) == {} && |Late(t, org)| == |Late(s, org)| + 1
  {
    hide Reaches, Steady, Late, InFlight, ActiveOf;
    var id := Name(n + 1);
    more, t := AddOne(c, run, s, n, org, peak, revivals);
    more, t := CancelLate(c, more, t, n + 2, id, org, Max(peak, 1), revivals);
  }

  lemma {:induction false} LateMany(c: Settings, run: Run, s: State, n: nat, org: string, peak: nat, revivals: nat, m: nat)
    returns (more: Run, t: State, n': nat)
    requires Reaches(c, run, s, org, peak, revivals) && Steady(s, n)
    requires InFlight(s, org) == {} && ActiveOf(s.rows, org) == {} && c.maxConcurrent >= 1
    ensures Reaches(c, more, t, org, if m == 0 then peak else Max(peak, 1), revivals) && Steady(t, n')
    ensures InFlight(t, org) == {} && ActiveOf(t.rows, org) == {} && |Late(t, org)| == |Late(s, org)| + m
    decreases m
  {
    hide Reaches, Steady, Late, InFlight, ActiveOf;
    if m == 0 {
      more, t, n' := run, s, n;
    } else {
      more, t := LateOne(c, run, s, n, org, peak, revivals);
      more, t, n' := LateMany(c, more, t, n + 2, org, Max(peak, 1), revivals, m - 1);
    }
  }

  lemma {:induction false} AdmitMany(c: Settings, run: Run, s: State, n: nat, org: string, peak: nat, revivals: nat, m: nat)
    returns (more: Run, t: State, n': nat)
    requires Reaches(c, run, s, org, peak, revivals) && Steady(s, n)
    requires |ActiveOf(s.rows, org)| < c.maxConcurrent
    ensures Reaches(c, more, t, org, if m == 0 then peak else Max(peak, |InFlight(s, org)| + m), revivals)
    ensures Steady(t, n') && t.rows == s.rows && Late(t, org) == Late(s, org)
    ensures |InFlight(t, org)| == |InFlight(s, org)| + m
    decreases m
  {
    hide Reaches, Steady, InFlight, ActiveOf, Late;
    if m == 0 {
      more, t, n' := run, s, n;
    } else {
      NewName(s, n, org);
      more, t := AdmitOne(c, run, s, n, org, peak, revivals);
      SameLate(s, t, org);
      more, t, n' := AdmitMany(c, more, t, n + 1, org, Max(peak, |InFlight(s, org)| + 1), revivals, m - 1);
    }
  }

  lemma NewName(s: State, n: nat, org: string)
    requires Steady(s, n)
    ensures Name(n) !in InFlight(s, org) && Name(n) !in s.workers && Name(n) !in s.rows
  {
  }

  lemma SameLate(s: State, t: State, org: string)
    requires t == s.(requests := t.requests)
    ensures Late(t, org) == Late(s, org)
  {
  }

  lemma InsertKeepsLate(s: State, t: State, id: JobId, org: string)
    requires id !in s.workers && id !in s.rows
    requires t == s.(requests := t.requests, rows := s.rows[id := NewRow(org, "u", s.now)])
    ensures Late(t, org) == Late(s, org)
  {
  }

  lemma {:induction false} InsertMany(c: Settings, run: Run, s: State, n: nat, org: string, peak: nat, revivals: nat, m: nat)
    returns (more: Run, t: State, n': nat)
    requires Reaches(c, run, s, org, peak, revivals) && Steady(s, n) && m <= |InFlight(s, org)|
    ensures Reaches(c, more, t, org, peak, revivals) && Steady(t, n') && Late(t, org) == Late(s, org)
    ensures |ActiveOf(t.rows, org)| == |ActiveOf(s.rows, org)| + m && |InFlight(t, org)| == |InFlight(s, org)| - m
    decreases m
  {
    hide Reaches, Steady, InFlight, Late;
    if m == 0 {
      more, t, n' := run, s, n;
    } else {
      NewName(s, n, org);
      more, t := InsertOne(c, run, s, n, org, peak, revivals);
      InsertKeepsLate(s, t, Name(n), org);
      assert Name(n) !in ActiveOf(s.rows, org);
      more, t, n' := InsertMany(c, more, t, n + 1, org, peak, revivals, m - 1);
    }
  }

  lemma StartIs(c: Settings, s: State, id: JobId, org: string)
    requires id in Late(s, org)
    ensures Enabled(s, Start(id)) && Revives(s, Start(id), org)
    ensures var t := Next(c, s, Start(id));
      && Late(t, org) == Late(s, org) - {id}
      && ActiveOf(t.rows, org) == ActiveOf(s.rows, org) + {id} && id !in ActiveOf(s.rows, org)
  {
  }

  lemma {:induction false} StartMany(c: Settings, run: Run, s: State, org: string, peak: nat, revivals: nat, m: nat)
    returns (more: Run, t: State)
    requires Reaches(c, run, s, org, peak, revivals) && m <= |Late(s, org)|
    ensures Reaches(c, more, t, org, peak, revivals + m) && |ActiveOf(t.rows, org)| == |ActiveOf(s.rows, org)| + m
    decreases m
  {
    hide Reaches, Late, ActiveOf, Next, Enabled, Revives;
    if m == 0 {
      more, t := run, s;
    } else {
      var id :| id in Late(s, org);
      StartIs(c, s, id, org);
      more := Quietly(c, run, s, Start(id), org, peak, revivals);
      more, t := StartMany(c, more, Next(c, s, Start(id)), org, peak, revivals + 1, m - 1);
    }
  }

  lemma InitialIs(c: Settings, org: string)
    ensures Reaches(c, Nothing, Initial, org, 0, 0) && Steady(Initial, 0)
    ensures InFlight(Initial, org) == {} && ActiveOf(Initial.rows, org) == {} && Late(Initial, org) == {}
  {
    AtTheStart(c, org);
  }

  /** One request after the other, up to one job below the limit. */
  lemma NearlyFull(c: Settings, org: string, late: nat) returns (run: Run, s: State, n: nat, peak: nat)
    requires c.maxConcurrent >= 1
    ensures peak <= 1 && Reaches(c, run, s, org, peak, 0) && Steady(s, n)
    ensures InFlight(s, org) == {} && |ActiveOf(s.rows, org)| == c.maxConcurrent - 1 && |Late(s, org)| == late
  {
    hide Steady, Late, InFlight, ActiveOf, Reaches;
    InitialIs(c, org);
    run, s, n := LateMany(c, Nothing, Initial, 0, org, 0, 0, late);
    peak := if late == 0 then 0 else 1;
    run, s, n := AddMany(c, run, s, n, org, peak, 0, c.maxConcurrent - 1);
    peak := if c.maxConcurrent == 1 then peak else 1;
  }

  /** The quota bound is attained for every limit, with any number of requests that count together
      and any number of late running writes. */
  lemma BoundAttained(c: Settings, org: string, together: nat, late: nat) returns (run: Run)
    requires c.maxConcurrent >= 1 && together >= 1
    ensures ValidRun(c, Initial, run) && Peak(c, run, org) == together && Revivals(c, run, org) == late
    ensures |ActiveOf(After(c, Initial, run).rows, org)| == c.maxConcurrent + together - 1 + late
  {
    hide Steady, Late, InFlight, ActiveOf, Reaches;
    var t, n, peak;
    run, t, n, peak := NearlyFull(c, org, late);
    run, t, n := AdmitMany(c, run, t, n, org, peak, 0, together);
    run, t, n := InsertMany(c, run, t, n, org, together, 0, together);
    run, t := StartMany(c, run, t, org, together, 0, late);
    Arrives(c, run, t, org, together, late);
  }

  lemma Arrives(c: Settings, run: Run, s: State, org: string, peak: nat, revivals: nat)
    requires Reaches(c, run, s, org, peak, revivals)
    ensures ValidRun(c, Initial, run) && After(c, Initial, run) == s
    ensures Peak(c, run, org) == peak && Revivals(c, run, org) == revivals
  {
  }

  /** With at most `together` requests between their count and their insert, and at most `late` late
      running writes, an org stays within `most` active jobs in every run. */
  ghost predicate StaysWithin(c: Settings, org: string, together: nat, late: nat, most: int) {
    forall run | ValidRun(c, Initial, run) && Peak(c, run, org) <= together && Revivals(c, run, org) <= late ::
      |ActiveOf(After(c, Initial, run).rows, org)| <= most
  }

  /** The exact quota: it is `max + together - 1 + late`. */
  lemma QuotaExact(c: Settings, org: string, together: nat, late: nat, most: int)
    requires c.maxConcurrent >= 1 && together >= 1
    ensures StaysWithin(c, org, together, late, most) <==> most >= c.maxConcurrent + together - 1 + late
  {
    var _ := BoundAttained(c, org, together, late);
    if most >= c.maxConcurrent + together - 1 + late {
      forall run | ValidRun(c, Initial, run) && Peak(c, run, org) <= together && Revivals(c, run, org) <= late
        ensures |ActiveOf(After(c, Initial, run).rows, org)| <= most
      {
        QuotaBound(c, run, org);
      }
    }
  }

  /** The documented limit holds if and only if requests count one at a time and no running write
      comes late. */
  lemma DocumentedLimit(c: Settings, org: string, together: nat, late: nat)
    requires c.maxConcurrent >= 1 && together >= 1
    ensures StaysWithin(c, org, together, late, c.maxConcurrent) <==> together == 1 && late == 0
  {
    QuotaExact(c, org, together, late, c.maxConcurrent);
  }

  // ----- A late start that begins with a sweep

  /** A first job. */
  lemma FirstJob(c: Settings, org: string) returns (run: Run, s: State)
    requires c.maxConcurrent >= 1
    ensures s == Initial.(requests := map["r" := Done(org)], rows := map["a" := NewRow(org, "u", 0)])
    ensures Reaches(c, run, s, org, 1, 0)
  {
    AtTheStart(c, org);
    var s1 := Initial.(requests := map["r" := PendingSwept(org)]);
    var s2 := Initial.(requests := map["r" := Admitted(org)]);
    run := Asked(c, Nothing, Initial, "r", org, 0, 0);
    assert InFlight(s1, org) == {};
    run := Admits(c, run, s1, "r", org, 0, 0);
    assert s1.requests["r" := Admitted(org)] == s2.requests && s2.requests["r" := Done(org)] == map["r" := Done(org)];
    run := Quietly(c, run, s2, Insert("r", "a", "u"), org, 1, 0);
    s := s2.(requests := map["r" := Done(org)], rows := map["a" := NewRow(org, "u", 0)]);
  }

  /** Its worker has loaded its row and then takes longer than the timeout. */
  lemma LoadedLate(c: Settings, org: string) returns (run: Run, s: State)
    requires c.maxConcurrent >= 1
    ensures s == State(map["a" := NewRow(org, "u", 0)], COUNT_TIMEOUT + 1, map["r" := Done(org)], map["a" := Loaded], map[])
    ensures Reaches(c, run, s, org, 1, 0)
  {
    hide Reaches;
    var s3;
    run, s3 := FirstJob(c, org);
    var s4 := s3.(workers := map["a" := Queued]);
    var s5 := s3.(workers := map["a" := Loaded]);
    run := Quietly(c, run, s3, Enqueue("a"), org, 1, 0);
    assert s4.workers["a" := Loaded] == s5.workers;
    run := Quietly(c, run, s4, Load("a"), org, 1, 0);
    run := Quietly(c, run, s5, Tick((COUNT_TIMEOUT + 1) as nat), org, 1, 0);
    s := s5.(now := COUNT_TIMEOUT + 1);
  }

  /** The next request, though it comes alone, gives that job up as never started. */
  lemma GivenUp(c: Settings, org: string) returns (run: Run, s: State)
    requires c.maxConcurrent >= 1
    ensures var failed := NewRow(org, "u", 0).(status := Failed, error := Some(NEVER_STARTED));
      s == State(map["a" := failed], COUNT_TIMEOUT + 1, map["r" := Done(org), "q" := Admitted(org)], map["a" := Loaded], map[])
    ensures Reaches(c, run, s, org, 1, 0)
  {
    var before;
    run, before := LoadedLate(c, org);
    var failed := NewRow(org, "u", 0).(status := Failed, error := Some(NEVER_STARTED));
    assert ExpirePending(ExpireRunning(before.rows, org, 1), org, 1) == map["a" := failed];
    var swept := before.(rows := map["a" := failed], requests := before.requests["q" := PendingSwept(org)]);
    run := Asked(c, run, before, "q", org, 1, 0);
    assert ActiveOf(swept.rows, org) == {} && InFlight(swept, org) == {};
    run := Admits(c, run, swept, "q", org, 1, 0);
    s := swept.(requests := swept.requests["q" := Admitted(org)]);
    assert s.requests == map["r" := Done(org), "q" := Admitted(org)];
  }

  lemma OneInFlight(s: State, org: string)
    requires s.requests == map["r" := Done(org), "q" := Admitted(org)]
    ensures |InFlight(s, org)| == 1
  {
    assert InFlight(s, org) == {"q"};
  }

  lemma OneLate(s: State, org: string)
    requires s.rows.Keys == {"a"} && s.rows["a"].org == org && s.rows["a"].status == Failed
    requires s.workers == map["a" := Loaded]
    ensures |Late(s, org)| == 1
  {
    assert Late(s, org) == {"a"};
  }

  lemma GivenUpIs(s: State, org: string)
    requires var failed := NewRow(org, "u", 0).(status := Failed, error := Some(NEVER_STARTED));
      && s.rows == map["a" := failed] && s.workers == map["a" := Loaded]
      && s.requests == map["r" := Done(org), "q" := Admitted(org)]
    ensures Steady(s, 2) && ActiveOf(s.rows, org) == {}
    ensures |InFlight(s, org)| == 1 && |Late(s, org)| == 1
  {
    hide InFlight, Late;
    OneInFlight(s, org);
    OneLate(s, org);
  }

  /** When its worker starts after all, the org has one job more than its limit, though no two requests
      ever counted together. */
  lemma LateStart(c: Settings, org: string) returns (run: Run)
    requires c.maxConcurrent >= 1
    ensures ValidRun(c, Initial, run) && Peak(c, run, org) == 1 && Revivals(c, run, org) == 1
    ensures |ActiveOf(After(c, Initial, run).rows, org)| == c.maxConcurrent + 1
  {
    var s, t, n;
    run, s := GivenUp(c, org);
    GivenUpIs(s, org);
    hide Steady, Late, InFlight, ActiveOf, Reaches;
    run, t, n := InsertMany(c, run, s, 2, org, 1, 0, 1);
    run, t, n := AddMany(c, run, t, n, org, 1, 0, c.maxConcurrent - 1);
    run, t := StartMany(c, run, t, org, 1, 0, 1);
    Arrives(c, run, t, org, 1, 1);
  }
}
