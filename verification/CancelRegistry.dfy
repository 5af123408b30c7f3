/** Background jobs with the registry of their cancel functions. Each critical section of the registry's
    mutex is one step; the runs of all jobs, and all cancel requests, may come between any two. */
module CancelRegistry {
  import Discovery

  type JobId = nat

  type RequestId = nat

  /** A background job: not registered yet; registered and running; removed from the registry; and with
      its context released. */
  datatype Phase = Created | Registered | Removed | Released

  datatype Background = Background(phase: Phase, job: Discovery.Job, run: Discovery.State)

  datatype Reply = NotFound | NotRunning | Cancelling

  /** A cancel request for a job: it holds the function that cancels the context of `ctx`, or is answered. */
  datatype Request = Found(job: JobId, ctx: JobId) | Answered(job: JobId, reply: Reply)

  /** `cancels` maps a job to the job whose context its cancel function cancels. */
  datatype Sys = Sys(jobs: map<JobId, Background>, cancels: map<JobId, JobId>, requests: map<RequestId, Request>)

  datatype Action =
    | Create(j: JobId, job: Discovery.Job)
    | Register(j: JobId)
    | Proceed(j: JobId, a: Discovery.Action)
    | Remove(j: JobId)
    | Release(j: JobId)
    | LookUp(r: RequestId, j: JobId, failed: bool)
    | Fire(r: RequestId)

  const START := Sys(map[], map[], map[])

  /** Cancelling a context twice is cancelling it once. */
  function Cancelled(b: Background): Background { b.(run := b.run.(cancelled := true)) }

  predicate In(s: Sys, j: JobId, phase: Phase) { j in s.jobs && s.jobs[j].phase == phase }

  predicate Enabled(s: Sys, a: Action) {
    match a
    case Create(j, _) => j !in s.jobs
    case Register(j) => In(s, j, Created)
    case Proceed(j, b) => In(s, j, Registered) && !b.Cancel? && Discovery.Enabled(s.jobs[j].job, s.jobs[j].run, b)
    case Remove(j) => In(s, j, Registered) && s.jobs[j].run.launcher.Returned?
    case Release(j) => In(s, j, Removed)
    case LookUp(r, _, _) => r !in s.requests
    case Fire(r) => r in s.requests && s.requests[r].Found?
  }

  /** What the handler does once it has looked the job up. `failed` says that the database could not
      tell: such an error is ignored, and the registry decides alone. */
  function LookedUp(s: Sys, j: JobId, failed: bool): Request {
    if j !in s.jobs && !failed then Answered(j, NotFound)
    else if j !in s.cancels then Answered(j, NotRunning)
    else Found(j, s.cancels[j])
  }

  function Step(s: Sys, a: Action): Sys
    requires Enabled(s, a)
  {
    match a
    case Create(j, job) => s.(jobs := s.jobs[j := Background(Created, job, Discovery.START)])
    case Register(j) => s.(jobs := s.jobs[j := s.jobs[j].(phase := Registered)], cancels := s.cancels[j := j])
    case Proceed(j, b) =>
      s.(jobs := s.jobs[j := s.jobs[j].(run := Discovery.Step(s.jobs[j].job, s.jobs[j].run, b))])
    case Remove(j) => s.(jobs := s.jobs[j := s.jobs[j].(phase := Removed)], cancels := s.cancels - {j})
    case Release(j) => s.(jobs := s.jobs[j := Cancelled(s.jobs[j]).(phase := Released)])
    case LookUp(r, j, failed) => s.(requests := s.requests[r := LookedUp(s, j, failed)])
    case Fire(r) =>
      var (j, ctx) := (s.requests[r].job, s.requests[r].ctx);
      var s' := s.(requests := s.requests[r := Answered(j, Cancelling)]);
      if ctx in s.jobs then s'.(jobs := s.jobs[ctx := Cancelled(s.jobs[ctx])]) else s'
  }

  ghost predicate Leads(s: Sys, schedule: seq<Action>, t: Sys)
    decreases |schedule|
  {
    if schedule == [] then s == t
    else Enabled(s, schedule[0]) && Leads(Step(s, schedule[0]), schedule[1..], t)
  }

  ghost predicate Reaches(schedule: seq<Action>, s: Sys) { Leads(START, schedule, s) }

  // ----- the invariant -----

  /** The job's run is one of the discovery system, so that all that is proved there holds of it. */
  ghost predicate IsRun(job: Discovery.Job, run: Discovery.State) {
    exists steps :: Discovery.Reaches(job, steps, run)
  }

  ghost predicate Requested(requests: map<RequestId, Request>, j: JobId) {
    exists r :: r in requests && requests[r] == Answered(j, Cancelling)
  }

  predicate EndsCancelled(run: Discovery.State) {
    run.status.Cancelled? || run.launcher == Discovery.Finishing(Discovery.Cancelled)
  }

  ghost predicate JobOk(b: Background, requested: bool) {
    && IsRun(b.job, b.run)
    && (b.phase.Created? ==> b.run == Discovery.START)
    && (b.phase.Removed? || b.phase.Released? ==> b.run.launcher.Returned?)
    && (b.phase.Released? ==> b.run.cancelled)
    && (b.run.cancelled && !b.phase.Released? ==> requested)
    && (EndsCancelled(b.run) ==> requested)
  }

  predicate RequestOk(jobs: map<JobId, Background>, q: Request) {
    match q
    case Found(j, ctx) => ctx == j && j in jobs && !jobs[j].phase.Created?
    case Answered(j, Cancelling) => j in jobs && jobs[j].run.cancelled
    case _ => true
  }

  predicate RegistryOk(jobs: map<JobId, Background>, cancels: map<JobId, JobId>) {
    && (forall j | j in jobs :: j in cancels <==> jobs[j].phase.Registered?)
    && (forall j | j in cancels :: j in jobs && cancels[j] == j)
  }

  ghost predicate JobsOk(jobs: map<JobId, Background>, requests: map<RequestId, Request>) {
    forall j | j in jobs :: JobOk(jobs[j], Requested(requests, j))
  }

  predicate RequestsOk(jobs: map<JobId, Background>, requests: map<RequestId, Request>) {
    forall r | r in requests :: RequestOk(jobs, requests[r])
  }

  ghost predicate Inv(s: Sys) {
    RegistryOk(s.jobs, s.cancels) && JobsOk(s.jobs, s.requests) && RequestsOk(s.jobs, s.requests)
  }

  lemma StartIsRun(job: Discovery.Job)
    ensures IsRun(job, Discovery.START)
  {
    assert Discovery.Reaches(job, [], Discovery.START);
  }

  lemma RunGoesOn(job: Discovery.Job, run: Discovery.State, a: Discovery.Action)
    requires IsRun(job, run) && Discovery.Enabled(job, run, a)
    ensures IsRun(job, Discovery.Step(job, run, a))
  {
    var steps :| Discovery.Reaches(job, steps, run);
    Discovery.LeadsOn(job, Discovery.START, steps, run, a);
    assert Discovery.Reaches(job, steps + [a], Discovery.Step(job, run, a));
  }

  lemma CancelledIsRun(b: Background)
    requires IsRun(b.job, b.run)
    ensures IsRun(b.job, Cancelled(b).run)
  {
    if !b.run.cancelled {
      RunGoesOn(b.job, b.run, Discovery.Cancel);
    } else {
      assert Cancelled(b) == b;
    }
  }

  lemma ProceedOk(b: Background, a: Discovery.Action, requested: bool)
    requires JobOk(b, requested) && b.phase.Registered? && !a.Cancel? && Discovery.Enabled(b.job, b.run, a)
    ensures JobOk(b.(run := Discovery.Step(b.job, b.run, a)), requested)
    ensures Discovery.Step(b.job, b.run, a).cancelled == b.run.cancelled
  {
    RunGoesOn(b.job, b.run, a);
  }

  lemma JobsUpdate(jobs: map<JobId, Background>, requests: map<RequestId, Request>, j: JobId, b: Background)
    requires JobsOk(jobs, requests) && JobOk(b, Requested(requests, j))
    ensures JobsOk(jobs[j := b], requests)
  {
  }

  /** The job moves on: it does not go back to being unregistered, and takes back no cancellation. */
  lemma RequestsUpdate(jobs: map<JobId, Background>, requests: map<RequestId, Request>, j: JobId, b: Background)
    requires RequestsOk(jobs, requests)
    requires j in jobs ==> (b.phase.Created? ==> jobs[j].phase.Created?) && (jobs[j].run.cancelled ==> b.run.cancelled)
    ensures RequestsOk(jobs[j := b], requests)
  {
    forall r | r in requests ensures RequestOk(jobs[j := b], requests[r]) {
      assert RequestOk(jobs, requests[r]);
    }
  }

  /** A request changes: the jobs for which one is answered as cancelling are at least those of before. */
  lemma JobsRequests(jobs: map<JobId, Background>, requests: map<RequestId, Request>, r: RequestId, q: Request)
    requires JobsOk(jobs, requests) && (r in requests ==> requests[r].Found?)
    ensures JobsOk(jobs, requests[r := q])
  {
    forall j | j in jobs ensures JobOk(jobs[j], Requested(requests[r := q], j)) {
      RequestedStays(requests, r, q, j);
      assert JobOk(jobs[j], Requested(requests, j));
    }
  }

  lemma RequestedStays(requests: map<RequestId, Request>, r: RequestId, q: Request, j: JobId)
    requires r in requests ==> requests[r].Found?
    ensures Requested(requests, j) ==> Requested(requests[r := q], j)
  {
    if Requested(requests, j) {
      var p :| p in requests && requests[p] == Answered(j, Cancelling);
      assert p in requests[r := q] && requests[r := q][p] == Answered(j, Cancelling);
    }
  }

  lemma FireKeepsInv(s: Sys, r: RequestId)
    requires Inv(s) && Enabled(s, Fire(r))
    ensures Inv(Step(s, Fire(r)))
  {
    var j, fired := s.requests[r].job, Answered(s.requests[r].job, Cancelling);
    assert RequestOk(s.jobs, s.requests[r]);
    var b, requests := Cancelled(s.jobs[j]), s.requests[r := fired];
    assert requests[r] == Answered(j, Cancelling);
    assert JobOk(s.jobs[j], Requested(s.requests, j));
    CancelledIsRun(s.jobs[j]);
    JobsRequests(s.jobs, s.requests, r, fired);
    JobsUpdate(s.jobs, requests, j, b);
    RequestsUpdate(s.jobs, s.requests, j, b);
  }

  /** The job that a step of a background goroutine leaves. */
  function Moved(s: Sys, a: Action): Background
    requires Enabled(s, a) && !a.LookUp? && !a.Fire?
  {
    Step(s, a).jobs[a.j]
  }

  lemma MovedOk(s: Sys, a: Action)
    requires Inv(s) && Enabled(s, a) && !a.LookUp? && !a.Fire?
    ensures JobOk(Moved(s, a), Requested(s.requests, a.j))
    ensures a.j in s.jobs ==> (Moved(s, a).phase.Created? ==> s.jobs[a.j].phase.Created?)
    ensures a.j in s.jobs ==> (s.jobs[a.j].run.cancelled ==> Moved(s, a).run.cancelled)
  {
    if a.j in s.jobs { assert JobOk(s.jobs[a.j], Requested(s.requests, a.j)); }
    match a
    case Create(_, job) => StartIsRun(job);
    case Proceed(j, b) => ProceedOk(s.jobs[j], b, Requested(s.requests, j));
    case Release(j) => CancelledIsRun(s.jobs[j]);
    case _ =>
  }

  lemma MovesOneJob(s: Sys, a: Action)
    requires Enabled(s, a) && !a.LookUp? && !a.Fire?
    ensures Step(s, a).jobs == s.jobs[a.j := Moved(s, a)] && Step(s, a).requests == s.requests
    ensures RegistryOk(s.jobs, s.cancels) ==> RegistryOk(Step(s, a).jobs, Step(s, a).cancels)
  {
  }

  lemma LookUpKeepsInv(s: Sys, r: RequestId, j: JobId, failed: bool)
    requires Inv(s) && Enabled(s, LookUp(r, j, failed))
    ensures Inv(Step(s, LookUp(r, j, failed)))
  {
    JobsRequests(s.jobs, s.requests, r, LookedUp(s, j, failed));
  }

  lemma StepKeepsInv(s: Sys, a: Action)
    requires Inv(s) && Enabled(s, a)
    ensures Inv(Step(s, a))
  {
    match a
    case Fire(r) => FireKeepsInv(s, r);
    case LookUp(r, j, failed) => LookUpKeepsInv(s, r, j, failed);
    case _ =>
      MovesOneJob(s, a);
      MovedOk(s, a);
      JobsUpdate(s.jobs, s.requests, a.j, Moved(s, a));
      RequestsUpdate(s.jobs, s.requests, a.j, Moved(s, a));
  }

  // ----- every schedule -----

  /** What every step of a schedule keeps, the schedule keeps. */
  lemma {:induction false} ScheduleKeeps(inv: Sys -> bool, s: Sys, schedule: seq<Action>, t: Sys)
    requires forall u, a | inv(u) && Enabled(u, a) :: inv(Step(u, a))
    requires inv(s) && Leads(s, schedule, t)
    ensures inv(t)
    decreases |schedule|
  {
    if schedule != [] { ScheduleKeeps(inv, Step(s, schedule[0]), schedule[1..], t); }
  }

  lemma ReachableInv(schedule: seq<Action>, s: Sys)
    requires Reaches(schedule, s)
    ensures Inv(s)
  {
    forall u, a | Inv(u) && Enabled(u, a) ensures Inv(Step(u, a)) { StepKeepsInv(u, a); }
    ScheduleKeeps(Inv, START, schedule, s);
  }

  /** The registry holds exactly the jobs whose background run has registered and not returned its entry,
      each with the function of its own context; and each job's run is one of the discovery system. */
  lemma RegistryIsExact(schedule: seq<Action>, s: Sys, j: JobId)
    requires Reaches(schedule, s)
    ensures j in s.cancels <==> In(s, j, Registered)
    ensures j in s.cancels ==> s.cancels[j] == j
    ensures j in s.jobs ==> IsRun(s.jobs[j].job, s.jobs[j].run)
    ensures j in s.jobs && !s.jobs[j].run.launcher.Returned? && s.jobs[j].run != Discovery.START ==> j in s.cancels
  {
    ReachableInv(schedule, s);
    if j in s.jobs { assert JobOk(s.jobs[j], Requested(s.requests, j)); }
  }

  /** A request finds a cancel function exactly when its job is registered at that moment: before the
      background run has registered it, and after the run is over, it answers that nothing is running. A
      job that does not exist is reported as such, unless the database could not tell; then it is answered
      as one that is not running. */
  lemma LookUpTells(schedule: seq<Action>, s: Sys, r: RequestId, j: JobId, failed: bool)
    requires Reaches(schedule, s) && r !in s.requests
    ensures Step(s, LookUp(r, j, failed)).requests[r] ==
            if In(s, j, Registered) then Found(j, j)
            else if j in s.jobs || failed then Answered(j, NotRunning)
            else Answered(j, NotFound)
  {
    ReachableInv(schedule, s);
  }

  /** Cancelling a job leaves every other job, and the registry, as they are. */
  lemma OnlyItsJob(schedule: seq<Action>, s: Sys, r: RequestId, k: JobId)
    requires Reaches(schedule, s) && Enabled(s, Fire(r))
    ensures var t := Step(s, Fire(r));
            && t.cancels == s.cancels && t.jobs.Keys == s.jobs.Keys
            && s.requests[r].job in t.jobs && t.jobs[s.requests[r].job].run.cancelled
            && (k in s.jobs && k != s.requests[r].job ==> t.jobs[k] == s.jobs[k])
  {
    ReachableInv(schedule, s);
    assert RequestOk(s.jobs, s.requests[r]);
  }

  /** A job ends cancelled, and sees its context cancelled before it is over, only on request. */
  lemma CancelledOnlyOnRequest(schedule: seq<Action>, s: Sys, j: JobId)
    requires Reaches(schedule, s) && j in s.jobs
    requires s.jobs[j].run.status.Cancelled? || (s.jobs[j].run.cancelled && !s.jobs[j].phase.Released?)
    ensures exists r :: r in s.requests && s.requests[r] == Answered(j, Cancelling)
  {
    ReachableInv(schedule, s);
    assert JobOk(s.jobs[j], Requested(s.requests, j));
  }

  predicate Stopping(run: Discovery.State, most: nat) {
    run.cancelled && Discovery.BeforeFinalCheck(run) && |run.scans| + Discovery.WaitingForSlot(run) <= most
  }

  lemma StoppingStep(job: Discovery.Job, run: Discovery.State, a: Discovery.Action, most: nat)
    requires Stopping(run, most) && Discovery.Enabled(job, run, a)
    ensures Stopping(Discovery.Step(job, run, a), most)
  {
  }

  lemma StaysStopping(s: Sys, a: Action, j: JobId, most: nat)
    requires j in s.jobs && Stopping(s.jobs[j].run, most) && Enabled(s, a)
    ensures j in Step(s, a).jobs && Stopping(Step(s, a).jobs[j].run, most)
  {
    if a.Proceed? && a.j == j { StoppingStep(s.jobs[j].job, s.jobs[j].run, a.a, most); }
  }

  /** A request answered as cancelling before the job's final check is honoured: whatever happens later,
      the job does not end completed, and it launches at most the one scan that was waiting for a slot. */
  lemma CancellationIsHonoured(before: seq<Action>, s: Sys, r: RequestId, j: JobId, later: seq<Action>, t: Sys)
    requires Reaches(before, s) && r in s.requests && s.requests[r] == Answered(j, Cancelling)
    requires j in s.jobs && Leads(s, later, t)
    requires !s.jobs[j].run.status.Completed? && s.jobs[j].run.launcher != Discovery.Finishing(Discovery.Completed)
    ensures j in t.jobs && !t.jobs[j].run.status.Completed?
    ensures |t.jobs[j].run.scans| <= |s.jobs[j].run.scans| + if s.jobs[j].run.launcher.Blocked? then 1 else 0
  {
    ReachableInv(before, s);
    assert RequestOk(s.jobs, s.requests[r]);
    var most := |s.jobs[j].run.scans| + Discovery.WaitingForSlot(s.jobs[j].run);
    forall u: Sys, a | j in u.jobs && Stopping(u.jobs[j].run, most) && Enabled(u, a)
      ensures j in Step(u, a).jobs && Stopping(Step(u, a).jobs[j].run, most)
    {
      StaysStopping(u, a, j, most);
    }
    ScheduleKeeps((u: Sys) => j in u.jobs && Stopping(u.jobs[j].run, most), s, later, t);
  }

  /** When all background runs are over, the registry is empty. */
  lemma RegistryEmpties(schedule: seq<Action>, s: Sys)
    requires Reaches(schedule, s) && forall j | j in s.jobs :: s.jobs[j].phase.Released?
    ensures s.cancels == map[]
  {
    ReachableInv(schedule, s);
    forall j ensures j !in s.cancels {}
  }
}
