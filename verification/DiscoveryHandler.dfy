/** The handler's two methods around the registry of cancel functions, as sequential code with other
    requests and jobs moving between its critical sections. */
module DiscoveryHandler {
  import opened CancelRegistry
  import Discovery
  import Orchestrator

  lemma {:induction false} LeadsOn(s: Sys, schedule: seq<Action>, t: Sys, a: Action)
    requires Leads(s, schedule, t) && Enabled(t, a)
    ensures Leads(s, schedule + [a], Step(t, a))
    decreases |schedule|
  {
    if schedule == [] {
      assert (schedule + [a])[1..] == [];
    } else {
      LeadsOn(Step(s, schedule[0]), schedule[1..], t, a);
      assert (schedule + [a])[1..] == schedule[1..] + [a];
    }
  }

  /** Whose code is running: a background goroutine, or a cancel request. */
  datatype Party = Goroutine(j: JobId) | Canceller(r: RequestId)

  /** A step that the party does not take itself. */
  predicate OfOthers(a: Action, me: Party) {
    match me
    case Goroutine(j) => (a.Register? || a.Remove? || a.Release?) ==> a.j != j
    case Canceller(r) => (a.LookUp? || a.Fire?) ==> a.r != r
  }

  /** How many steps the job's run may still take. */
  function WorkLeft(s: Sys, j: JobId): nat
    requires j in s.jobs
  {
    Orchestrator.WorkLeft(s.jobs[j].job, s.jobs[j].run)
  }

  /** What others leave to the party: its phase, or its request. */
  ghost predicate Untouched(s: Sys, t: Sys, me: Party) {
    match me
    case Goroutine(j) =>
      j in s.jobs ==>
        && j in t.jobs && t.jobs[j].phase == s.jobs[j].phase && WorkLeft(t, j) <= WorkLeft(s, j)
        && (s.jobs[j].run.launcher.Returned? ==> t.jobs[j].run.launcher.Returned?)
    case Canceller(r) =>
      (r in t.requests <==> r in s.requests) && (r in s.requests ==> t.requests[r] == s.requests[r])
  }

  lemma WorkNeverGrows(job: Discovery.Job, run: Discovery.State, a: Discovery.Action)
    requires Discovery.Enabled(job, run, a)
    ensures Orchestrator.WorkLeft(job, Discovery.Step(job, run, a)) <= Orchestrator.WorkLeft(job, run)
    ensures run.launcher.Returned? ==> Discovery.Step(job, run, a).launcher.Returned?
  {
    Discovery.StepWorks(job, run, a);
  }

  lemma OthersLeave(s: Sys, a: Action, me: Party)
    requires Enabled(s, a) && OfOthers(a, me)
    ensures Untouched(s, Step(s, a), me)
  {
    if me.Goroutine? && a.Proceed? && a.j == me.j { WorkNeverGrows(s.jobs[me.j].job, s.jobs[me.j].run, a.a); }
  }

  lemma UntouchedTrans(s: Sys, t: Sys, u: Sys, me: Party)
    requires Untouched(s, t, me) && Untouched(t, u, me)
    ensures Untouched(s, u, me)
  {
  }

  lemma ProceedLeavesLess(schedule: seq<Action>, s: Sys, j: JobId, b: Discovery.Action)
    requires Reaches(schedule, s) && Enabled(s, Proceed(j, b))
    ensures WorkLeft(Step(s, Proceed(j, b)), j) < WorkLeft(s, j)
  {
    RegistryIsExact(schedule, s, j);
    var steps :| Discovery.Reaches(s.jobs[j].job, steps, s.jobs[j].run);
    Orchestrator.StepLeavesLess(s.jobs[j].job, steps, s.jobs[j].run, b);
  }

  /** Until its run has returned, a registered job can take a step. */
  lemma JobGoesOn(schedule: seq<Action>, s: Sys, j: JobId)
    requires Reaches(schedule, s) && In(s, j, Registered) && !s.jobs[j].run.launcher.Returned?
    ensures Enabled(s, Proceed(j, Discovery.NextAction(s.jobs[j].run)))
  {
    RegistryIsExact(schedule, s, j);
    var steps :| Discovery.Reaches(s.jobs[j].job, steps, s.jobs[j].run);
    Discovery.NeverStuck(s.jobs[j].job, steps, s.jobs[j].run);
  }

  class Handler {
    var jobs: map<JobId, Background>
    var cancels: map<JobId, JobId>
    var requests: map<RequestId, Request>
    ghost var schedule: seq<Action>

    ghost function Snapshot(): Sys
      reads this
    {
      Sys(jobs, cancels, requests)
    }

    ghost predicate Valid()
      reads this
    {
      Reaches(schedule, Snapshot())
    }

    constructor ()
      ensures Valid() && Snapshot() == START
    {
      jobs, cancels, requests, schedule := map[], map[], map[], [];
    }

    /** Any step, by anyone. */
    method Take(a: Action)
      requires Valid() && Enabled(Snapshot(), a)
      modifies this
      ensures Valid() && Snapshot() == Step(old(Snapshot()), a)
    {
      LeadsOn(START, schedule, Snapshot(), a);
      var s := Step(Sys(jobs, cancels, requests), a);
      jobs, cancels, requests := s.jobs, s.cancels, s.requests;
      schedule := schedule + [a];
    }

    method Others(me: Party)
      requires Valid()
      modifies this
      ensures Valid() && Untouched(old(Snapshot()), Snapshot(), me)
    {
      var steps: int := *;
      while steps > 0
        invariant Valid() && Untouched(old(Snapshot()), Snapshot(), me)
      {
        steps := steps - 1;
        var a: Action := *;
        if OfOthers(a, me) && Enabled(Sys(jobs, cancels, requests), a) {
          ghost var before := Snapshot();
          OthersLeave(before, a, me);
          Take(a);
          UntouchedTrans(old(Snapshot()), before, Snapshot(), me);
        }
      }
    }

    /** Look the cancel function up under the mutex, and call it outside of it. `failed` says that the
        database could not tell whether there is such a job. */
    method Cancel(r: RequestId, j: JobId, failed: bool) returns (reply: Reply)
      requires Valid() && r !in requests
      modifies this
      ensures Valid() && r in requests && requests[r] == Answered(j, reply)
      ensures reply ==
              if In(old(Snapshot()), j, Registered) then Cancelling
              else if j in old(jobs) || failed then NotRunning
              else NotFound
      ensures reply.Cancelling? ==> j in jobs && jobs[j].run.cancelled
    {
      LookUpTells(schedule, Snapshot(), r, j, failed);
      Take(LookUp(r, j, failed));
      if requests[r].Answered? { return requests[r].reply; }
      Others(Canceller(r));
      OnlyItsJob(schedule, Snapshot(), r, j);
      Take(Fire(r));
      return Cancelling;
    }

    /** The background goroutine: register, run to the end, and clean up. */
    method RunInBackground(j: JobId)
      requires Valid() && In(Snapshot(), j, Created)
      modifies this
      ensures Valid() && In(Snapshot(), j, Released) && j !in cancels && jobs[j].run.launcher.Returned?
    {
      Others(Goroutine(j));
      Take(Register(j));
      while !jobs[j].run.launcher.Returned?
        invariant Valid() && In(Snapshot(), j, Registered)
        decreases WorkLeft(Snapshot(), j)
      {
        var b: Discovery.Action := *;
        if !Enabled(Sys(jobs, cancels, requests), Proceed(j, b)) {
          JobGoesOn(schedule, Snapshot(), j);
          b := Discovery.NextAction(jobs[j].run);
        }
        ProceedLeavesLess(schedule, Snapshot(), j, b);
        Take(Proceed(j, b));
        Others(Goroutine(j));
      }
      Take(Remove(j));
      Others(Goroutine(j));
      Take(Release(j));
      RegistryIsExact(schedule, Snapshot(), j);
    }
  }
}
