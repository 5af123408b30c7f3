/** The discovery run as a step system: a launcher that starts one scan per target, at most a limited
    number at a time, while the scans and a cancellation of the context may come between any two of its
    steps. What the network and the database answer is part of the action, so that a property of every
    run is one under all answers. */
module Discovery {
  import opened Wrappers

  type Id = nat

  /** `host` stands for `hostOnly`, which strips a port. */
  datatype Job = Job(targets: seq<string>, concurrency: int, host: string -> string)

  function Limit(job: Job): nat { if job.concurrency < 1 then 1 else job.concurrency }

  datatype Answer = Identity(sysName: string) | TimedOut | OtherError

  datatype ResultStatus = Success | NoResponse | SnmpError

  /** The result of one target; `failed` says that it has an error message. */
  datatype Outcome = Outcome(host: string, status: ResultStatus, sysName: string, failed: bool, element: Option<Id>)

  datatype Pc = Asking | Upserting | Recording | Assigning | Done

  /** A launched scan. `recorded` remembers that its result row was stored. */
  datatype Scan = Scan(target: string, pc: Pc, answer: Option<Answer>, outcome: Outcome, recorded: bool)

  datatype JobStatus = Pending | Running | Completed | Failed | Cancelled

  /** Where the run returned, and whether its last status write went through. */
  datatype Ending = NotStarted | NoRules(stored: bool) | Ended(stored: bool)

  datatype Launcher =
    | Starting | Loading | Failing
    | Checking | Blocked | Waiting
    | Deciding | Finishing(final: JobStatus) | Returned(ending: Ending)

  /** `scans` are the launched ones in launch order, and `active` is the number of slots taken. `rows` is
      the table of results; `writers` and `calls` remember which scans wrote them and which had their
      element assigned. */
  datatype State = State(
    launcher: Launcher, scans: seq<Scan>, active: int, cancelled: bool, status: JobStatus,
    rows: seq<Outcome>, writers: seq<nat>, calls: seq<nat>)

  const START := State(Starting, [], 0, false, Pending, [], [], [])

  datatype Action =
    | Cancel
    | WriteRunning(ok: bool) | LoadRules(ok: bool) | WriteFailed(ok: bool)
    | CheckContext | Launch | Drain | Decide | WriteFinal(ok: bool)
    | Reply(i: nat, answer: Answer) | Upsert(i: nat, element: Option<Id>) | Record(i: nat, ok: bool) | Assign(i: nat)

  predicate At(s: State, i: nat, pc: Pc) { i < |s.scans| && s.scans[i].pc == pc }

  predicate Enabled(job: Job, s: State, a: Action) {
    match a
    case Cancel => !s.cancelled
    case WriteRunning(_) => s.launcher.Starting?
    case LoadRules(_) => s.launcher.Loading?
    case WriteFailed(_) => s.launcher.Failing?
    case CheckContext => s.launcher.Checking?
    case Launch => s.launcher.Blocked? && s.active < Limit(job) && |s.scans| < |job.targets|
    case Drain => s.launcher.Waiting? && s.active == 0
    case Decide => s.launcher.Deciding?
    case WriteFinal(_) => s.launcher.Finishing?
    case Reply(i, _) => At(s, i, Asking)
    case Upsert(i, _) => At(s, i, Upserting)
    case Record(i, _) => At(s, i, Recording)
    case Assign(i) => At(s, i, Assigning)
  }

  function Launched(job: Job, target: string): Scan {
    Scan(target, Asking, None, Outcome(job.host(target), NoResponse, "", false, None), false)
  }

  /** What a scan does on its own: ask, store the element if there was an identity, record the result,
      and assign the element if there is one. */
  function Advanced(c: Scan, a: Action): Scan {
    match a
    case Reply(_, Identity(n)) =>
      c.(pc := Upserting, answer := Some(Identity(n)), outcome := c.outcome.(status := Success, sysName := n))
    case Reply(_, TimedOut) =>
      c.(pc := Recording, answer := Some(TimedOut), outcome := c.outcome.(status := NoResponse, failed := true))
    case Reply(_, OtherError) =>
      c.(pc := Recording, answer := Some(OtherError), outcome := c.outcome.(status := SnmpError, failed := true))
    case Upsert(_, element) => c.(pc := Recording, outcome := c.outcome.(element := element, failed := element.None?))
    case Record(_, ok) => c.(pc := if c.outcome.element.Some? then Assigning else Done, recorded := ok)
    case _ => c.(pc := Done)
  }

  /** The slot of a scan is given back when it is done. */
  function WithScan(s: State, i: nat, c: Scan): State
    requires i < |s.scans|
  {
    s.(scans := s.scans[i := c], active := if c.pc.Done? then s.active - 1 else s.active)
  }

  function Step(job: Job, s: State, a: Action): State
    requires Enabled(job, s, a)
  {
    match a
    case Cancel => s.(cancelled := true)
    case WriteRunning(ok) =>
      if ok then s.(launcher := Loading, status := Running) else s.(launcher := Returned(NotStarted))
    case LoadRules(ok) => s.(launcher := if ok then Checking else Failing)
    case WriteFailed(ok) => s.(launcher := Returned(NoRules(ok)), status := if ok then Failed else s.status)
    case CheckContext => s.(launcher := if |s.scans| < |job.targets| && !s.cancelled then Blocked else Waiting)
    case Launch =>
      s.(launcher := Checking, scans := s.scans + [Launched(job, job.targets[|s.scans|])], active := s.active + 1)
    case Drain => s.(launcher := Deciding)
    case Decide => s.(launcher := Finishing(if s.cancelled then Cancelled else Completed))
    case WriteFinal(ok) => s.(launcher := Returned(Ended(ok)), status := if ok then s.launcher.final else s.status)
    case Reply(i, _) => WithScan(s, i, Advanced(s.scans[i], a))
    case Upsert(i, _) => WithScan(s, i, Advanced(s.scans[i], a))
    case Record(i, ok) =>
      var s' := WithScan(s, i, Advanced(s.scans[i], a));
      if ok then s'.(rows := s.rows + [s.scans[i].outcome], writers := s.writers + [i]) else s'
    case Assign(i) => WithScan(s, i, Advanced(s.scans[i], a)).(calls := s.calls + [i])
  }

  /** The run takes `s` to `t`. */
  predicate Leads(job: Job, s: State, run: seq<Action>, t: State)
    decreases |run|
  {
    if run == [] then s == t
    else Enabled(job, s, run[0]) && Leads(job, Step(job, s, run[0]), run[1..], t)
  }

  predicate Reaches(job: Job, run: seq<Action>, s: State) { Leads(job, START, run, s) }

  lemma {:induction false} LeadsOn(job: Job, s: State, run: seq<Action>, t: State, a: Action)
    requires Leads(job, s, run, t) && Enabled(job, t, a)
    ensures Leads(job, s, run + [a], Step(job, t, a))
    decreases |run|
  {
    if run == [] {
      assert (run + [a])[1..] == [];
    } else {
      LeadsOn(job, Step(job, s, run[0]), run[1..], t, a);
      assert (run + [a])[1..] == run[1..] + [a];
    }
  }

  // ----- sums over the scans -----

  function Sum(f: Scan -> nat, scans: seq<Scan>): nat {
    if scans == [] then 0 else Sum(f, scans[..|scans| - 1]) + f(scans[|scans| - 1])
  }

  lemma {:induction false} SumUpdate(f: Scan -> nat, scans: seq<Scan>, i: nat, c: Scan)
    requires i < |scans|
    ensures Sum(f, scans[i := c]) == Sum(f, scans) - f(scans[i]) + f(c)
  {
    var last := |scans| - 1;
    if i < last {
      SumUpdate(f, scans[..last], i, c);
      assert scans[i := c][..last] == scans[..last][i := c];
    } else {
      assert scans[i := c][..last] == scans[..last];
    }
  }

  lemma SumAppend(f: Scan -> nat, scans: seq<Scan>, c: Scan)
    ensures Sum(f, scans + [c]) == Sum(f, scans) + f(c)
  {
    assert (scans + [c])[..|scans|] == scans;
  }

  lemma {:induction false} SumAtLeast(f: Scan -> nat, scans: seq<Scan>, i: nat)
    requires i < |scans|
    ensures Sum(f, scans) >= f(scans[i])
  {
    if i < |scans| - 1 { SumAtLeast(f, scans[..|scans| - 1], i); }
  }

  function Open(c: Scan): nat { if c.pc.Done? then 0 else 1 }

  /** A scan that is not done. */
  function OpenScan(scans: seq<Scan>): (i: nat)
    requires Sum(Open, scans) > 0
    ensures i < |scans| && !scans[i].pc.Done?
  {
    var last := |scans| - 1;
    if scans[last].pc.Done? then OpenScan(scans[..last]) else last
  }

  /** The hosts of the scans whose result row was stored. */
  function RecordedHosts(scans: seq<Scan>): multiset<string> {
    if scans == [] then multiset{}
    else
      var c := scans[|scans| - 1];
      RecordedHosts(scans[..|scans| - 1]) + if c.recorded then multiset{c.outcome.host} else multiset{}
  }

  lemma {:induction false} RecordedUpdate(scans: seq<Scan>, i: nat, c: Scan)
    requires i < |scans| && !scans[i].recorded
    ensures RecordedHosts(scans[i := c])
         == RecordedHosts(scans) + if c.recorded then multiset{c.outcome.host} else multiset{}
  {
    var last := |scans| - 1;
    if i < last {
      RecordedUpdate(scans[..last], i, c);
      assert scans[i := c][..last] == scans[..last][i := c];
    } else {
      assert scans[i := c][..last] == scans[..last];
    }
  }

  lemma {:induction false} RecordedSame(scans: seq<Scan>, i: nat, c: Scan)
    requires i < |scans| && c.recorded == scans[i].recorded && c.outcome.host == scans[i].outcome.host
    ensures RecordedHosts(scans[i := c]) == RecordedHosts(scans)
  {
    var last := |scans| - 1;
    if i < last {
      RecordedSame(scans[..last], i, c);
      assert scans[i := c][..last] == scans[..last][i := c];
    } else {
      assert scans[i := c][..last] == scans[..last];
    }
  }

  function Hosts(rows: seq<Outcome>): seq<string> { seq(|rows|, k requires 0 <= k < |rows| => rows[k].host) }

  lemma HostsAppend(rows: seq<Outcome>, o: Outcome)
    ensures multiset(Hosts(rows + [o])) == multiset(Hosts(rows)) + multiset{o.host}
  {
    assert Hosts(rows + [o]) == Hosts(rows) + [o.host];
  }

  // ----- the invariant -----

  /** The result tells what the target answered; a success without an element has an error message. */
  predicate Explains(answer: Answer, o: Outcome) {
    match answer
    case Identity(n) => o.status.Success? && o.sysName == n && (o.failed <==> o.element.None?)
    case TimedOut => o.status.NoResponse? && o.failed && o.element.None?
    case OtherError => o.status.SnmpError? && o.failed && o.element.None?
  }

  predicate ScanOk(job: Job, target: string, c: Scan) {
    && c.target == target && c.outcome.host == job.host(target)
    && (c.pc.Asking? <==> c.answer.None?)
    && (c.pc.Asking? || c.pc.Upserting? ==> !c.outcome.failed && c.outcome.element.None?)
    && (c.pc.Asking? || c.pc.Upserting? || c.pc.Recording? ==> !c.recorded)
    && (c.pc.Upserting? ==> c.answer == Some(Identity(c.outcome.sysName)) && c.outcome.status.Success?)
    && (c.pc.Recording? || c.pc.Assigning? || c.pc.Done? ==> Explains(c.answer.value, c.outcome))
    && (c.pc.Assigning? ==> c.outcome.element.Some?)
  }

  ghost predicate ScansOk(job: Job, scans: seq<Scan>) {
    |scans| <= |job.targets| && forall i | 0 <= i < |scans| :: ScanOk(job, job.targets[i], scans[i])
  }

  predicate Distinct(ids: seq<nat>) { forall k, l | 0 <= k < l < |ids| :: ids[k] != ids[l] }

  ghost predicate RowsOk(scans: seq<Scan>, rows: seq<Outcome>, writers: seq<nat>) {
    && |rows| == |writers| && Distinct(writers)
    && (forall k | 0 <= k < |rows| ::
          writers[k] < |scans| && scans[writers[k]].recorded && rows[k] == scans[writers[k]].outcome)
    && (forall i | 0 <= i < |scans| && scans[i].recorded :: i in writers)
    && multiset(Hosts(rows)) == RecordedHosts(scans)
  }

  /** The element of the scan was given to the assignment. */
  predicate HadAssigned(c: Scan) { c.pc.Done? && c.outcome.element.Some? }

  ghost predicate CallsOk(scans: seq<Scan>, calls: seq<nat>) {
    && Distinct(calls)
    && (forall k | 0 <= k < |calls| :: calls[k] < |scans| && HadAssigned(scans[calls[k]]))
    && (forall i | 0 <= i < |scans| && HadAssigned(scans[i]) :: i in calls)
  }

  predicate AllLaunched(job: Job, s: State) { |s.scans| == |job.targets| }

  predicate EndedOk(job: Job, s: State, final: JobStatus) {
    && s.active == 0
    && (final.Completed? || final.Cancelled?)
    && (final.Completed? ==> AllLaunched(job, s)) && (final.Cancelled? ==> s.cancelled)
  }

  predicate LauncherOk(job: Job, s: State) {
    match s.launcher
    case Starting => s.scans == [] && s.status.Pending?
    case Loading => s.scans == [] && s.status.Running?
    case Failing => s.scans == [] && s.status.Running?
    case Checking => s.status.Running?
    case Blocked => s.status.Running? && |s.scans| < |job.targets|
    case Waiting => s.status.Running? && (s.cancelled || AllLaunched(job, s))
    case Deciding => s.status.Running? && s.active == 0 && (s.cancelled || AllLaunched(job, s))
    case Finishing(final) => s.status.Running? && EndedOk(job, s, final)
    case Returned(NotStarted) => s.scans == [] && s.status.Pending?
    case Returned(NoRules(stored)) => s.scans == [] && s.status == if stored then Failed else Running
    case Returned(Ended(stored)) => s.active == 0 && if stored then EndedOk(job, s, s.status) else s.status.Running?
  }

  ghost predicate Inv(job: Job, s: State) {
    && ScansOk(job, s.scans) && RowsOk(s.scans, s.rows, s.writers) && CallsOk(s.scans, s.calls)
    && LauncherOk(job, s)
    && s.active == Sum(Open, s.scans) && s.active <= Limit(job)
  }

  // ----- every step keeps it -----

  function PcOf(a: Action): Pc
    requires a.Reply? || a.Upsert? || a.Record? || a.Assign?
  {
    match a
    case Reply(_, _) => Asking
    case Upsert(_, _) => Upserting
    case Record(_, _) => Recording
    case Assign(_) => Assigning
  }

  lemma AdvancedOk(job: Job, target: string, c: Scan, a: Action)
    requires a.Reply? || a.Upsert? || a.Record? || a.Assign?
    requires ScanOk(job, target, c) && c.pc == PcOf(a)
    ensures ScanOk(job, target, Advanced(c, a))
  {
  }

  lemma RowsSame(scans: seq<Scan>, rows: seq<Outcome>, writers: seq<nat>, i: nat, c: Scan)
    requires RowsOk(scans, rows, writers) && i < |scans| && c.recorded == scans[i].recorded
    requires c.outcome.host == scans[i].outcome.host && (c.recorded ==> c.outcome == scans[i].outcome)
    ensures RowsOk(scans[i := c], rows, writers)
  {
    RecordedSame(scans, i, c);
  }

  lemma RowsRecord(scans: seq<Scan>, rows: seq<Outcome>, writers: seq<nat>, i: nat, c: Scan)
    requires RowsOk(scans, rows, writers) && i < |scans| && !scans[i].recorded && c.recorded
    ensures RowsOk(scans[i := c], rows + [c.outcome], writers + [i])
  {
    RecordedUpdate(scans, i, c);
    HostsAppend(rows, c.outcome);
    var scans', writers' := scans[i := c], writers + [i];
    assert writers'[|rows|] == i;
    forall k | 0 <= k < |scans| && scans'[k].recorded ensures k in writers' {
      if k != i { assert scans[k].recorded; }
    }
  }

  lemma CallsSame(scans: seq<Scan>, calls: seq<nat>, i: nat, c: Scan)
    requires CallsOk(scans, calls) && i < |scans| && !scans[i].pc.Done? && !HadAssigned(c)
    ensures CallsOk(scans[i := c], calls)
  {
  }

  lemma CallsAssign(scans: seq<Scan>, calls: seq<nat>, i: nat, c: Scan)
    requires CallsOk(scans, calls) && i < |scans| && !scans[i].pc.Done? && HadAssigned(c)
    ensures CallsOk(scans[i := c], calls + [i])
  {
    var scans', calls' := scans[i := c], calls + [i];
    assert calls'[|calls|] == i;
    forall k | 0 <= k < |scans| && HadAssigned(scans'[k]) ensures k in calls' {
      if k != i { assert HadAssigned(scans[k]); }
    }
  }

  /** What a scan's move leaves of the invariant: all but the tables it may write. */
  lemma ScanMoves(job: Job, s: State, i: nat, c: Scan)
    requires Inv(job, s) && i < |s.scans| && !s.scans[i].pc.Done? && ScanOk(job, job.targets[i], c)
    ensures var s' := WithScan(s, i, c);
            && ScansOk(job, s'.scans) && LauncherOk(job, s')
            && s'.active == Sum(Open, s'.scans) && s'.active <= Limit(job)
  {
    SumUpdate(Open, s.scans, i, c);
    SumAtLeast(Open, s.scans, i);
  }

  lemma ScanKeepsInv(job: Job, s: State, i: nat, a: Action)
    requires Inv(job, s) && Enabled(job, s, a)
    requires (a.Reply? || a.Upsert? || a.Record? || a.Assign?) && i == a.i
    ensures Inv(job, Step(job, s, a))
  {
    var c := Advanced(s.scans[i], a);
    assert ScanOk(job, job.targets[i], s.scans[i]);
    AdvancedOk(job, job.targets[i], s.scans[i], a);
    ScanMoves(job, s, i, c);
    if a.Record? && a.ok {
      RowsRecord(s.scans, s.rows, s.writers, i, c);
    } else {
      RowsSame(s.scans, s.rows, s.writers, i, c);
    }
    if a.Assign? { CallsAssign(s.scans, s.calls, i, c); } else { CallsSame(s.scans, s.calls, i, c); }
  }

  lemma LaunchKeepsScans(job: Job, scans: seq<Scan>)
    requires ScansOk(job, scans) && |scans| < |job.targets|
    ensures ScansOk(job, scans + [Launched(job, job.targets[|scans|])])
  {
  }

  lemma LaunchKeepsTables(scans: seq<Scan>, rows: seq<Outcome>, writers: seq<nat>, calls: seq<nat>, c: Scan)
    requires RowsOk(scans, rows, writers) && CallsOk(scans, calls) && !c.recorded && !HadAssigned(c)
    ensures RowsOk(scans + [c], rows, writers) && CallsOk(scans + [c], calls)
  {
    assert (scans + [c])[..|scans|] == scans;
  }

  lemma LaunchKeepsInv(job: Job, s: State)
    requires Inv(job, s) && Enabled(job, s, Launch)
    ensures Inv(job, Step(job, s, Launch))
  {
    var c := Launched(job, job.targets[|s.scans|]);
    SumAppend(Open, s.scans, c);
    LaunchKeepsScans(job, s.scans);
    LaunchKeepsTables(s.scans, s.rows, s.writers, s.calls, c);
  }

  lemma StepKeepsInv(job: Job, s: State, a: Action)
    requires Inv(job, s) && Enabled(job, s, a)
    ensures Inv(job, Step(job, s, a))
  {
    match a
    case Launch => LaunchKeepsInv(job, s);
    case Reply(i, _) => ScanKeepsInv(job, s, i, a);
    case Upsert(i, _) => ScanKeepsInv(job, s, i, a);
    case Record(i, _) => ScanKeepsInv(job, s, i, a);
    case Assign(i) => ScanKeepsInv(job, s, i, a);
    case _ =>
  }

  /** What every step of a run keeps, the run keeps. */
  lemma {:induction false} RunKeeps(
    job: Job, allowed: Action -> bool, inv: State -> bool, s: State, run: seq<Action>, t: State)
    requires forall u, a | inv(u) && allowed(a) && Enabled(job, u, a) :: inv(Step(job, u, a))
    requires inv(s) && Leads(job, s, run, t) && forall k | 0 <= k < |run| :: allowed(run[k])
    ensures inv(t)
    decreases |run|
  {
    if run != [] { RunKeeps(job, allowed, inv, Step(job, s, run[0]), run[1..], t); }
  }

  lemma RunKeepsInv(job: Job, s: State, run: seq<Action>, t: State)
    requires Inv(job, s) && Leads(job, s, run, t)
    ensures Inv(job, t)
  {
    forall u, a | Inv(job, u) && Enabled(job, u, a) ensures Inv(job, Step(job, u, a)) { StepKeepsInv(job, u, a); }
    RunKeeps(job, a => true, u => Inv(job, u), s, run, t);
  }

  lemma ReachableInv(job: Job, run: seq<Action>, s: State)
    requires Reaches(job, run, s)
    ensures Inv(job, s)
  {
    RunKeepsInv(job, START, run, s);
  }

  // ----- launching -----

  function Unfinished(scans: seq<Scan>): set<nat> { set i: nat | i < |scans| && !scans[i].pc.Done? }

  function Finished(scans: seq<Scan>): set<nat> { set i: nat | i < |scans| && scans[i].pc.Done? }

  lemma LastFinishedOrNot(scans: seq<Scan>)
    requires scans != []
    ensures var last: nat := |scans| - 1;
            && last !in Finished(scans[..last]) && last !in Unfinished(scans[..last])
            && Finished(scans) == Finished(scans[..last]) + (if scans[last].pc.Done? then {last} else {})
            && Unfinished(scans) == Unfinished(scans[..last]) + (if scans[last].pc.Done? then {} else {last})
  {
    var last: nat := |scans| - 1;
    assert forall i | 0 <= i < last :: scans[..last][i] == scans[i];
  }

  lemma {:induction false} OpenCounts(scans: seq<Scan>)
    ensures Sum(Open, scans) == |Unfinished(scans)| && |Unfinished(scans)| + |Finished(scans)| == |scans|
  {
    if scans == [] {
      assert Unfinished(scans) == {} && Finished(scans) == {};
    } else {
      OpenCounts(scans[..|scans| - 1]);
      LastFinishedOrNot(scans);
    }
  }

  /** In every reachable state the launched targets are a prefix of the job's, each is finished or holds
      one of the slots, and no more slots are taken than the limit. */
  lemma LaunchedArePrefix(job: Job, run: seq<Action>, s: State)
    requires Reaches(job, run, s)
    ensures |s.scans| <= |job.targets| && forall i | 0 <= i < |s.scans| :: s.scans[i].target == job.targets[i]
    ensures |s.scans| == |Finished(s.scans)| + s.active && |Unfinished(s.scans)| == s.active
    ensures forall i: nat | i < |s.scans| :: i in Finished(s.scans) <==> s.scans[i].pc.Done?
    ensures 0 <= s.active && (s.active <= 1 || s.active <= job.concurrency)
  {
    ReachableInv(job, run, s);
    OpenCounts(s.scans);
  }

  /** A waiting launch goes ahead exactly when one of the max(concurrency, 1) slots is free. */
  lemma LaunchIffSlotFree(job: Job, run: seq<Action>, s: State)
    requires Reaches(job, run, s) && s.launcher.Blocked?
    ensures Enabled(job, s, Launch) <==> s.active < 1 || s.active < job.concurrency
    ensures Enabled(job, s, Launch) ==>
              var t := Step(job, s, Launch);
              && t.active == s.active + 1 && |t.scans| == |s.scans| + 1 && t.scans[..|s.scans|] == s.scans
              && t.scans[|s.scans|].target == job.targets[|s.scans|] && t.scans[|s.scans|].pc.Asking?
  {
    ReachableInv(job, run, s);
  }

  function WaitingForSlot(s: State): nat { if s.launcher.Blocked? then 1 else 0 }

  /** Once the context is cancelled, only a launch that was already waiting for its slot still happens. */
  lemma AtMostOneLateLaunch(job: Job, s: State, run: seq<Action>, t: State)
    requires s.cancelled && Leads(job, s, run, t)
    ensures t.cancelled && |t.scans| <= |s.scans| + if s.launcher.Blocked? then 1 else 0
  {
    var most := |s.scans| + WaitingForSlot(s);
    RunKeeps(job, a => true, (u: State) => u.cancelled && |u.scans| + WaitingForSlot(u) <= most, s, run, t);
  }

  // ----- cancelling and completing -----

  /** The check of the context after the wait has not been passed as completed. */
  predicate BeforeFinalCheck(s: State) { !s.status.Completed? && s.launcher != Finishing(Completed) }

  /** A job whose context is cancelled before that check never ends completed. */
  lemma CancelledNeverCompletes(job: Job, s: State, run: seq<Action>, t: State)
    requires s.cancelled && Leads(job, s, run, t)
    requires !s.status.Completed? && s.launcher != Finishing(Completed)
    ensures !t.status.Completed?
  {
    RunKeeps(job, a => true, (u: State) => u.cancelled && BeforeFinalCheck(u), s, run, t);
  }

  lemma AllFinished(scans: seq<Scan>)
    requires Sum(Open, scans) == 0
    ensures forall i | 0 <= i < |scans| :: scans[i].pc.Done?
  {
    forall i | 0 <= i < |scans| ensures scans[i].pc.Done? { SumAtLeast(Open, scans, i); }
  }

  /** A job marked completed has launched a scan for every target, and all have finished. */
  lemma CompletedMeansAll(job: Job, run: seq<Action>, s: State)
    requires Reaches(job, run, s) && s.status.Completed?
    ensures s.launcher == Returned(Ended(true)) && |s.scans| == |job.targets|
    ensures forall i | 0 <= i < |s.scans| :: s.scans[i].target == job.targets[i] && s.scans[i].pc.Done?
  {
    ReachableInv(job, run, s);
    AllFinished(s.scans);
  }

  lemma StatusOfLauncher(job: Job, s: State)
    requires LauncherOk(job, s)
    ensures s.status.Completed? || s.status.Failed? || s.status.Cancelled?
       <==> s.launcher == Returned(NoRules(true)) || s.launcher == Returned(Ended(true))
    ensures s.status.Pending? <==> s.launcher.Starting? || s.launcher == Returned(NotStarted)
    ensures s.status.Failed? <==> s.launcher == Returned(NoRules(true))
    ensures s.launcher.Returned? ==> s.active == 0 || s.scans == []
    ensures s.status.Failed? ==> s.scans == []
    ensures s.status.Cancelled? ==> s.cancelled
  {
  }

  /** Exactly when the job is left in a terminal status: when the run got past its first status write and
      its last one went through. Then the scans have all finished, and a cancelled job was cancelled. */
  lemma TerminalIffStored(job: Job, run: seq<Action>, s: State)
    requires Reaches(job, run, s)
    ensures s.status.Completed? || s.status.Failed? || s.status.Cancelled?
       <==> s.launcher == Returned(NoRules(true)) || s.launcher == Returned(Ended(true))
    ensures s.status.Pending? <==> s.launcher.Starting? || s.launcher == Returned(NotStarted)
    ensures s.status.Failed? <==> s.launcher == Returned(NoRules(true))
    ensures s.launcher.Returned? ==> s.active == 0 && |Finished(s.scans)| == |s.scans|
    ensures s.status.Failed? ==> s.scans == []
    ensures s.status.Cancelled? ==> s.cancelled
  {
    ReachableInv(job, run, s);
    StatusOfLauncher(job, s);
    OpenCounts(s.scans);
  }

  /** So a run does not always leave a terminal status: its first write may fail, and so may the one that
      records a failure to load the rules. */
  lemma RunMayEndOpen(job: Job)
    ensures exists run, s :: Reaches(job, run, s) && s.launcher == Returned(NotStarted) && s.status.Pending?
    ensures exists run, s :: Reaches(job, run, s) && s.launcher == Returned(NoRules(false)) && s.status.Running?
  {
    var first := [WriteRunning(false)];
    assert first[1..] == [];
    assert Reaches(job, first, Step(job, START, first[0]));
    var s1 := Step(job, START, WriteRunning(true));
    var s2 := Step(job, s1, Cancel);
    var s3 := Step(job, s2, LoadRules(false));
    var s4 := Step(job, s3, WriteFailed(false));
    var run := [WriteRunning(true), Cancel, LoadRules(false), WriteFailed(false)];
    assert run[1..][1..][1..] == [WriteFailed(false)] && run[1..][1..][1..][1..] == [];
    assert Leads(job, s3, run[1..][1..][1..], s4);
    assert Leads(job, s2, run[1..][1..], s4);
    assert Leads(job, s1, run[1..], s4);
    assert Reaches(job, run, s4);
  }

  // ----- every run ends -----

  function Weight(c: Scan): nat {
    match c.pc
    case Asking => 4
    case Upserting => 3
    case Recording => 2
    case Assigning => 1
    case Done => 0
  }

  function LauncherWeight(launcher: Launcher): nat {
    match launcher
    case Starting => 6
    case Loading => 5
    case Checking => 4
    case Blocked => 3
    case Waiting => 3
    case Deciding => 2
    case Failing => 1
    case Finishing(_) => 1
    case Returned(_) => 0
  }

  /** How many steps may still follow. */
  function Work(job: Job, s: State): int {
    LauncherWeight(s.launcher) + 6 * (|job.targets| - |s.scans|) + Sum(Weight, s.scans) + if s.cancelled then 0 else 1
  }

  lemma ScanWorks(s: State, a: Action)
    requires a.Reply? || a.Upsert? || a.Record? || a.Assign?
    requires At(s, a.i, PcOf(a))
    ensures Sum(Weight, s.scans[a.i := Advanced(s.scans[a.i], a)]) < Sum(Weight, s.scans)
  {
    SumUpdate(Weight, s.scans, a.i, Advanced(s.scans[a.i], a));
  }

  lemma StepWorks(job: Job, s: State, a: Action)
    requires Enabled(job, s, a)
    ensures Work(job, Step(job, s, a)) < Work(job, s)
  {
    match a
    case Launch => SumAppend(Weight, s.scans, Launched(job, job.targets[|s.scans|]));
    case Reply(i, _) => ScanWorks(s, a);
    case Upsert(i, _) => ScanWorks(s, a);
    case Record(i, _) => ScanWorks(s, a);
    case Assign(i) => ScanWorks(s, a);
    case _ =>
  }

  lemma {:induction false} RunWorks(job: Job, s: State, run: seq<Action>, t: State)
    requires Leads(job, s, run, t)
    ensures |run| + Work(job, t) <= Work(job, s)
    decreases |run|
  {
    if run != [] {
      StepWorks(job, s, run[0]);
      RunWorks(job, Step(job, s, run[0]), run[1..], t);
    }
  }

  /** No run is longer than six steps per target and seven more, whatever is answered. */
  lemma RunsAreFinite(job: Job, run: seq<Action>, s: State)
    requires Reaches(job, run, s)
    ensures |run| <= 6 * |job.targets| + 7
  {
    ReachableInv(job, run, s);
    RunWorks(job, START, run, s);
  }

  function NextOf(c: Scan, i: nat): Action {
    match c.pc
    case Asking => Reply(i, TimedOut)
    case Upserting => Upsert(i, None)
    case Recording => Record(i, true)
    case _ => Assign(i)
  }

  /** A step that can be taken: one of a scan, or of the launcher when all scans are done. */
  function NextAction(s: State): Action {
    if Sum(Open, s.scans) > 0 then
      var i := OpenScan(s.scans);
      NextOf(s.scans[i], i)
    else
      match s.launcher
      case Starting => WriteRunning(true)
      case Loading => LoadRules(true)
      case Failing => WriteFailed(true)
      case Checking => CheckContext
      case Blocked => Launch
      case Waiting => Drain
      case Deciding => Decide
      case _ => WriteFinal(true)
  }

  /** Nothing ever blocks for good: until the launcher has returned, it or a scan can take a step. */
  lemma NeverStuck(job: Job, run: seq<Action>, s: State)
    requires Reaches(job, run, s) && !s.launcher.Returned?
    ensures Enabled(job, s, NextAction(s)) && !NextAction(s).Cancel?
  {
    ReachableInv(job, run, s);
  }

  // ----- results -----

  function Launches(run: seq<Action>): nat {
    if run == [] then 0 else Bit(run[0].Launch?) + Launches(run[1..])
  }

  /** How often scan `i` had an answer from its target. */
  function Replies(run: seq<Action>, i: nat): nat {
    if run == [] then 0 else Bit(run[0].Reply? && run[0].i == i) + Replies(run[1..], i)
  }

  predicate Asked(s: State, i: nat) { i < |s.scans| && !s.scans[i].pc.Asking? }

  function Bit(b: bool): nat { if b then 1 else 0 }

  lemma {:induction false} Counts(job: Job, s: State, run: seq<Action>, t: State, i: nat)
    requires Leads(job, s, run, t)
    ensures Launches(run) == |t.scans| - |s.scans|
    ensures Replies(run, i) == Bit(Asked(t, i)) - Bit(Asked(s, i))
    decreases |run|
  {
    if run != [] { Counts(job, Step(job, s, run[0]), run[1..], t, i); }
  }

  /** A completed job has asked every target exactly once, and nobody else. */
  lemma EveryTargetAskedOnce(job: Job, run: seq<Action>, s: State, i: nat)
    requires Reaches(job, run, s) && s.status.Completed?
    ensures Launches(run) == |job.targets|
    ensures Replies(run, i) == if i < |job.targets| then 1 else 0
  {
    CompletedMeansAll(job, run, s);
    Counts(job, START, run, s, i);
  }

  /** A finished scan reports what its target answered, in at most one row, which is missing only if it
      could not be stored; and it has its element assigned exactly once if there is one, which only a
      success has. */
  lemma OneResultPerScan(job: Job, run: seq<Action>, s: State, i: nat, k: nat, l: nat)
    requires Reaches(job, run, s) && i < |s.scans| && s.scans[i].pc.Done?
    ensures var c := s.scans[i];
            && i < |job.targets| && c.outcome.host == job.host(job.targets[i])
            && c.answer.Some?
            && (c.outcome.status.Success? <==> c.answer.value.Identity?)
            && (c.outcome.status.NoResponse? <==> c.answer.value.TimedOut?)
            && (c.outcome.status.SnmpError? <==> c.answer.value.OtherError?)
            && (c.answer.value.Identity? ==> c.outcome.sysName == c.answer.value.sysName)
            && (c.outcome.failed <==> c.outcome.element.None?)
            && |s.rows| == |s.writers|
            && (c.recorded <==> i in s.writers)
            && (k < |s.writers| && s.writers[k] == i ==> s.rows[k] == c.outcome)
            && (k < l < |s.writers| && s.writers[k] == i ==> s.writers[l] != i)
            && (c.outcome.element.Some? ==> c.outcome.status.Success?)
            && (c.outcome.element.Some? <==> i in s.calls)
            && (k < l < |s.calls| && s.calls[k] == i ==> s.calls[l] != i)
  {
    ReachableInv(job, run, s);
  }

  predicate NotLost(a: Action) { a.Record? ==> a.ok }

  predicate NoneLost(s: State) {
    forall i | 0 <= i < |s.scans| && (s.scans[i].pc.Assigning? || s.scans[i].pc.Done?) :: s.scans[i].recorded
  }

  lemma StepLosesNone(job: Job, s: State, a: Action)
    requires NoneLost(s) && NotLost(a) && Enabled(job, s, a)
    ensures NoneLost(Step(job, s, a))
  {
  }

  lemma NoneGetsLost(job: Job, run: seq<Action>, s: State)
    requires Reaches(job, run, s) && forall k | 0 <= k < |run| :: NotLost(run[k])
    ensures NoneLost(s)
  {
    forall u, a | NoneLost(u) && NotLost(a) && Enabled(job, u, a) ensures NoneLost(Step(job, u, a)) {
      StepLosesNone(job, u, a);
    }
    RunKeeps(job, NotLost, NoneLost, START, run, s);
  }

  function HostsOf(job: Job, n: nat): seq<string>
    requires n <= |job.targets|
  {
    seq(n, i requires 0 <= i < n => job.host(job.targets[i]))
  }

  lemma {:induction false} AllRecorded(job: Job, scans: seq<Scan>)
    requires ScansOk(job, scans) && forall i | 0 <= i < |scans| :: scans[i].recorded
    ensures RecordedHosts(scans) == multiset(HostsOf(job, |scans|))
  {
    if scans == [] {
    } else {
      var last := |scans| - 1;
      AllRecorded(job, scans[..last]);
      assert HostsOf(job, |scans|) == HostsOf(job, last) + [scans[last].outcome.host];
    }
  }

  /** When every result could be stored, the results of a completed job are those of its targets: each
      host as often as it was listed. */
  lemma HostsAreReported(job: Job, run: seq<Action>, s: State)
    requires Reaches(job, run, s) && s.status.Completed? && forall k | 0 <= k < |run| :: NotLost(run[k])
    ensures multiset(seq(|s.rows|, k requires 0 <= k < |s.rows| => s.rows[k].host))
         == multiset(seq(|job.targets|, i requires 0 <= i < |job.targets| => job.host(job.targets[i])))
  {
    CompletedMeansAll(job, run, s);
    ReachableInv(job, run, s);
    NoneGetsLost(job, run, s);
    AllRecorded(job, s.scans);
    assert Hosts(s.rows) == seq(|s.rows|, k requires 0 <= k < |s.rows| => s.rows[k].host);
    assert HostsOf(job, |job.targets|)
        == seq(|job.targets|, i requires 0 <= i < |job.targets| => job.host(job.targets[i]));
  }
}
