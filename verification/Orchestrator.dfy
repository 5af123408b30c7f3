/** The orchestrator's two methods as sequential code: one scan over the tables, and the run's launch
    loop with everything else that moves meanwhile. */
module Orchestrator {
  import opened Wrappers
  import opened Discovery
  import Assignment
  import Redistribution
  import RuleEngine
  import Store

  // ----- one scan -----

  /** The result for what the target answered and, after an identity, the stored element. */
  function Report(host: string, answer: Answer, element: Option<Id>): (o: Outcome)
    ensures (answer.Identity? || element.None?) ==> Explains(answer, o)
  {
    match answer
    case Identity(n) => Outcome(host, Success, n, element.None?, element)
    case TimedOut => Outcome(host, NoResponse, "", true, None)
    case OtherError => Outcome(host, SnmpError, "", true, None)
  }

  /** What a scan does to the tables; `stores` says whether the element could be stored. */
  ghost function ScanEffect(
    db: Store.Db, e: RuleEngine.Engine, rules: seq<RuleEngine.Rule>, host: string, answer: Answer, stores: bool)
    : (Outcome, Store.Db)
  {
    match answer
    case Identity(n) =>
      if !stores then (Report(host, answer, None), db)
      else
        var (db', id) := Store.UpsertDiscovered(db, host, n);
        var q := Redistribution.RequestFor(e, rules, Redistribution.Target(id, n), Store.Discovery);
        (Report(host, answer, Some(id)), Assignment.Assign(db', q).0)
    case _ => (Report(host, answer, None), db)
  }

  /** What a scan reports and stores: nothing without an identity, or when the element cannot be stored;
      otherwise the element is stored first, and then assigned as its new name evaluates. */
  lemma ScanSays(
    db: Store.Db, e: RuleEngine.Engine, rules: seq<RuleEngine.Rule>, host: string, answer: Answer, stores: bool)
    requires Store.ValidDb(db)
    ensures var (o, after) := ScanEffect(db, e, rules, host, answer, stores);
            && o.host == host
            && (o.status.Success? <==> answer.Identity?) && (o.status.NoResponse? <==> answer.TimedOut?)
            && (o.status.SnmpError? <==> answer.OtherError?)
            && (o.element.Some? <==> answer.Identity? && stores) && (o.failed <==> o.element.None?)
            && (answer.Identity? ==> o.sysName == answer.sysName)
            && (o.element.None? ==> after == db)
            && Store.ValidDb(after)
            && (o.element.Some? ==>
                  && o.element.value in after.elements && after.elements[o.element.value].ip == host
                  && after.elements[o.element.value].sysName == answer.sysName)
            && forall d | d in db.elements && db.elements[d].ip != host ::
                 d in after.elements && after.elements[d] == db.elements[d]
  {
    if answer.Identity? && stores {
      var (db1, id) := Store.UpsertDiscovered(db, host, answer.sysName);
      Store.UpsertDiscoveredValid(db, host, answer.sysName);
      Store.UpsertSays(db, host, answer.sysName);
      var target := Redistribution.Target(id, answer.sysName);
      Assignment.AssignSays(db1, Redistribution.RequestFor(e, rules, target, Store.Discovery));
      AssignKeepsNames(db1, Redistribution.RequestFor(e, rules, target, Store.Discovery));
    }
  }

  class Results {
    var rows: seq<Outcome>

    /** `records` says whether the row could be stored; a failure is only logged. */
    method InsertResult(o: Outcome, records: bool)
      modifies this
      ensures rows == old(rows) + if records then [o] else []
    {
      if records { rows := rows + [o]; }
    }
  }

  method ScanOne(
    results: Results, db: Store.Database, e: RuleEngine.Engine, rules: seq<RuleEngine.Rule>,
    host: string, answer: Answer, stores: bool, records: bool)
    requires db.Valid()
    modifies results, db
    ensures db.Valid()
    ensures var (o, after) := ScanEffect(old(db.Snapshot()), e, rules, host, answer, stores);
            results.rows == old(results.rows) + (if records then [o] else []) && db.Snapshot() == after
  {
    var result := Outcome(host, NoResponse, "", false, None);
    if !answer.Identity? {
      result := result.(failed := true);
      if answer.TimedOut? {
        result := result.(status := NoResponse);
      } else {
        result := result.(status := SnmpError);
      }
      results.InsertResult(result, records);
      return;
    }
    result := result.(status := Success, sysName := answer.sysName);
    if !stores {
      result := result.(failed := true);
      results.InsertResult(result, records);
      return;
    }
    var id := db.Upsert(host, answer.sysName);
    result := result.(element := Some(id));
    results.InsertResult(result, records);
    var _ := Redistribution.AssignElement(db, e, Redistribution.Target(id, answer.sysName), rules, Store.Discovery);
  }

  /** The element is stored under the address and name, where the request wants it, with one audit row. */
  ghost predicate Placed(db: Store.Db, host: string, n: string, q: Assignment.Request, after: Store.Db) {
    && Store.ValidDb(after) && Redistribution.Settled(after, q)
    && after.elements[q.elementId].ip == host && after.elements[q.elementId].sysName == n
    && |after.history| == |db.history| + 1 && db.history <= after.history
    && var row := after.history[|db.history|]; row == Assignment.RowOf(q, row.clusterId)
  }

  lemma AssignKeepsNames(db: Store.Db, q: Assignment.Request)
    requires q.elementId in db.elements
    ensures var after := Assignment.Assign(db, q).0;
            && q.elementId in after.elements
            && after.elements[q.elementId].ip == db.elements[q.elementId].ip
            && after.elements[q.elementId].sysName == db.elements[q.elementId].sysName
  {
  }

  lemma StoredThenAssigned(db: Store.Db, host: string, n: string, q: Assignment.Request)
    requires Store.ValidDb(db) && q.elementId == Store.UpsertDiscovered(db, host, n).1
    requires q.ruleId.Some? ==> q.ruleId.value in db.rules
    ensures Placed(db, host, n, q, Assignment.Assign(Store.UpsertDiscovered(db, host, n).0, q).0)
  {
    var db1 := Store.UpsertDiscovered(db, host, n).0;
    Store.UpsertDiscoveredValid(db, host, n);
    Redistribution.AssignServes(db1, q);
    AssignKeepsNames(db1, q);
  }

  /** A scan that nothing else touches places its element in the cluster of the key to which the reported
      name evaluates, and says so in the audit trail. */
  lemma ScanPlaces(
    db: Store.Db, e: RuleEngine.Engine, rules: seq<RuleEngine.Rule>, host: string, n: string)
    requires Store.ValidDb(db)
    requires var o := RuleEngine.Evaluation(e, n, rules); o.ruleId.Some? ==> o.ruleId.value in db.rules
    ensures var (o, after) := ScanEffect(db, e, rules, host, Identity(n), true);
            && o.element.Some?
            && var target := Redistribution.Target(o.element.value, n);
               Placed(db, host, n, Redistribution.RequestFor(e, rules, target, Store.Discovery), after)
  {
    var target := Redistribution.Target(Store.UpsertDiscovered(db, host, n).1, n);
    StoredThenAssigned(db, host, n, Redistribution.RequestFor(e, rules, target, Store.Discovery));
  }

  /** The steps of a scan, one after the other. */
  function ScanRun(i: nat, answer: Answer, element: Option<Id>, records: bool): seq<Action> {
    if answer.Identity? then
      [Reply(i, answer), Upsert(i, element), Record(i, records)] + if element.Some? then [Assign(i)] else []
    else [Reply(i, answer), Record(i, records)]
  }

  lemma LeadsBy(job: Job, s: State, a: Action, run: seq<Action>, t: State)
    requires Enabled(job, s, a) && Leads(job, Step(job, s, a), run, t)
    ensures Leads(job, s, [a] + run, t)
  {
    assert ([a] + run)[1..] == run;
  }

  /** The state with scan `i` at `c`. */
  function WithScanAt(s: State, i: nat, c: Scan): State
    requires i < |s.scans|
  {
    s.(scans := s.scans[i := c])
  }

  /** The state after scan `i` has come to its end `c`, with what it wrote. */
  function AfterScan(s: State, i: nat, c: Scan): State
    requires i < |s.scans|
  {
    var calls := s.calls + if c.outcome.element.Some? then [i] else [];
    var t := WithScanAt(s, i, c).(active := s.active - 1, calls := calls);
    if c.recorded then t.(rows := s.rows + [c.outcome], writers := s.writers + [i]) else t
  }

  lemma ScanRecords(job: Job, s: State, i: nat, c: Scan, records: bool)
    requires i < |s.scans| && c.pc.Recording? && !c.recorded
    ensures var assigns := if c.outcome.element.Some? then [Assign(i)] else [];
            var end := AfterScan(s, i, c.(pc := Done, recorded := records));
            Leads(job, WithScanAt(s, i, c), [Record(i, records)] + assigns, end)
  {
    var s1 := WithScanAt(s, i, c);
    var s2 := Step(job, s1, Record(i, records));
    var t := AfterScan(s, i, c.(pc := Done, recorded := records));
    if c.outcome.element.Some? {
      assert Step(job, s2, Assign(i)) == t;
      LeadsBy(job, s2, Assign(i), [], t);
      LeadsBy(job, s1, Record(i, records), [Assign(i)] + [], t);
      assert [Assign(i)] + [] == [Assign(i)];
    } else {
      assert s2 == t;
      LeadsBy(job, s1, Record(i, records), [], t);
    }
  }

  /** How a scan of `target` ends, given what it was answered. */
  function ScanEnding(job: Job, target: string, pc: Pc, answer: Answer, element: Option<Id>, records: bool): Scan {
    Scan(target, pc, Some(answer), Report(job.host(target), answer, element), records)
  }

  lemma ScanComesToRecord(job: Job, s: State, i: nat, answer: Answer, element: Option<Id>)
    requires i < |s.scans| && s.scans[i] == Launched(job, s.scans[i].target) && (!answer.Identity? ==> element.None?)
    ensures var s1 := Step(job, s, Reply(i, answer));
            var t := WithScanAt(s, i, ScanEnding(job, s.scans[i].target, Recording, answer, element, false));
            if answer.Identity? then Enabled(job, s1, Upsert(i, element)) && Step(job, s1, Upsert(i, element)) == t
            else s1 == t
  {
  }

  /** Taken one after the other, the steps of a scan end with the same result as the scan's code. */
  lemma ScanAlone(job: Job, s: State, i: nat, answer: Answer, element: Option<Id>, records: bool)
    requires i < |s.scans| && s.scans[i] == Launched(job, s.scans[i].target) && (!answer.Identity? ==> element.None?)
    ensures Leads(job, s, ScanRun(i, answer, element, records),
              AfterScan(s, i, ScanEnding(job, s.scans[i].target, Done, answer, element, records)))
  {
    var c := ScanEnding(job, s.scans[i].target, Recording, answer, element, false);
    var t := AfterScan(s, i, c.(pc := Done, recorded := records));
    ScanComesToRecord(job, s, i, answer, element);
    ScanRecords(job, s, i, c, records);
    var rest := [Record(i, records)] + if element.Some? then [Assign(i)] else [];
    if answer.Identity? {
      LeadsBy(job, Step(job, s, Reply(i, answer)), Upsert(i, element), rest, t);
      LeadsBy(job, s, Reply(i, answer), [Upsert(i, element)] + rest, t);
      assert [Reply(i, answer)] + ([Upsert(i, element)] + rest) == ScanRun(i, answer, element, records);
    } else {
      LeadsBy(job, s, Reply(i, answer), rest, t);
      assert [Reply(i, answer)] + rest == ScanRun(i, answer, element, records);
    }
  }

  // ----- the run -----

  predicate OfOthers(a: Action) { a.Cancel? || a.Reply? || a.Upsert? || a.Record? || a.Assign? }

  /** The launcher has stayed where it was while the others moved. */
  predicate Aside(s: State, t: State) {
    && t.launcher == s.launcher && |t.scans| == |s.scans| && t.active <= s.active && (s.cancelled ==> t.cancelled)
  }

  function WorkLeft(job: Job, s: State): nat {
    if Work(job, s) < 0 then 0 else Work(job, s)
  }

  lemma StepLeavesLess(job: Job, run: seq<Action>, s: State, a: Action)
    requires Reaches(job, run, s) && Enabled(job, s, a)
    ensures WorkLeft(job, Step(job, s, a)) < WorkLeft(job, s)
  {
    ReachableInv(job, run, s);
    StepWorks(job, s, a);
  }

  lemma MovesAside(job: Job, run: seq<Action>, s: State, a: Action)
    requires Reaches(job, run, s) && Enabled(job, s, a) && OfOthers(a)
    ensures Aside(s, Step(job, s, a)) && WorkLeft(job, Step(job, s, a)) < WorkLeft(job, s)
  {
    StepLeavesLess(job, run, s, a);
  }

  /** One call of `Run`. `Take` performs a step of it; `Others` and `Await` let the scans and the context
      move, in an order and with answers that nothing restricts. */
  class JobRun {
    const job: Job
    var state: State
    ghost var run: seq<Action>

    ghost predicate Valid()
      reads this
    {
      Reaches(job, run, state)
    }

    constructor (job: Job)
      ensures this.job == job && state == START && run == [] && Valid()
    {
      this.job, state, run := job, START, [];
    }

    method Take(a: Action)
      requires Valid() && Enabled(job, state, a)
      modifies this
      ensures Valid() && state == Step(job, old(state), a) && run == old(run) + [a]
    {
      LeadsOn(job, START, run, state, a);
      state := Step(job, state, a);
      run := run + [a];
    }

    /** Steps of the scans and the cancellation, none or many. */
    method Others()
      requires Valid()
      modifies this
      ensures Valid() && Aside(old(state), state) && WorkLeft(job, state) <= WorkLeft(job, old(state))
    {
      var more: bool := *;
      while more
        invariant Valid() && Aside(old(state), state) && WorkLeft(job, state) <= WorkLeft(job, old(state))
        decreases WorkLeft(job, state), more
      {
        var a: Action := *;
        if OfOthers(a) && Enabled(job, state, a) {
          MovesAside(job, run, state, a);
          Take(a);
          more := *;
        } else {
          more := false;
        }
      }
    }

    /** Some scan moves on: any step of any scan, or else the next one of a scan that is not done. */
    method Progress()
      requires Valid() && state.active > 0
      modifies this
      ensures Valid() && Aside(old(state), state) && WorkLeft(job, state) < WorkLeft(job, old(state))
    {
      ReachableInv(job, run, state);
      var a: Action := *;
      if !(OfOthers(a) && !a.Cancel? && Enabled(job, state, a)) {
        var i := OpenScan(state.scans);
        a := NextOf(state.scans[i], i);
      }
      MovesAside(job, run, state, a);
      Take(a);
    }

    /** The launcher waits until fewer than `slots` are taken. Since a scan that is not done can always
        move, it does not wait for ever. */
    method Await(slots: nat)
      requires Valid() && slots > 0
      modifies this
      ensures Valid() && Aside(old(state), state) && state.active < slots
      ensures WorkLeft(job, state) <= WorkLeft(job, old(state))
    {
      while state.active >= slots
        invariant Valid() && Aside(old(state), state) && WorkLeft(job, state) <= WorkLeft(job, old(state))
        decreases WorkLeft(job, state)
      {
        Progress();
        Others();
      }
    }

    /** `Orchestrator.Run`: it always returns, through steps of the run only, and reports no error exactly
        when its last status write went through after the scans. */
    method Run() returns (ok: bool)
      requires state == START && run == []
      modifies this
      ensures Valid() && state.launcher.Returned? && (ok <==> state.launcher.ending == Discovery.Ended(true))
      ensures ok ==> state.status.Completed? || state.status.Cancelled?
    {
      Others();
      var stored: bool := *;
      Take(WriteRunning(stored));
      if !stored { return false; }
      Others();
      var loaded: bool := *;
      Take(LoadRules(loaded));
      if !loaded {
        Others();
        stored := *;
        Take(WriteFailed(stored));
        return false;
      }
      Launches();
      Await(1);
      ReachableInv(job, run, state);
      Take(Drain);
      Others();
      Take(Decide);
      Others();
      stored := *;
      Take(WriteFinal(stored));
      ReachableInv(job, run, state);
      return stored;
    }

    /** One round of the launch loop: the context is checked, and then a slot is waited for. */
    method LaunchOne()
      requires Valid() && state.launcher.Checking?
      modifies this
      ensures Valid() && WorkLeft(job, state) < WorkLeft(job, old(state))
      ensures state.launcher.Checking? || state.launcher.Waiting?
    {
      StepLeavesLess(job, run, state, CheckContext);
      Take(CheckContext);
      if state.launcher.Waiting? { return; }
      Await(Limit(job));
      ReachableInv(job, run, state);
      StepLeavesLess(job, run, state, Launch);
      Take(Launch);
    }

    method Launches()
      requires Valid() && state.launcher.Checking?
      modifies this
      ensures Valid() && state.launcher.Waiting?
    {
      while state.launcher.Checking?
        invariant Valid() && (state.launcher.Checking? || state.launcher.Waiting?)
        decreases WorkLeft(job, state)
      {
        Others();
        LaunchOne();
      }
    }
  }
}
