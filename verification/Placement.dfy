/** A discovery run over the tables: the statements of all its scans interleave, while nothing else
    writes. An assignment is three statements, any of which may come between those of other scans. */
module Placement {
  import opened Wrappers
  import opened Store
  import Assignment
  import D = Discovery
  import Redistribution
  import RuleEngine

  /** `request` is what the hostname of an element evaluates to. */
  datatype Setup = Setup(job: D.Job, request: (Id, string) -> Assignment.Request)

  /** How far the assignment of a scan's element has come. */
  datatype Progress = Clustered(clusterId: Option<Id>) | Updated(clusterId: Option<Id>)

  /** `log` remembers which scan wrote which history row, and `gaveUp` those whose assignment failed. */
  datatype State = State(run: D.State, db: Db, progress: map<nat, Progress>, log: seq<nat>, gaveUp: set<nat>)

  datatype Action =
    | Other(a: D.Action)
    | Keep(i: nat) | FindCluster(i: nat) | Place(i: nat) | Audit(i: nat) | GiveUp(i: nat)

  function ProgressOf(s: State, i: nat): Option<Progress> {
    if i in s.progress then Some(s.progress[i]) else None
  }

  predicate Enabled(c: Setup, s: State, a: Action) {
    match a
    case Other(b) => D.Enabled(c.job, s.run, b) && !b.Assign? && (b.Upsert? ==> b.element.None?)
    case Keep(i) => D.At(s.run, i, D.Upserting)
    case FindCluster(i) => D.At(s.run, i, D.Assigning) && i !in s.progress
    case Place(i) => D.At(s.run, i, D.Assigning) && i in s.progress && s.progress[i].Clustered?
    case Audit(i) => D.At(s.run, i, D.Assigning) && i in s.progress && s.progress[i].Updated?
    case GiveUp(i) => D.At(s.run, i, D.Assigning)
  }

  /** What the scan's element is to be assigned to. */
  function RequestOf(c: Setup, scan: D.Scan): Assignment.Request {
    c.request(if scan.outcome.element.Some? then scan.outcome.element.value else 0, scan.outcome.sysName)
  }

  function Assigned(c: Setup, s: State, i: nat): D.State
    requires D.At(s.run, i, D.Assigning)
  {
    D.Step(c.job, s.run, D.Assign(i))
  }

  function GivenUp(c: Setup, s: State, i: nat): State
    requires D.At(s.run, i, D.Assigning)
  {
    s.(run := Assigned(c, s, i), gaveUp := s.gaveUp + {i})
  }

  ghost function Step(c: Setup, s: State, a: Action): State
    requires Enabled(c, s, a)
  {
    match a
    case Other(b) => s.(run := D.Step(c.job, s.run, b))
    case Keep(i) =>
      var o := s.run.scans[i].outcome;
      var (db, id) := UpsertDiscovered(s.db, o.host, o.sysName);
      s.(run := D.Step(c.job, s.run, D.Upsert(i, Some(id))), db := db)
    case FindCluster(i) =>
      var (db, clusterId) := Assignment.ClusterFor(s.db, RequestOf(c, s.run.scans[i]).key);
      s.(db := db, progress := s.progress[i := Clustered(clusterId)])
    case Place(i) =>
      var q, clusterId := RequestOf(c, s.run.scans[i]), s.progress[i].clusterId;
      (match UpdateAssignment(s.db, q.elementId, clusterId, q.ruleId, Assignment.StatusOf(clusterId), q.key)
       case Err(_) => GivenUp(c, s, i)
       case Ok(db) => s.(db := db, progress := s.progress[i := Updated(clusterId)]))
    case Audit(i) =>
      (match InsertHistory(s.db, Assignment.RowOf(RequestOf(c, s.run.scans[i]), s.progress[i].clusterId))
       case Err(_) => GivenUp(c, s, i)
       case Ok(db) => s.(run := Assigned(c, s, i), db := db, log := s.log + [i]))
    case GiveUp(i) => GivenUp(c, s, i)
  }

  ghost predicate Leads(c: Setup, s: State, run: seq<Action>, t: State)
    decreases |run|
  {
    if run == [] then s == t
    else Enabled(c, s, run[0]) && Leads(c, Step(c, s, run[0]), run[1..], t)
  }

  function Start(db: Db): State { State(D.START, db, map[], [], {}) }

  ghost predicate Reaches(c: Setup, db: Db, run: seq<Action>, s: State) { Leads(c, Start(db), run, s) }

  // ----- the invariant -----

  /** Requests are for the element asked about and name rules of the tables, and no host is listed twice. */
  ghost predicate Proper(c: Setup, db: Db) {
    && ValidDb(db)
    && (forall id, n :: c.request(id, n).elementId == id)
    && (forall id, n :: c.request(id, n).ruleId.Some? ==> c.request(id, n).ruleId.value in db.rules)
    && forall i, k | 0 <= i < k < |c.job.targets| :: c.job.host(c.job.targets[i]) != c.job.host(c.job.targets[k])
  }

  predicate HasElement(scan: D.Scan) { scan.outcome.element.Some? }

  /** The scan's element is stored under the scan's host and the name that was answered. */
  predicate Known(db: Db, scan: D.Scan)
    requires HasElement(scan)
  {
    var id := scan.outcome.element.value;
    id in db.elements && db.elements[id].ip == scan.outcome.host && db.elements[id].sysName == scan.outcome.sysName
  }

  predicate ProgressOk(c: Setup, db: Db, scan: D.Scan, p: Progress) {
    var q := RequestOf(c, scan);
    && (p.clusterId.Some? <==> q.key != "")
    && (p.clusterId.Some? ==> p.clusterId.value in db.clusters && db.clusters[p.clusterId.value].lookupKey == q.key)
    && (p.Updated? ==> Redistribution.Settled(db, q))
  }

  predicate Facts(c: Setup, db: Db, scan: D.Scan, p: Option<Progress>, gaveUp: bool) {
    && (HasElement(scan) ==> Known(db, scan))
    && (p.Some? ==> HasElement(scan) && ProgressOk(c, db, scan, p.value))
    && (D.HadAssigned(scan) && !gaveUp ==> p.Some? && p.value.Updated?)
    && (gaveUp ==> D.HadAssigned(scan))
  }

  ghost predicate AllFacts(c: Setup, s: State) {
    && (forall i | 0 <= i < |s.run.scans| :: Facts(c, s.db, s.run.scans[i], ProgressOf(s, i), i in s.gaveUp))
    && (forall i | i in s.progress || i in s.gaveUp :: i < |s.run.scans|)
  }

  /** The assignments that came to their end correspond one to one to the history rows of the run. */
  ghost predicate LogOk(
    c: Setup, scans: seq<D.Scan>, gaveUp: set<nat>, log: seq<nat>, before: seq<History>, now: seq<History>)
  {
    && |now| == |before| + |log| && before <= now && D.Distinct(log)
    && (forall k | 0 <= k < |log| ::
          && log[k] < |scans| && D.HadAssigned(scans[log[k]]) && log[k] !in gaveUp
          && var row := now[|before| + k]; row == Assignment.RowOf(RequestOf(c, scans[log[k]]), row.clusterId))
    && (forall i | 0 <= i < |scans| && D.HadAssigned(scans[i]) && i !in gaveUp :: i in log)
  }

  predicate Targeted(job: D.Job, ip: string) { exists i | 0 <= i < |job.targets| :: job.host(job.targets[i]) == ip }

  /** Elements with other addresses are left alone. */
  ghost predicate OthersKept(job: D.Job, before: Db, db: Db) {
    forall e | e in before.elements && !Targeted(job, before.elements[e].ip) ::
      e in db.elements && db.elements[e] == before.elements[e]
  }

  ghost predicate TablesOk(c: Setup, before: Db, s: State) {
    && ValidDb(s.db) && s.db.rules == before.rules
    && AllFacts(c, s) && LogOk(c, s.run.scans, s.gaveUp, s.log, before.history, s.db.history)
    && OthersKept(c.job, before, s.db)
  }

  /** What the tables need to know of a scan: its host, and when it has an element. */
  predicate Fits(target: string, job: D.Job, scan: D.Scan) {
    && scan.outcome.host == job.host(target)
    && (scan.pc.Asking? || scan.pc.Upserting? ==> !HasElement(scan))
    && (scan.pc.Assigning? ==> HasElement(scan))
  }

  ghost predicate ScansFit(job: D.Job, scans: seq<D.Scan>) {
    |scans| <= |job.targets| && forall i | 0 <= i < |scans| :: Fits(job.targets[i], job, scans[i])
  }

  ghost predicate Inv(c: Setup, before: Db, s: State) { D.Inv(c.job, s.run) && TablesOk(c, before, s) }

  lemma InvFits(job: D.Job, run: D.State)
    requires D.Inv(job, run)
    ensures ScansFit(job, run.scans)
  {
    forall i | 0 <= i < |run.scans| ensures Fits(job.targets[i], job, run.scans[i]) {
      assert D.ScanOk(job, job.targets[i], run.scans[i]);
    }
  }

  // ----- what a statement for one host leaves alone -----

  ghost predicate Undisturbed(db: Db, after: Db, host: string) {
    && (forall e | e in db.elements && db.elements[e].ip != host ::
          e in after.elements && after.elements[e] == db.elements[e])
    && (forall d | d in db.clusters :: d in after.clusters && after.clusters[d].lookupKey == db.clusters[d].lookupKey)
    && after.rules == db.rules
  }

  lemma FactsStay(
    c: Setup, before: Db, db: Db, after: Db, host: string, scan: D.Scan, p: Option<Progress>, gaveUp: bool)
    requires Proper(c, before) && Facts(c, db, scan, p, gaveUp)
    requires Undisturbed(db, after, host) && scan.outcome.host != host
    ensures Facts(c, after, scan, p, gaveUp)
  {
    if HasElement(scan) { assert RequestOf(c, scan).elementId == scan.outcome.element.value; }
  }

  lemma OthersStay(c: Setup, before: Db, db: Db, after: Db, i: nat)
    requires i < |c.job.targets| && Undisturbed(db, after, c.job.host(c.job.targets[i]))
    requires OthersKept(c.job, before, db)
    ensures OthersKept(c.job, before, after)
  {
  }

  lemma KeepStatement(db: Db, host: string, n: string)
    requires ValidDb(db)
    ensures var (after, id) := UpsertDiscovered(db, host, n);
            && ValidDb(after) && Undisturbed(db, after, host) && after.history == db.history
            && id in after.elements && after.elements[id].ip == host && after.elements[id].sysName == n
  {
    UpsertDiscoveredValid(db, host, n);
    var (after, id) := UpsertDiscovered(db, host, n);
    forall e | e in db.elements && db.elements[e].ip != host
      ensures e in after.elements && after.elements[e] == db.elements[e]
    {
      assert e < db.nextId;
    }
  }

  lemma ClusterStatement(db: Db, key: string, host: string)
    requires ValidDb(db)
    ensures var (after, d) := Assignment.ClusterFor(db, key);
            && ValidDb(after) && Undisturbed(db, after, host)
            && after.history == db.history && after.elements == db.elements
            && (d.Some? <==> key != "")
            && (d.Some? ==> d.value in after.clusters && after.clusters[d.value].lookupKey == key)
  {
    Assignment.ClusterStep(db, key);
    if key != "" { assert db.nextId !in db.clusters; }
  }

  lemma PlaceStatement(c: Setup, before: Db, db: Db, scan: D.Scan, d: Option<Id>)
    requires Proper(c, before) && ValidDb(db) && db.rules == before.rules
    requires HasElement(scan) && Known(db, scan) && ProgressOk(c, db, scan, Clustered(d))
    ensures var q := RequestOf(c, scan);
            var r := UpdateAssignment(db, q.elementId, d, q.ruleId, Assignment.StatusOf(d), q.key);
            && r.Ok? && ValidDb(r.value) && Undisturbed(db, r.value, scan.outcome.host)
            && r.value.history == db.history && Known(r.value, scan) && ProgressOk(c, r.value, scan, Updated(d))
  {
    var q := RequestOf(c, scan);
    assert q.elementId == scan.outcome.element.value;
    UpdateAssignmentValid(db, q.elementId, d, q.ruleId, Assignment.StatusOf(d), q.key);
  }

  lemma AuditStatement(c: Setup, before: Db, db: Db, scan: D.Scan, d: Option<Id>)
    requires Proper(c, before) && ValidDb(db) && db.rules == before.rules
    requires HasElement(scan) && Known(db, scan) && ProgressOk(c, db, scan, Updated(d))
    ensures var row := Assignment.RowOf(RequestOf(c, scan), d);
            var r := InsertHistory(db, row);
            r.Ok? && ValidDb(r.value) && r.value == db.(history := db.history + [row])
  {
    assert RequestOf(c, scan).elementId == scan.outcome.element.value;
    InsertHistoryValid(db, Assignment.RowOf(RequestOf(c, scan), d));
  }

  // ----- every step keeps it -----

  ghost predicate Ready(c: Setup, before: Db, s: State) {
    Proper(c, before) && TablesOk(c, before, s) && ScansFit(c.job, s.run.scans)
  }

  /** One scan moves, by a statement for its own host. */
  lemma FactsAfter(c: Setup, before: Db, s: State, t: State, i: nat)
    requires Proper(c, before) && ScansFit(c.job, s.run.scans) && AllFacts(c, s) && i < |s.run.scans| == |t.run.scans|
    requires forall k | 0 <= k < |s.run.scans| && k != i :: t.run.scans[k] == s.run.scans[k]
    requires forall k: nat | k != i :: ProgressOf(t, k) == ProgressOf(s, k) && (k in t.gaveUp <==> k in s.gaveUp)
    requires Undisturbed(s.db, t.db, s.run.scans[i].outcome.host)
    requires Facts(c, t.db, t.run.scans[i], ProgressOf(t, i), i in t.gaveUp)
    ensures AllFacts(c, t)
  {
    forall k | 0 <= k < |t.run.scans| && k != i
      ensures Facts(c, t.db, t.run.scans[k], ProgressOf(t, k), k in t.gaveUp)
    {
      assert Fits(c.job.targets[k], c.job, s.run.scans[k]) && Fits(c.job.targets[i], c.job, s.run.scans[i]);
      FactsStay(c, before, s.db, t.db, s.run.scans[i].outcome.host, s.run.scans[k], ProgressOf(s, k), k in s.gaveUp);
    }
    forall k: nat | k in t.progress || k in t.gaveUp ensures k < |t.run.scans| {
      if k != i { assert ProgressOf(t, k) == ProgressOf(s, k); }
    }
  }

  lemma LogStays(
    c: Setup, scans: seq<D.Scan>, gaveUp: set<nat>, log: seq<nat>, before: seq<History>, now: seq<History>,
    i: nat, scan: D.Scan, gaveUp': set<nat>)
    requires LogOk(c, scans, gaveUp, log, before, now) && i < |scans| && !D.HadAssigned(scans[i])
    requires D.HadAssigned(scan) ==> i in gaveUp'
    requires forall k: nat | k != i :: k in gaveUp' <==> k in gaveUp
    ensures LogOk(c, scans[i := scan], gaveUp', log, before, now)
  {
    forall k | 0 <= k < |log| ensures log[k] != i && scans[i := scan][log[k]] == scans[log[k]] {}
  }

  lemma LogGrows(
    c: Setup, scans: seq<D.Scan>, gaveUp: set<nat>, log: seq<nat>, before: seq<History>, now: seq<History>,
    i: nat, scan: D.Scan, d: Option<Id>)
    requires LogOk(c, scans, gaveUp, log, before, now) && i < |scans| && !D.HadAssigned(scans[i])
    requires D.HadAssigned(scan) && i !in gaveUp
    ensures LogOk(c, scans[i := scan], gaveUp, log + [i], before, now + [Assignment.RowOf(RequestOf(c, scan), d)])
  {
    var scans', log' := scans[i := scan], log + [i];
    forall k | 0 <= k < |log| ensures log[k] != i && scans'[log[k]] == scans[log[k]] {}
    assert log'[|log|] == i;
    forall k | 0 <= k < |scans'| && D.HadAssigned(scans'[k]) && k !in gaveUp ensures k in log' {
      if k != i { assert k in log; }
    }
  }

  lemma KeepStep(c: Setup, before: Db, s: State, i: nat)
    requires Ready(c, before, s) && Enabled(c, s, Keep(i))
    ensures TablesOk(c, before, Step(c, s, Keep(i)))
  {
    var t, scan := Step(c, s, Keep(i)), s.run.scans[i];
    assert Fits(c.job.targets[i], c.job, scan);
    KeepStatement(s.db, scan.outcome.host, scan.outcome.sysName);
    var id := UpsertDiscovered(s.db, scan.outcome.host, scan.outcome.sysName).1;
    var scan' := D.Advanced(scan, D.Upsert(i, Some(id)));
    assert t.run.scans == s.run.scans[i := scan'];
    assert Facts(c, s.db, scan, ProgressOf(s, i), i in s.gaveUp);
    FactsAfter(c, before, s, t, i);
    LogStays(c, s.run.scans, s.gaveUp, s.log, before.history, s.db.history, i, scan', s.gaveUp);
    OthersStay(c, before, s.db, t.db, i);
  }

  lemma FindClusterStep(c: Setup, before: Db, s: State, i: nat)
    requires Ready(c, before, s) && Enabled(c, s, FindCluster(i))
    ensures TablesOk(c, before, Step(c, s, FindCluster(i)))
  {
    var t, scan := Step(c, s, FindCluster(i)), s.run.scans[i];
    assert Fits(c.job.targets[i], c.job, scan);
    ClusterStatement(s.db, RequestOf(c, scan).key, scan.outcome.host);
    assert Facts(c, s.db, scan, ProgressOf(s, i), i in s.gaveUp);
    FactsAfter(c, before, s, t, i);
    OthersStay(c, before, s.db, t.db, i);
  }

  lemma PlaceStep(c: Setup, before: Db, s: State, i: nat)
    requires Ready(c, before, s) && Enabled(c, s, Place(i))
    ensures TablesOk(c, before, Step(c, s, Place(i))) && Step(c, s, Place(i)).gaveUp == s.gaveUp
  {
    var t, scan := Step(c, s, Place(i)), s.run.scans[i];
    assert Fits(c.job.targets[i], c.job, scan);
    assert Facts(c, s.db, scan, ProgressOf(s, i), i in s.gaveUp);
    PlaceStatement(c, before, s.db, scan, s.progress[i].clusterId);
    FactsAfter(c, before, s, t, i);
    OthersStay(c, before, s.db, t.db, i);
  }

  lemma AuditStep(c: Setup, before: Db, s: State, i: nat)
    requires Ready(c, before, s) && Enabled(c, s, Audit(i))
    ensures TablesOk(c, before, Step(c, s, Audit(i))) && Step(c, s, Audit(i)).gaveUp == s.gaveUp
  {
    var t, scan := Step(c, s, Audit(i)), s.run.scans[i];
    assert Fits(c.job.targets[i], c.job, scan);
    assert Facts(c, s.db, scan, ProgressOf(s, i), i in s.gaveUp);
    AuditStatement(c, before, s.db, scan, s.progress[i].clusterId);
    var scan' := D.Advanced(scan, D.Assign(i));
    assert t.run.scans == s.run.scans[i := scan'] && RequestOf(c, scan') == RequestOf(c, scan);
    FactsAfter(c, before, s, t, i);
    LogGrows(c, s.run.scans, s.gaveUp, s.log, before.history, s.db.history, i, scan', s.progress[i].clusterId);
    OthersStay(c, before, s.db, t.db, i);
  }

  lemma GiveUpStep(c: Setup, before: Db, s: State, i: nat)
    requires Ready(c, before, s) && Enabled(c, s, GiveUp(i))
    ensures TablesOk(c, before, Step(c, s, GiveUp(i)))
  {
    var t, scan := Step(c, s, GiveUp(i)), s.run.scans[i];
    assert Fits(c.job.targets[i], c.job, scan);
    assert Facts(c, s.db, scan, ProgressOf(s, i), i in s.gaveUp);
    var scan' := D.Advanced(scan, D.Assign(i));
    assert t.run.scans == s.run.scans[i := scan'] && RequestOf(c, scan') == RequestOf(c, scan);
    FactsAfter(c, before, s, t, i);
    LogStays(c, s.run.scans, s.gaveUp, s.log, before.history, s.db.history, i, scan', t.gaveUp);
  }

  /** A scan's step that is none of the statements: it asks, records its result, or has no element. */
  lemma QuietStep(c: Setup, before: Db, s: State, b: D.Action)
    requires Ready(c, before, s) && Enabled(c, s, Other(b)) && (b.Reply? || b.Upsert? || b.Record?)
    ensures TablesOk(c, before, Step(c, s, Other(b)))
  {
    var t, scan := Step(c, s, Other(b)), s.run.scans[b.i];
    assert Fits(c.job.targets[b.i], c.job, scan);
    var scan' := D.Advanced(scan, b);
    assert t.run.scans == s.run.scans[b.i := scan'] && !D.HadAssigned(scan');
    assert Facts(c, s.db, scan, ProgressOf(s, b.i), b.i in s.gaveUp);
    QuietFacts(c, s.db, scan, b, ProgressOf(s, b.i));
    FactsAfter(c, before, s, t, b.i);
    LogStays(c, s.run.scans, s.gaveUp, s.log, before.history, s.db.history, b.i, scan', s.gaveUp);
  }

  lemma QuietFacts(c: Setup, db: Db, scan: D.Scan, b: D.Action, p: Option<Progress>)
    requires Facts(c, db, scan, p, false) && !scan.pc.Done? && (b.Upsert? ==> b.element.None?)
    requires (b.Reply? && scan.pc.Asking?) || (b.Upsert? && scan.pc.Upserting?) || (b.Record? && scan.pc.Recording?)
    requires scan.pc.Asking? || scan.pc.Upserting? ==> !HasElement(scan)
    ensures Facts(c, db, D.Advanced(scan, b), p, false)
  {
  }

  lemma LaunchStep(c: Setup, before: Db, s: State)
    requires Ready(c, before, s) && Enabled(c, s, Other(D.Launch))
    ensures TablesOk(c, before, Step(c, s, Other(D.Launch)))
  {
    var t := Step(c, s, Other(D.Launch));
    var n, scan := |s.run.scans|, D.Launched(c.job, c.job.targets[|s.run.scans|]);
    assert t.run.scans == s.run.scans + [scan];
    forall i | 0 <= i < |t.run.scans| ensures Facts(c, t.db, t.run.scans[i], ProgressOf(t, i), i in t.gaveUp) {
      if i < n { assert Facts(c, s.db, s.run.scans[i], ProgressOf(s, i), i in s.gaveUp); }
    }
  }

  lemma OtherStep(c: Setup, before: Db, s: State, b: D.Action)
    requires Ready(c, before, s) && Enabled(c, s, Other(b))
    ensures TablesOk(c, before, Step(c, s, Other(b)))
  {
    if b.Reply? || b.Upsert? || b.Record? {
      QuietStep(c, before, s, b);
    } else if b.Launch? {
      LaunchStep(c, before, s);
    } else {
        LauncherLeavesScans(c.job, s.run, b);
    }
  }

  lemma LauncherLeavesScans(job: D.Job, run: D.State, b: D.Action)
    requires D.Enabled(job, run, b) && !b.Reply? && !b.Upsert? && !b.Record? && !b.Assign? && !b.Launch?
    ensures D.Step(job, run, b).scans == run.scans
  {
  }

  /** The run itself takes one step of the discovery system, or none. */
  lemma RunSteps(c: Setup, s: State, a: Action)
    requires Enabled(c, s, a)
    ensures Step(c, s, a).run == s.run
         || exists b :: D.Enabled(c.job, s.run, b) && Step(c, s, a).run == D.Step(c.job, s.run, b)
  {
    match a
    case Other(b) => assert D.Enabled(c.job, s.run, b);
    case Keep(i) =>
      var b := D.Upsert(i, Some(UpsertDiscovered(s.db, s.run.scans[i].outcome.host, s.run.scans[i].outcome.sysName).1));
      assert D.Enabled(c.job, s.run, b) && Step(c, s, a).run == D.Step(c.job, s.run, b);
    case FindCluster(_) =>
    case Place(i) => assert D.Enabled(c.job, s.run, D.Assign(i));
    case Audit(i) => assert D.Enabled(c.job, s.run, D.Assign(i));
    case GiveUp(i) => assert D.Enabled(c.job, s.run, D.Assign(i));
  }

  lemma TablesStep(c: Setup, before: Db, s: State, a: Action)
    requires Ready(c, before, s) && Enabled(c, s, a)
    ensures TablesOk(c, before, Step(c, s, a))
    ensures !a.GiveUp? ==> Step(c, s, a).gaveUp == s.gaveUp
  {
    match a
    case Other(b) => OtherStep(c, before, s, b);
    case Keep(i) => KeepStep(c, before, s, i);
    case FindCluster(i) => FindClusterStep(c, before, s, i);
    case Place(i) => PlaceStep(c, before, s, i);
    case Audit(i) => AuditStep(c, before, s, i);
    case GiveUp(i) => GiveUpStep(c, before, s, i);
  }

  /** Every statement of every scan keeps the invariant, and no assignment fails but by a failing statement. */
  lemma StepKeepsInv(c: Setup, before: Db, s: State, a: Action)
    requires Proper(c, before) && Inv(c, before, s) && Enabled(c, s, a)
    ensures Inv(c, before, Step(c, s, a))
    ensures !a.GiveUp? ==> Step(c, s, a).gaveUp == s.gaveUp
  {
    InvFits(c.job, s.run);
    TablesStep(c, before, s, a);
    RunSteps(c, s, a);
    if Step(c, s, a).run != s.run {
      var b :| D.Enabled(c.job, s.run, b) && Step(c, s, a).run == D.Step(c.job, s.run, b);
      D.StepKeepsInv(c.job, s.run, b);
    }
  }

  // ----- every run -----

  /** What every step of a run keeps, the run keeps. */
  lemma {:induction false} RunKeeps(
    c: Setup, allowed: Action -> bool, inv: State -> bool, s: State, run: seq<Action>, t: State)
    requires forall u, a | inv(u) && allowed(a) && Enabled(c, u, a) :: inv(Step(c, u, a))
    requires inv(s) && Leads(c, s, run, t) && forall k | 0 <= k < |run| :: allowed(run[k])
    ensures inv(t)
    decreases |run|
  {
    if run != [] { RunKeeps(c, allowed, inv, Step(c, s, run[0]), run[1..], t); }
  }

  lemma StartInv(c: Setup, before: Db)
    requires Proper(c, before)
    ensures Inv(c, before, Start(before))
  {
  }

  lemma ReachableInv(c: Setup, before: Db, run: seq<Action>, s: State)
    requires Proper(c, before) && Reaches(c, before, run, s)
    ensures Inv(c, before, s)
  {
    StartInv(c, before);
    forall u, a | Inv(c, before, u) && Enabled(c, u, a) ensures Inv(c, before, Step(c, u, a)) {
      StepKeepsInv(c, before, u, a);
    }
    RunKeeps(c, a => true, u => Inv(c, before, u), Start(before), run, s);
  }

  ghost predicate IsDiscoveryRun(job: D.Job, run: D.State) { exists steps :: D.Reaches(job, steps, run) }

  lemma RunGoesOn(job: D.Job, run: D.State, b: D.Action)
    requires IsDiscoveryRun(job, run) && D.Enabled(job, run, b)
    ensures IsDiscoveryRun(job, D.Step(job, run, b))
  {
    var steps :| D.Reaches(job, steps, run);
    D.LeadsOn(job, D.START, steps, run, b);
    assert D.Reaches(job, steps + [b], D.Step(job, run, b));
  }

  /** The tables do not restrict or extend the run: what it does is a run of the discovery system, so all
      that is proved there holds here. */
  lemma RunIsDiscoveryRun(c: Setup, before: Db, run: seq<Action>, s: State)
    requires Reaches(c, before, run, s)
    ensures IsDiscoveryRun(c.job, s.run)
  {
    assert D.Reaches(c.job, [], D.START);
    forall u: State, a | IsDiscoveryRun(c.job, u.run) && Enabled(c, u, a)
      ensures IsDiscoveryRun(c.job, Step(c, u, a).run)
    {
      RunSteps(c, u, a);
      if Step(c, u, a).run != u.run {
        var b :| D.Enabled(c.job, u.run, b) && Step(c, u, a).run == D.Step(c.job, u.run, b);
        RunGoesOn(c.job, u.run, b);
      }
    }
    RunKeeps(c, a => true, (u: State) => IsDiscoveryRun(c.job, u.run), Start(before), run, s);
  }

  /** In every reachable state, whatever failed: an element whose assignment came to its end is stored
      under its scan's host and answered name, and is where that name wants it, in a cluster of that key. */
  lemma AssignedArePlaced(c: Setup, before: Db, run: seq<Action>, s: State, i: nat)
    requires Proper(c, before) && Reaches(c, before, run, s)
    requires i < |s.run.scans| && D.HadAssigned(s.run.scans[i]) && i !in s.gaveUp
    ensures var scan := s.run.scans[i];
            && i < |c.job.targets| && scan.outcome.host == c.job.host(c.job.targets[i]) && Known(s.db, scan)
            && Redistribution.Settled(s.db, RequestOf(c, scan)) && i in s.log
            && var row := s.db.elements[scan.outcome.element.value]; Assignment.InClusterOf(s.db, row, row.key)
  {
    ReachableInv(c, before, run, s);
    InvFits(c.job, s.run);
    var scan := s.run.scans[i];
    assert Fits(c.job.targets[i], c.job, scan) && Facts(c, s.db, scan, ProgressOf(s, i), i in s.gaveUp);
    var row := s.db.elements[scan.outcome.element.value];
    assert Resolves(s.db, row.clusterId, row.ruleId, row.key);
  }

  // ----- without failures -----

  /** The step of the tables for a step of the discovery system. */
  function StepFor(s: State, b: D.Action): Action {
    if b.Upsert? then Keep(b.i)
    else if b.Assign? then
      if b.i !in s.progress then FindCluster(b.i) else if s.progress[b.i].Clustered? then Place(b.i) else Audit(b.i)
    else Other(b)
  }

  /** Failures are never forced: until the run has returned, a step that does not fail can be taken. */
  lemma SmoothNeverStuck(c: Setup, before: Db, run: seq<Action>, s: State)
    requires Reaches(c, before, run, s) && !s.run.launcher.Returned?
    ensures Enabled(c, s, StepFor(s, D.NextAction(s.run))) && Smooth(StepFor(s, D.NextAction(s.run)))
  {
    RunIsDiscoveryRun(c, before, run, s);
    var steps :| D.Reaches(c.job, steps, s.run);
    D.NeverStuck(c.job, steps, s.run);
  }

  /** No statement fails: no element is refused, and no assignment is given up. */
  predicate Smooth(a: Action) { !a.GiveUp? && (a.Other? ==> !a.a.Upsert?) }

  predicate Answered(scan: D.Scan) { scan.answer.Some? && scan.answer.value.Identity? }

  predicate Stored(scan: D.Scan) { Answered(scan) && !scan.pc.Upserting? ==> HasElement(scan) }

  predicate NoFailures(s: State) {
    s.gaveUp == {} && forall i | 0 <= i < |s.run.scans| :: Stored(s.run.scans[i])
  }

  lemma DiscoveryStores(job: D.Job, run: D.State, b: D.Action)
    requires D.Enabled(job, run, b) && (b.Upsert? ==> b.element.Some?)
    requires forall i | 0 <= i < |run.scans| :: Stored(run.scans[i])
    ensures var t := D.Step(job, run, b); forall i | 0 <= i < |t.scans| :: Stored(t.scans[i])
  {
  }

  /** A smooth step of the run stores what it should. */
  lemma SmoothRunSteps(c: Setup, s: State, a: Action)
    requires Enabled(c, s, a) && Smooth(a) && Step(c, s, a).gaveUp == s.gaveUp && NoFailures(s)
    ensures NoFailures(Step(c, s, a))
  {
    match a
    case Other(b) => DiscoveryStores(c.job, s.run, b);
    case Keep(i) =>
      var o := s.run.scans[i].outcome;
      DiscoveryStores(c.job, s.run, D.Upsert(i, Some(UpsertDiscovered(s.db, o.host, o.sysName).1)));
    case FindCluster(_) =>
    case Place(i) => DiscoveryStores(c.job, s.run, D.Assign(i));
    case Audit(i) => DiscoveryStores(c.job, s.run, D.Assign(i));
  }

  lemma SmoothRuns(c: Setup, before: Db, run: seq<Action>, s: State)
    requires Proper(c, before) && Reaches(c, before, run, s) && forall k | 0 <= k < |run| :: Smooth(run[k])
    ensures Inv(c, before, s) && NoFailures(s)
  {
    StartInv(c, before);
    forall u, a | Inv(c, before, u) && NoFailures(u) && Smooth(a) && Enabled(c, u, a)
      ensures Inv(c, before, Step(c, u, a)) && NoFailures(Step(c, u, a))
    {
      StepKeepsInv(c, before, u, a);
      SmoothRunSteps(c, u, a);
    }
    RunKeeps(c, Smooth, u => Inv(c, before, u) && NoFailures(u), Start(before), run, s);
  }

  /** When no statement failed, every target of a completed job that answered with a name has its element,
      and the element's assignment came to its end. */
  lemma AnsweredAreAssigned(c: Setup, before: Db, run: seq<Action>, s: State, i: nat, n: string)
    requires Proper(c, before) && Reaches(c, before, run, s) && forall k | 0 <= k < |run| :: Smooth(run[k])
    requires s.run.status.Completed? && i < |s.run.scans|
    ensures |s.run.scans| == |c.job.targets| && s.gaveUp == {}
    ensures D.HadAssigned(s.run.scans[i]) <==> Answered(s.run.scans[i])
    ensures s.run.scans[i].answer == Some(D.Identity(n)) ==> s.run.scans[i].outcome.sysName == n
  {
    SmoothRuns(c, before, run, s);
    RunIsDiscoveryRun(c, before, run, s);
    var steps :| D.Reaches(c.job, steps, s.run);
    D.CompletedMeansAll(c.job, steps, s.run);
    D.OneResultPerScan(c.job, steps, s.run, i, 0, 0);
    assert Stored(s.run.scans[i]);
  }

  function AnsweredScans(scans: seq<D.Scan>): set<nat> { set i: nat | i < |scans| && Answered(scans[i]) }

  function Members(log: seq<nat>): set<nat> { set i | i in log }

  lemma {:induction false} MembersCount(log: seq<nat>)
    requires D.Distinct(log)
    ensures |Members(log)| == |log|
  {
    if log != [] {
      MembersCount(log[1..]);
      assert Members(log) == Members(log[1..]) + {log[0]};
    }
  }

  /** And the audit trail has grown by exactly one row for each such target, while elements with other
      addresses are as they were. */
  lemma CompletedJobAudits(c: Setup, before: Db, run: seq<Action>, s: State)
    requires Proper(c, before) && Reaches(c, before, run, s) && forall k | 0 <= k < |run| :: Smooth(run[k])
    requires s.run.status.Completed?
    ensures before.history <= s.db.history
    ensures |s.db.history| == |before.history| + |AnsweredScans(s.run.scans)|
    ensures OthersKept(c.job, before, s.db)
  {
    ReachableInv(c, before, run, s);
    forall i: nat ensures i in s.log <==> i in AnsweredScans(s.run.scans) {
      if i < |s.run.scans| { AnsweredAreAssigned(c, before, run, s, i, ""); }
    }
    assert Members(s.log) == AnsweredScans(s.run.scans);
    MembersCount(s.log);
  }

  lemma LoggedRow(
    c: Setup, scans: seq<D.Scan>, gaveUp: set<nat>, log: seq<nat>, before: seq<History>, now: seq<History>, i: nat)
    returns (k: nat)
    requires LogOk(c, scans, gaveUp, log, before, now) && i < |scans| && D.HadAssigned(scans[i]) && i !in gaveUp
    ensures |before| <= k < |now|
    ensures now[k] == Assignment.RowOf(RequestOf(c, scans[i]), now[k].clusterId)
  {
    var p: nat :| p < |log| && log[p] == i;
    k := |before| + p;
  }

  /** The row of a scan whose assignment came to its end: it is one of the run's, and says what the element
      says. */
  lemma AssignedIsAudited(c: Setup, before: Db, run: seq<Action>, s: State, i: nat) returns (k: nat)
    requires Proper(c, before) && Reaches(c, before, run, s)
    requires i < |s.run.scans| && D.HadAssigned(s.run.scans[i]) && i !in s.gaveUp
    ensures |before.history| <= k < |s.db.history|
    ensures var (q, row) := (RequestOf(c, s.run.scans[i]), s.db.history[k]);
            && q.elementId in s.db.elements
            && row.elementId == q.elementId && row.clusterId == s.db.elements[q.elementId].clusterId
            && row.ruleId == q.ruleId && row.key == q.key && row.trigger == q.trigger
  {
    ReachableInv(c, before, run, s);
    AssignedArePlaced(c, before, run, s, i);
    k := LoggedRow(c, s.run.scans, s.gaveUp, s.log, before.history, s.db.history, i);
    Redistribution.SettledIsPlaced(s.db, RequestOf(c, s.run.scans[i]), k);
  }

  ghost function SetupFor(job: D.Job, e: RuleEngine.Engine, rules: seq<RuleEngine.Rule>): Setup {
    Setup(job, (id: Id, n: string) => Redistribution.RequestFor(e, rules, Redistribution.Target(id, n), Discovery))
  }

  /** The rules are rows of the tables, and no host is listed twice. */
  ghost predicate CanScan(job: D.Job, rules: seq<RuleEngine.Rule>, db: Db) {
    && ValidDb(db) && (forall i | 0 <= i < |rules| :: rules[i].id in db.rules)
    && forall i, k | 0 <= i < k < |job.targets| :: job.host(job.targets[i]) != job.host(job.targets[k])
  }

  lemma SetupIsProper(job: D.Job, e: RuleEngine.Engine, rules: seq<RuleEngine.Rule>, db: Db)
    requires CanScan(job, rules, db)
    ensures Proper(SetupFor(job, e, rules), db)
  {
    forall id: Id, n: string
      ensures var q := SetupFor(job, e, rules).request(id, n); q.ruleId.Some? ==> q.ruleId.value in db.rules
    {
      RuleEngine.EvaluationNamesRule(e, n, rules);
    }
  }

  /** End to end, for every interleaving of the scans' statements in which none of them fails: after a
      completed job, every target that answered with name `n` has an element under its host with that
      name, in the cluster of exactly the key to which `n` evaluates under the job's rules, and an audit row
      that says so. */
  lemma CompletedJobPlaces(
    job: D.Job, e: RuleEngine.Engine, rules: seq<RuleEngine.Rule>, before: Db, run: seq<Action>, s: State,
    i: nat, n: string) returns (k: nat)
    requires CanScan(job, rules, before)
    requires Reaches(SetupFor(job, e, rules), before, run, s) && forall k | 0 <= k < |run| :: Smooth(run[k])
    requires s.run.status.Completed? && i < |s.run.scans| && s.run.scans[i].answer == Some(D.Identity(n))
    ensures |s.run.scans| == |job.targets| && HasElement(s.run.scans[i])
    ensures var id, o := s.run.scans[i].outcome.element.value, RuleEngine.Evaluation(e, n, rules);
            && id in s.db.elements
            && var row := s.db.elements[id];
               && row.ip == job.host(job.targets[i]) && row.sysName == n && row.ruleId == o.ruleId
               && Assignment.InClusterOf(s.db, row, o.key)
               && |before.history| <= k < |s.db.history|
               && Redistribution.Records(s.db.history[k], id, row.clusterId, o, Discovery)
  {
    var c := SetupFor(job, e, rules);
    SetupIsProper(job, e, rules, before);
    AnsweredAreAssigned(c, before, run, s, i, n);
    AssignedArePlaced(c, before, run, s, i);
    k := AssignedIsAudited(c, before, run, s, i);
    var id := s.run.scans[i].outcome.element.value;
    assert RequestOf(c, s.run.scans[i]) == c.request(id, n);
  }
}
