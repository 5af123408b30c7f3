/** Placing an element in the cluster of an evaluated key: three separately atomic steps, which other
    requests may come between. */
module Assignment {
  import opened Wrappers
  import opened Store

  /** An assignment after its evaluation: what is to be stored for which element. */
  datatype Request = Request(elementId: Id, key: string, ruleId: Option<Id>, trigger: Trigger)

  function RowOf(q: Request, clusterId: Option<Id>): History {
    History(q.elementId, clusterId, q.ruleId, q.key, q.trigger)
  }

  function StatusOf(clusterId: Option<Id>): Status { if clusterId.Some? then Assigned else Unassigned }

  // ----- concurrent assignments -----

  /** How far an assignment has come. */
  datatype Task =
    | Evaluated(q: Request)
    | Clustered(q: Request, clusterId: Option<Id>)
    | Stored(q: Request, clusterId: Option<Id>)
    | Finished(q: Request, clusterId: Option<Id>)
    | Failed(q: Request, error: DbError)

  type TaskId = nat

  /** `log` remembers which assignment wrote which history row. */
  datatype Sys = Sys(db: Db, tasks: map<TaskId, Task>, log: seq<TaskId>)

  datatype Action =
    | Begin(t: TaskId, q: Request)
    | Advance(t: TaskId)
    | RenameCluster(id: Id, name: string, description: Option<string>)
    | RemoveCluster(id: Id)
    | RemoveElement(id: Id)
    | Rediscover(ip: string, sysName: string)
    | AddRule
    | RemoveRule(id: Id)

  function After(s: Sys, r: Result<Db, DbError>): Sys { if r.Ok? then s.(db := r.value) else s }

  ghost function ClusterFor(db: Db, key: string): (Db, Option<Id>) {
    if key == "" then (db, None)
    else
      var (db', c) := GetOrCreate(db, key);
      (db', Some(c))
  }

  /** The next atomic step of one assignment. */
  ghost function AdvanceTask(s: Sys, t: TaskId): Sys
    requires t in s.tasks
  {
    match s.tasks[t]
    case Evaluated(q) =>
      var (db, c) := ClusterFor(s.db, q.key);
      s.(db := db, tasks := s.tasks[t := Clustered(q, c)])
    case Clustered(q, c) =>
      (match UpdateAssignment(s.db, q.elementId, c, q.ruleId, StatusOf(c), q.key)
       case Err(e) => s.(tasks := s.tasks[t := Failed(q, e)])
       case Ok(db) => s.(db := db, tasks := s.tasks[t := Stored(q, c)]))
    case Stored(q, c) =>
      (match InsertHistory(s.db, RowOf(q, c))
       case Err(e) => s.(tasks := s.tasks[t := Failed(q, e)])
       case Ok(db) => s.(db := db, tasks := s.tasks[t := Finished(q, c)], log := s.log + [t]))
    case _ => s
  }

  ghost function Step(s: Sys, a: Action): Sys {
    match a
    case Begin(t, q) => if t in s.tasks then s else s.(tasks := s.tasks[t := Evaluated(q)])
    case Advance(t) => if t in s.tasks then AdvanceTask(s, t) else s
    case RenameCluster(id, name, description) => After(s, Rename(s.db, id, name, description))
    case RemoveCluster(id) => After(s, DeleteCluster(s.db, id))
    case RemoveElement(id) => After(s, SoftDelete(s.db, id))
    case Rediscover(ip, sysName) => s.(db := UpsertDiscovered(s.db, ip, sysName).0)
    case AddRule => s.(db := CreateRule(s.db))
    case RemoveRule(id) => After(s, DeleteRule(s.db, id))
  }

  /** What the requests for clusters do when they succeed; when they fail, nothing. */
  lemma ClusterActionsSay(s: Sys, id: Id, text: string, other: string)
    ensures var t := Step(s, RenameCluster(id, text, Some(other)));
            if id in s.db.clusters then
              && id in t.db.clusters && t.db.clusters[id].displayName == text
              && t.db.clusters[id].description == Some(other) && t.db.elements == s.db.elements
            else t == s
    ensures var t := Step(s, RemoveCluster(id));
            if DeleteCluster(s.db, id).Ok? then t.db.clusters == s.db.clusters - {id} else t == s
  {
    DeleteSays(s.db, id);
  }

  /** The same for elements. */
  lemma ElementActionsSay(s: Sys, id: Id, ip: string, sysName: string)
    requires ValidDb(s.db)
    ensures var t := Step(s, RemoveElement(id));
            if id in s.db.elements && !s.db.elements[id].deleted
            then id in t.db.elements && t.db.elements[id].deleted else t == s
    ensures var t := Step(s, Rediscover(ip, sysName));
            exists e | e in t.db.elements :: t.db.elements[e].ip == ip && t.db.elements[e].sysName == sysName
  {
    UpsertSays(s.db, ip, sysName);
    assert UpsertDiscovered(s.db, ip, sysName).1 in Step(s, Rediscover(ip, sysName)).db.elements;
  }

  /** The same for rules. */
  lemma RuleActionsSay(s: Sys, id: Id)
    requires ValidDb(s.db)
    ensures Step(s, AddRule).db.rules > s.db.rules
    ensures var t := Step(s, RemoveRule(id));
            if DeleteRule(s.db, id).Ok? then t.db.rules == s.db.rules - {id} else t == s
  {
    RulesSay(s.db, id);
  }

  /** The state after a schedule: any interleaving of any number of requests. */
  ghost function Exec(s: Sys, schedule: seq<Action>): Sys
    decreases |schedule|
  {
    if schedule == [] then s else Exec(Step(s, schedule[0]), schedule[1..])
  }

  const START := Sys(EMPTY_DB, map[], [])

  /** A cluster that a task holds may have been deleted since, but it never comes to carry another key. */
  predicate Holds(db: Db, q: Request, c: Option<Id>) {
    && (c.Some? <==> q.key != "")
    && (c.Some? ==> c.value < db.nextId)
    && (c.Some? && c.value in db.clusters ==> db.clusters[c.value].lookupKey == q.key)
  }

  predicate TaskOk(db: Db, task: Task) {
    (task.Clustered? || task.Stored? || task.Finished?) ==> Holds(db, task.q, task.clusterId)
  }

  /** The history and the finished assignments correspond one to one. */
  ghost predicate LogOk(s: Sys) {
    && |s.log| == |s.db.history|
    && (forall i, j | 0 <= i < j < |s.log| :: s.log[i] != s.log[j])
    && (forall i | 0 <= i < |s.log| ::
          && s.log[i] in s.tasks && s.tasks[s.log[i]].Finished?
          && s.db.history[i] == RowOf(s.tasks[s.log[i]].q, s.tasks[s.log[i]].clusterId))
    && (forall t | t in s.tasks && s.tasks[t].Finished? :: t in s.log)
  }

  ghost predicate Inv(s: Sys) {
    ValidDb(s.db) && LogOk(s) && forall t | t in s.tasks :: TaskOk(s.db, s.tasks[t])
  }

  /** What no statement ever takes back: keys of clusters, ids once used, elements, history. */
  ghost predicate Evolves(a: Db, b: Db) {
    && a.nextId <= b.nextId
    && (forall c | c in a.clusters && c in b.clusters :: b.clusters[c].lookupKey == a.clusters[c].lookupKey)
    && (forall c | c < a.nextId && c !in a.clusters :: c !in b.clusters)
    && (forall e | e in a.elements :: e in b.elements && b.elements[e].ip == a.elements[e].ip)
    && a.history <= b.history
  }

  lemma EvolvesTrans(a: Db, b: Db, c: Db)
    requires IdsBelow(a) && Evolves(a, b) && Evolves(b, c)
    ensures Evolves(a, c)
  {
    forall d | d in a.clusters && d in c.clusters ensures c.clusters[d].lookupKey == a.clusters[d].lookupKey {
      assert d < a.nextId <= b.nextId;
      assert d in b.clusters;
    }
  }

  lemma TaskSurvives(a: Db, b: Db, task: Task)
    requires Evolves(a, b) && TaskOk(a, task)
    ensures TaskOk(b, task)
  {
  }

  /** A statement that leaves the history alone. */
  lemma TablesStep(s: Sys, db: Db)
    requires Inv(s) && ValidDb(db) && Evolves(s.db, db) && db.history == s.db.history
    ensures Inv(s.(db := db))
  {
  }

  lemma ClusterStep(db: Db, key: string)
    requires ValidDb(db)
    ensures var (db', c) := ClusterFor(db, key);
            && ValidDb(db') && Evolves(db, db') && db'.history == db.history
            && (c.Some? <==> key != "")
            && (c.Some? ==> c.value in db'.clusters && db'.clusters[c.value].lookupKey == key)
  {
    if key != "" { GetOrCreateValid(db, key); }
  }

  /** Tasks change one at a time, and only the last step finishes one. */
  lemma TaskStep(s: Sys, db: Db, t: TaskId, task: Task)
    requires Inv(s) && ValidDb(db) && Evolves(s.db, db) && db.history == s.db.history
    requires t in s.tasks ==> !s.tasks[t].Finished?
    requires TaskOk(db, task) && !task.Finished?
    ensures Inv(s.(db := db, tasks := s.tasks[t := task]))
  {
    var s' := s.(db := db, tasks := s.tasks[t := task]);
    forall i | 0 <= i < |s.log| ensures s.log[i] != t && s'.tasks[s.log[i]] == s.tasks[s.log[i]] {}
  }

  lemma LogFinish(s: Sys, t: TaskId)
    requires LogOk(s) && t in s.tasks && s.tasks[t].Stored?
    ensures var task := s.tasks[t];
            var db := s.db.(history := s.db.history + [RowOf(task.q, task.clusterId)]);
            LogOk(Sys(db, s.tasks[t := Finished(task.q, task.clusterId)], s.log + [t]))
  {
    var log, tasks := s.log + [t], s.tasks[t := Finished(s.tasks[t].q, s.tasks[t].clusterId)];
    forall i | 0 <= i < |s.log| ensures log[i] != t && tasks[log[i]] == s.tasks[log[i]] {}
    assert log[|s.log|] == t;
    forall u | u in tasks && tasks[u].Finished? ensures u in log {
      if u != t { assert u in s.log; }
    }
  }

  lemma FinishStep(s: Sys, t: TaskId)
    requires Inv(s) && t in s.tasks && s.tasks[t].Stored?
    requires InsertHistory(s.db, RowOf(s.tasks[t].q, s.tasks[t].clusterId)).Ok?
    ensures Inv(AdvanceTask(s, t)) && Evolves(s.db, AdvanceTask(s, t).db)
  {
    assert TaskOk(s.db, s.tasks[t]);
    InsertHistoryValid(s.db, RowOf(s.tasks[t].q, s.tasks[t].clusterId));
    LogFinish(s, t);
    var db := AdvanceTask(s, t).db;
    forall u | u in s.tasks ensures TaskOk(db, s.tasks[u]) { TaskSurvives(s.db, db, s.tasks[u]); }
  }

  lemma AdvanceKeepsInv(s: Sys, t: TaskId)
    requires Inv(s) && t in s.tasks
    ensures Inv(AdvanceTask(s, t)) && Evolves(s.db, AdvanceTask(s, t).db)
  {
    assert TaskOk(s.db, s.tasks[t]);
    match s.tasks[t]
    case Evaluated(q) =>
      var (db, c) := ClusterFor(s.db, q.key);
      ClusterStep(s.db, q.key);
      TaskStep(s, db, t, Clustered(q, c));
    case Clustered(q, c) =>
      var r := UpdateAssignment(s.db, q.elementId, c, q.ruleId, StatusOf(c), q.key);
      if r.Ok? {
        UpdateAssignmentValid(s.db, q.elementId, c, q.ruleId, StatusOf(c), q.key);
        TaskStep(s, r.value, t, Stored(q, c));
      } else {
        TaskStep(s, s.db, t, Failed(q, r.error));
      }
    case Stored(q, c) =>
      var r := InsertHistory(s.db, RowOf(q, c));
      if r.Ok? { FinishStep(s, t); } else { TaskStep(s, s.db, t, Failed(q, r.error)); }
    case _ =>
  }

  /** Every step of every request keeps the invariant, and takes nothing back. */
  lemma StepKeepsInv(s: Sys, a: Action)
    requires Inv(s)
    ensures Inv(Step(s, a)) && Evolves(s.db, Step(s, a).db)
  {
    match a
    case Begin(t, q) => if t !in s.tasks { TaskStep(s, s.db, t, Evaluated(q)); }
    case Advance(t) => if t in s.tasks { AdvanceKeepsInv(s, t); }
    case RenameCluster(id, name, description) =>
      var r := Rename(s.db, id, name, description);
      if r.Ok? {
        RenameValid(s.db, id, name, description);
        TablesStep(s, r.value);
      }
    case RemoveCluster(id) =>
      var r := DeleteCluster(s.db, id);
      if r.Ok? {
        DeleteClusterValid(s.db, id);
        TablesStep(s, r.value);
      }
    case RemoveElement(id) =>
      var r := SoftDelete(s.db, id);
      if r.Ok? {
        SoftDeleteValid(s.db, id);
        TablesStep(s, r.value);
      }
    case Rediscover(ip, sysName) =>
      UpsertDiscoveredValid(s.db, ip, sysName);
      TablesStep(s, UpsertDiscovered(s.db, ip, sysName).0);
    case AddRule =>
      CreateRuleValid(s.db);
      TablesStep(s, CreateRule(s.db));
    case RemoveRule(id) =>
      var r := DeleteRule(s.db, id);
      if r.Ok? {
        DeleteRuleValid(s.db, id);
        TablesStep(s, r.value);
      }
  }

  lemma {:induction false} ExecKeepsInv(s: Sys, schedule: seq<Action>)
    requires Inv(s)
    ensures Inv(Exec(s, schedule)) && Evolves(s.db, Exec(s, schedule).db)
    decreases |schedule|
  {
    if schedule != [] {
      var s1 := Step(s, schedule[0]);
      StepKeepsInv(s, schedule[0]);
      ExecKeepsInv(s1, schedule[1..]);
      EvolvesTrans(s.db, s1.db, Exec(s1, schedule[1..]).db);
    }
  }

  lemma StartInv()
    ensures Inv(START)
  {
  }

  // ----- main results about interleavings -----

  /** In every interleaving: lookup keys are unique; an element is marked assigned exactly when it has a
      cluster; and that cluster exists and carries the key rendered by the element's last update. */
  lemma Placements(schedule: seq<Action>)
    ensures var db := Exec(START, schedule).db;
            && KeysUnique(db)
            && forall e | e in db.elements ::
                 var row := db.elements[e];
                 && (row.status.Assigned? <==> row.clusterId.Some?)
                 && (row.clusterId.Some? ==>
                       && row.clusterId.value in db.clusters
                       && db.clusters[row.clusterId.value].lookupKey == row.key != "")
  {
    StartInv();
    ExecKeepsInv(START, schedule);
  }

  /** The audit trail stays true: a history row is never changed, and the cluster it names is never
      deleted and keeps the key of the row, whatever happens later. */
  lemma AuditTrail(before: seq<Action>, later: seq<Action>, i: nat)
    requires i < |Exec(START, before).db.history|
    ensures var row := Exec(START, before).db.history[i];
            var db := Exec(Exec(START, before), later).db;
            && i < |db.history| && db.history[i] == row
            && (row.clusterId.Some? ==>
                  && row.clusterId.value in db.clusters
                  && db.clusters[row.clusterId.value].lookupKey == row.key
                  && DeleteCluster(db, row.clusterId.value) == Err(ClusterNotEmpty))
  {
    StartInv();
    ExecKeepsInv(START, before);
    ExecKeepsInv(Exec(START, before), later);
  }

  /** Lookup keys are immutable, and the id of a deleted cluster never comes back. */
  lemma ClustersAreStable(before: seq<Action>, later: seq<Action>, c: Id)
    ensures var (db, db') := (Exec(START, before).db, Exec(Exec(START, before), later).db);
            && (c in db.clusters && c in db'.clusters ==> db'.clusters[c].lookupKey == db.clusters[c].lookupKey)
            && (c < db.nextId && c !in db.clusters ==> c !in db'.clusters)
  {
    StartInv();
    ExecKeepsInv(START, before);
    ExecKeepsInv(Exec(START, before), later);
  }

  /** Every assignment that reports success has written exactly one history row, its own; one that
      fails or is still under way has written none. */
  lemma OneRowPerAssignment(schedule: seq<Action>, t: TaskId)
    requires t in Exec(START, schedule).tasks
    ensures var s := Exec(START, schedule);
            && |s.log| == |s.db.history|
            && (s.tasks[t].Finished? <==> t in s.log)
            && forall i, j | 0 <= i < |s.log| && 0 <= j < |s.log| && s.log[i] == t && s.log[j] == t ::
                 && i == j
                 && var (task, row) := (s.tasks[t], s.db.history[i]);
                    && row.elementId == task.q.elementId && row.ruleId == task.q.ruleId && row.key == task.q.key
                    && row.trigger == task.q.trigger && row.clusterId == task.clusterId
                    && (row.clusterId.Some? <==> task.q.key != "")
  {
    StartInv();
    ExecKeepsInv(START, schedule);
  }

  // ----- one assignment on its own -----

  /** An assignment that nothing comes between. */
  ghost function Assign(db: Db, q: Request): (Db, Result<(), DbError>) {
    var (db1, c) := ClusterFor(db, q.key);
    match UpdateAssignment(db1, q.elementId, c, q.ruleId, StatusOf(c), q.key)
    case Err(e) => (db1, Err(e))
    case Ok(db2) =>
      match InsertHistory(db2, RowOf(q, c))
      case Err(e) => (db2, Err(e))
      case Ok(db3) => (db3, Ok(()))
  }

  /** The element is in the cluster of the key, if that is not empty, and in none otherwise; and it is
      marked accordingly. */
  predicate InClusterOf(db: Db, row: Element, key: string) {
    && (row.clusterId.Some? <==> key != "") && (row.status.Assigned? <==> key != "")
    && (row.clusterId.Some? ==> row.clusterId.value in db.clusters && db.clusters[row.clusterId.value].lookupKey == key)
  }

  /** An assignment succeeds exactly when its element and rule are there. It then has placed the element,
      and appended the one row that says so: which element, where, by which rule and key, and why. A failed
      one has done neither. */
  lemma AssignSays(db: Db, q: Request)
    requires ValidDb(db)
    ensures var (after, r) := Assign(db, q);
            && (r.Ok? <==> q.elementId in db.elements && (q.ruleId.Some? ==> q.ruleId.value in db.rules))
            && ValidDb(after) && after.elements.Keys == db.elements.Keys && after.rules == db.rules
            && (forall c | c in db.clusters :: c in after.clusters && after.clusters[c] == db.clusters[c])
            && (forall e | e in db.elements && e != q.elementId :: after.elements[e] == db.elements[e])
    ensures var (after, r) := Assign(db, q);
            r.Ok? ==>
              var (was, row) := (db.elements[q.elementId], after.elements[q.elementId]);
              && row.ip == was.ip && row.sysName == was.sysName && row.deleted == was.deleted
              && row.ruleId == q.ruleId && InClusterOf(after, row, q.key)
    ensures var (after, r) := Assign(db, q);
            r.Ok? ==>
              && |after.history| == |db.history| + 1 && after.history[..|db.history|] == db.history
              && var row := after.history[|db.history|];
                 && row.elementId == q.elementId && row.ruleId == q.ruleId && row.key == q.key
                 && row.trigger == q.trigger && row.clusterId == after.elements[q.elementId].clusterId
    ensures var (after, r) := Assign(db, q);
            r.Err? ==> after.elements == db.elements && after.history == db.history
  {
    var (db1, c) := ClusterFor(db, q.key);
    ClusterStep(db, q.key);
    if q.key != "" { GetOrCreateSays(db, q.key); }
    UpdateAssignmentSays(db1, q.elementId, c, q.ruleId, StatusOf(c), q.key);
    var updated := UpdateAssignment(db1, q.elementId, c, q.ruleId, StatusOf(c), q.key);
    if updated.Ok? {
      UpdateAssignmentValid(db1, q.elementId, c, q.ruleId, StatusOf(c), q.key);
      InsertHistorySays(updated.value, RowOf(q, c));
      InsertHistoryValid(updated.value, RowOf(q, c));
    }
  }

  /** The three atomic steps, scheduled back to back, are the uninterrupted assignment. */
  lemma UninterruptedSteps(s: Sys, t: TaskId, q: Request)
    requires t !in s.tasks
    ensures var s' := Exec(s, [Begin(t, q), Advance(t), Advance(t), Advance(t)]);
            var (db, r) := Assign(s.db, q);
            && s'.db == db && t in s'.tasks
            && s'.tasks[t] == if r.Ok? then Finished(q, ClusterFor(s.db, q.key).1) else Failed(q, r.error)
  {
    var s1 := Step(s, Begin(t, q));
    var s2 := Step(s1, Advance(t));
    var s3 := Step(s2, Advance(t));
    var s4 := Step(s3, Advance(t));
    var rest := [Advance(t), Advance(t), Advance(t)];
    assert [Begin(t, q), Advance(t), Advance(t), Advance(t)][1..] == rest;
    assert rest[1..] == [Advance(t), Advance(t)] && rest[1..][1..] == [Advance(t)];
    assert Exec(s3, [Advance(t)]) == Exec(s4, [Advance(t)][1..]) == s4;
    assert Exec(s2, rest[1..]) == Exec(s3, rest[1..][1..]);
    assert Exec(s1, rest) == Exec(s2, rest[1..]);
  }

  /** Some assignment has succeeded in placing an element in the cluster. */
  ghost predicate EverPlacedIn(s: Sys, c: Id) {
    exists t | t in s.tasks :: s.tasks[t].Finished? && s.tasks[t].clusterId == Some(c)
  }

  /** Exactly when a cluster without any element, live or soft-deleted, can be deleted: when no
      assignment has ever succeeded in placing an element there. */
  lemma EmptyClusterDeletableIff(schedule: seq<Action>, c: Id)
    requires var db := Exec(START, schedule).db;
             c in db.clusters && forall e | e in db.elements :: db.elements[e].clusterId != Some(c)
    ensures DeleteCluster(Exec(START, schedule).db, c).Ok? <==> !EverPlacedIn(Exec(START, schedule), c)
  {
    StartInv();
    ExecKeepsInv(START, schedule);
    var s := Exec(START, schedule);
    if t :| t in s.tasks && s.tasks[t].Finished? && s.tasks[t].clusterId == Some(c) {
      var i :| 0 <= i < |s.log| && s.log[i] == t;
      assert s.db.history[i].clusterId == Some(c);
    }
  }

  lemma {:induction false} ExecConcat(s: Sys, a: seq<Action>, b: seq<Action>)
    ensures Exec(s, a + b) == Exec(Exec(s, a), b)
    decreases |a|
  {
    if a == [] {
      assert a + b == b;
    } else {
      assert (a + b)[0] == a[0] && (a + b)[1..] == a[1..] + b;
      ExecConcat(Step(s, a[0]), a[1..], b);
    }
  }

  function AssignSchedule(t: TaskId, q: Request): seq<Action> { [Begin(t, q), Advance(t), Advance(t), Advance(t)] }

  /** A cluster without any element, live or soft-deleted, may still be refused as not empty: here its
      one element was assigned elsewhere, and the audit trail remembers. */
  lemma EmptyClustersMayStay() returns (schedule: seq<Action>, c: Id)
    ensures var db := Exec(START, schedule).db;
            && c in db.clusters && (forall e | e in db.elements :: db.elements[e].clusterId != Some(c))
            && DeleteCluster(db, c) == Err(ClusterNotEmpty)
  {
    var into, out := Request(0, "core", None, Discovery), Request(0, "", None, Discovery);
    var found := [Rediscover("10.0.0.1", "sw-core-01")];
    var s1 := Step(START, found[0]);
    assert found[1..] == [] && Exec(START, found) == s1;
    UninterruptedSteps(s1, 0, into);
    var s2 := Exec(s1, AssignSchedule(0, into));
    c := 1;
    assert s2.db.history == [RowOf(into, Some(c))] && c in s2.db.clusters;
    UninterruptedSteps(s2, 1, out);
    var s3 := Exec(s2, AssignSchedule(1, out));
    assert s3.db.history[0].clusterId == Some(c);
    assert s3.db.elements.Keys == {0} && s3.db.elements[0].clusterId == None;
    schedule := found + AssignSchedule(0, into) + AssignSchedule(1, out);
    ExecConcat(START, found, AssignSchedule(0, into));
    ExecConcat(START, found + AssignSchedule(0, into), AssignSchedule(1, out));
  }
}
