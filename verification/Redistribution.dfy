/** The assignment service over the tables, and the bulk redistribution of a list of elements. */
module Redistribution {
  import opened Wrappers
  import opened Store
  import opened Assignment
  import RuleEngine

  /** An element to reassign, with its hostname. */
  datatype Target = Target(id: Id, host: string)

  ghost function RequestFor(
    e: RuleEngine.Engine, rules: seq<RuleEngine.Rule>, target: Target, trigger: Trigger): Request
  {
    var o := RuleEngine.Evaluation(e, target.host, rules);
    Request(target.id, o.key, o.ruleId, trigger)
  }

  /** The audit row says which element, where, by which rule and key, and why. */
  predicate Records(row: History, id: Id, clusterId: Option<Id>, o: RuleEngine.Outcome, trigger: Trigger) {
    && row.elementId == id && row.clusterId == clusterId
    && row.ruleId == o.ruleId && row.key == o.key && row.trigger == trigger
  }

  /** `Service.Assign`: evaluate, get or create the cluster, update the element, append the history row. */
  method AssignElement(
    db: Database, e: RuleEngine.Engine, target: Target, rules: seq<RuleEngine.Rule>, trigger: Trigger)
    returns (r: Result<RuleEngine.MatchResult, DbError>)
    requires db.Valid()
    modifies db
    ensures db.Valid()
    ensures var (after, outcome) := Assign(old(db.Snapshot()), RequestFor(e, rules, target, trigger));
            && db.Snapshot() == after
            && match outcome
               case Ok(_) => r.Ok? && RuleEngine.Reports(r.value, RuleEngine.Evaluation(e, target.host, rules))
               case Err(error) => r == Err(error)
    ensures r.Ok? ==>
              var o := RuleEngine.Evaluation(e, target.host, rules);
              && target.id in db.elements && db.elements[target.id].ruleId == o.ruleId
              && InClusterOf(db.Snapshot(), db.elements[target.id], o.key)
              && |db.history| == |old(db.history)| + 1 && db.history[..|old(db.history)|] == old(db.history)
              && Records(db.history[|old(db.history)|], target.id, db.elements[target.id].clusterId, o, trigger)
    ensures r.Err? ==> db.history == old(db.history)
  {
    ghost var before := db.Snapshot();
    var result := RuleEngine.Evaluate(e, target.host, rules);
    var clusterId: Option<Id> := None;
    var status := Unassigned;
    if result.key != "" {
      var id := db.GetOrCreateByLookupKey(result.key);
      clusterId := Some(id);
      status := Status.Assigned;
    }
    var updated := db.Assign(target.id, clusterId, result.ruleId, status, result.key);
    if updated.Err? { return Err(updated.error); }
    var inserted := db.AppendHistory(History(target.id, clusterId, result.ruleId, result.key, trigger));
    if inserted.Err? { return Err(inserted.error); }
    AssignSays(before, RequestFor(e, rules, target, trigger));
    return Ok(result);
  }

  ghost function Requests(
    e: RuleEngine.Engine, rules: seq<RuleEngine.Rule>, targets: seq<Target>): (qs: seq<Request>)
    ensures |qs| == |targets|
  {
    seq(|targets|, i requires 0 <= i < |targets| => RequestFor(e, rules, targets[i], RedistributeAll))
  }

  /** The tables after the first `n` requests, each served by `step`, and how many succeeded. */
  ghost function Serve(step: (Db, Request) -> (Db, bool), db: Db, qs: seq<Request>, n: nat): (Db, nat)
    requires n <= |qs|
  {
    if n == 0 then (db, 0)
    else
      var (d, succeeded) := Serve(step, db, qs, n - 1);
      var (d', ok) := step(d, qs[n - 1]);
      (d', if ok then succeeded + 1 else succeeded)
  }

  ghost function AssignOne(db: Db, q: Request): (Db, bool) {
    var (d, r) := Assign(db, q);
    (d, r.Ok?)
  }

  ghost function Bulk(db: Db, qs: seq<Request>): (Db, nat) { Serve(AssignOne, db, qs, |qs|) }

  method AssignCounted(
    db: Database, e: RuleEngine.Engine, target: Target, rules: seq<RuleEngine.Rule>, ghost q: Request)
    returns (ok: bool)
    requires db.Valid() && q == RequestFor(e, rules, target, RedistributeAll)
    modifies db
    ensures db.Valid()
    ensures (db.Snapshot(), ok) == AssignOne(old(db.Snapshot()), q)
  {
    var r := AssignElement(db, e, target, rules, RedistributeAll);
    ok := r.Ok?;
  }

  lemma ServeNext(step: (Db, Request) -> (Db, bool), db: Db, qs: seq<Request>, n: nat)
    requires n < |qs|
    ensures var (d, succeeded) := Serve(step, db, qs, n);
            var (d', ok) := step(d, qs[n]);
            Serve(step, db, qs, n + 1) == (d', if ok then succeeded + 1 else succeeded)
  {
  }

  method RedistributeBulk(
    db: Database, e: RuleEngine.Engine, targets: seq<Target>, rules: seq<RuleEngine.Rule>)
    returns (total: nat, succeeded: nat)
    requires db.Valid()
    modifies db
    ensures db.Valid() && total == |targets|
    ensures (db.Snapshot(), succeeded) == Bulk(old(db.Snapshot()), Requests(e, rules, targets))
  {
    ghost var qs, start := Requests(e, rules, targets), db.Snapshot();
    succeeded := 0;
    for i := 0 to |targets|
      invariant db.Valid() && (db.Snapshot(), succeeded) == Serve(AssignOne, start, qs, i)
    {
      ServeNext(AssignOne, start, qs, i);
      var ok := AssignCounted(db, e, targets[i], rules, qs[i]);
      if ok { succeeded := succeeded + 1; }
    }
    total := |targets|;
  }

  /** Whatever fails, the count of successes is the number of audit rows, and no element but the targets
      is touched. */
  lemma {:induction false} BulkCounts(db: Db, qs: seq<Request>, n: nat, e: Id)
    requires ValidDb(db) && n <= |qs|
    ensures var (d, succeeded) := Serve(AssignOne, db, qs, n);
            && ValidDb(d) && succeeded <= n && |d.history| == |db.history| + succeeded && db.history <= d.history
            && d.elements.Keys == db.elements.Keys
            && (e in db.elements && (forall i | 0 <= i < n :: qs[i].elementId != e) ==> d.elements[e] == db.elements[e])
  {
    if n > 0 {
      BulkCounts(db, qs, n - 1, e);
      AssignSays(Serve(AssignOne, db, qs, n - 1).0, qs[n - 1]);
    }
  }

  // ----- without failures -----

  /** The element and the rule of the request are there, so that nothing can fail. */
  predicate CanServe(db: Db, q: Request) {
    q.elementId in db.elements && (q.ruleId.Some? ==> q.ruleId.value in db.rules)
  }

  /** The element is where the request wants it. */
  predicate Settled(db: Db, q: Request) {
    && q.elementId in db.elements
    && db.elements[q.elementId].key == q.key && db.elements[q.elementId].ruleId == q.ruleId
  }

  /** What a successful assignment does to the tables, clusters apart. */
  ghost predicate Serves(db: Db, q: Request, d: Db) {
    && Settled(d, q) && d.rules == db.rules
    && d.elements == db.elements[q.elementId := d.elements[q.elementId]] && q.elementId in db.elements
    && |d.history| == |db.history| + 1 && db.history <= d.history
    && var row := d.history[|db.history|]; row == RowOf(q, row.clusterId)
  }

  lemma AssignServes(db: Db, q: Request)
    requires ValidDb(db) && CanServe(db, q)
    ensures var (d, r) := Assign(db, q); r.Ok? && ValidDb(d) && Serves(db, q, d)
  {
    var (db1, c) := ClusterFor(db, q.key);
    ClusterStep(db, q.key);
    UpdateAssignmentValid(db1, q.elementId, c, q.ruleId, StatusOf(c), q.key);
    var db2 := UpdateAssignment(db1, q.elementId, c, q.ruleId, StatusOf(c), q.key).value;
    InsertHistoryValid(db2, RowOf(q, c));
  }

  /** Serving a settled request again changes nothing but the history. */
  lemma SettledAssign(db: Db, q: Request)
    requires ValidDb(db) && CanServe(db, q) && Settled(db, q)
    ensures var d := Assign(db, q).0; d == db.(history := d.history)
  {
    var row := db.elements[q.elementId];
    var (db1, c) := ClusterFor(db, q.key);
    assert Resolves(db, row.clusterId, row.ruleId, row.key);
    assert db1 == db && c == row.clusterId;
    assert db.elements[q.elementId := row] == db.elements;
  }

  /** Nothing can fail for any of the requests. */
  ghost predicate Ready(db: Db, qs: seq<Request>) {
    ValidDb(db) && forall i | 0 <= i < |qs| :: CanServe(db, qs[i])
  }

  ghost predicate Serviceable(db: Db, qs: seq<Request>) { Ready(db, qs) && Consistent(qs) }

  predicate Named(qs: seq<Request>, n: nat, e: Id)
    requires n <= |qs|
  {
    exists i | 0 <= i < n :: qs[i].elementId == e
  }

  /** The tables before, between and after the assignments of a redistribution. */
  ghost predicate Run(dbs: seq<Db>, qs: seq<Request>, n: nat)
    requires n <= |qs|
  {
    |dbs| == n + 1 && forall i | 0 <= i < n :: Serves(dbs[i], qs[i], dbs[i + 1])
  }

  lemma RunGrows(dbs: seq<Db>, qs: seq<Request>, n: nat, d: Db)
    requires n < |qs| && Run(dbs, qs, n) && Serves(dbs[n], qs[n], d)
    ensures Run(dbs + [d], qs, n + 1)
  {
  }

  lemma {:induction false} ServeRuns(
    step: (Db, Request) -> (Db, bool), ready: Db -> bool, db: Db, qs: seq<Request>, n: nat) returns (dbs: seq<Db>)
    requires forall d, i | ready(d) && 0 <= i < |qs| ::
               var (d', ok) := step(d, qs[i]); ok && ready(d') && Serves(d, qs[i], d')
    requires ready(db) && n <= |qs|
    ensures Run(dbs, qs, n) && dbs[0] == db && Serve(step, db, qs, n) == (dbs[n], n) && ready(dbs[n])
  {
    if n == 0 {
      dbs := [db];
    } else {
      var before := ServeRuns(step, ready, db, qs, n - 1);
      var d := step(before[n - 1], qs[n - 1]).0;
      RunGrows(before, qs, n - 1, d);
      dbs := before + [d];
    }
  }

  lemma AssignOneServes(db: Db, qs: seq<Request>, i: nat)
    requires Ready(db, qs) && i < |qs|
    ensures var (d, ok) := AssignOne(db, qs[i]); ok && Ready(d, qs) && Serves(db, qs[i], d)
  {
    AssignServes(db, qs[i]);
    var d := AssignOne(db, qs[i]).0;
    forall k | 0 <= k < |qs| ensures CanServe(d, qs[k]) { assert CanServe(db, qs[k]); }
  }

  lemma BulkRuns(db: Db, qs: seq<Request>) returns (dbs: seq<Db>)
    requires Ready(db, qs)
    ensures Run(dbs, qs, |qs|) && dbs[0] == db && Bulk(db, qs) == (dbs[|qs|], |qs|) && Ready(dbs[|qs|], qs)
  {
    forall d, i | Ready(d, qs) && 0 <= i < |qs|
      ensures var (d', ok) := AssignOne(d, qs[i]); ok && Ready(d', qs) && Serves(d, qs[i], d')
    {
      AssignOneServes(d, qs, i);
    }
    dbs := ServeRuns(AssignOne, d => Ready(d, qs), db, qs, |qs|);
  }

  /** Requests for one element agree. */
  ghost predicate Consistent(qs: seq<Request>) {
    forall i, j | 0 <= i < |qs| && 0 <= j < |qs| && qs[i].elementId == qs[j].elementId ::
      qs[i].key == qs[j].key && qs[i].ruleId == qs[j].ruleId
  }

  lemma {:induction false} RunSettles(dbs: seq<Db>, qs: seq<Request>, n: nat, i: nat)
    requires n <= |qs| && Run(dbs, qs, n) && Consistent(qs) && i < n
    ensures Settled(dbs[n], qs[i])
  {
    assert Serves(dbs[n - 1], qs[n - 1], dbs[n]);
    if i < n - 1 { RunSettles(dbs[..n], qs, n - 1, i); }
  }

  lemma {:induction false} RunLeaves(dbs: seq<Db>, qs: seq<Request>, n: nat, e: Id)
    requires n <= |qs| && Run(dbs, qs, n) && e in dbs[0].elements && !Named(qs, n, e)
    ensures e in dbs[n].elements && dbs[n].elements[e] == dbs[0].elements[e]
  {
    if n > 0 {
      assert Serves(dbs[n - 1], qs[n - 1], dbs[n]) && qs[n - 1].elementId != e;
      RunLeaves(dbs[..n], qs, n - 1, e);
    }
  }

  lemma {:induction false} RunAudits(dbs: seq<Db>, qs: seq<Request>, n: nat, i: nat)
    requires n <= |qs| && Run(dbs, qs, n)
    ensures var (h0, h) := (dbs[0].history, dbs[n].history);
            && |h| == |h0| + n && h0 <= h
            && (i < n ==> h[|h0| + i] == RowOf(qs[i], h[|h0| + i].clusterId))
  {
    if n > 0 {
      assert Serves(dbs[n - 1], qs[n - 1], dbs[n]);
      RunAudits(dbs[..n], qs, n - 1, i);
    }
  }

  lemma SettledIsPlaced(db: Db, q: Request, k: nat)
    requires ValidDb(db) && Settled(db, q)
    ensures InClusterOf(db, db.elements[q.elementId], q.key)
    ensures k < |db.history| && db.history[k].key == q.key ==>
              db.history[k].clusterId == db.elements[q.elementId].clusterId
  {
    var row := db.elements[q.elementId];
    assert Resolves(db, row.clusterId, row.ruleId, row.key);
    if k < |db.history| {
      var h := db.history[k];
      assert Resolves(db, h.clusterId, h.ruleId, h.key);
    }
  }

  /** A redistribution in which nothing can fail: all targets succeed, each is settled, no other element
      is touched, and the audit trail grows by one row per target, in the order of the targets. */
  lemma BulkServes(db: Db, qs: seq<Request>, i: nat, e: Id)
    requires Serviceable(db, qs)
    ensures var (d, succeeded) := Bulk(db, qs);
            && succeeded == |qs| && ValidDb(d)
            && (i < |qs| ==> Settled(d, qs[i]))
            && (e in db.elements && !Named(qs, |qs|, e) ==> e in d.elements && d.elements[e] == db.elements[e])
            && |d.history| == |db.history| + |qs| && db.history <= d.history
            && (i < |qs| ==>
                  && InClusterOf(d, d.elements[qs[i].elementId], qs[i].key)
                  && d.elements[qs[i].elementId].ruleId == qs[i].ruleId
                  && var row := d.history[|db.history| + i];
                     && row.elementId == qs[i].elementId && row.ruleId == qs[i].ruleId && row.key == qs[i].key
                     && row.trigger == qs[i].trigger && row.clusterId == d.elements[qs[i].elementId].clusterId)
  {
    var dbs := BulkRuns(db, qs);
    if i < |qs| {
      RunSettles(dbs, qs, |qs|, i);
      SettledIsPlaced(dbs[|qs|], qs[i], |db.history| + i);
    }
    if e in db.elements && !Named(qs, |qs|, e) { RunLeaves(dbs, qs, |qs|, e); }
    RunAudits(dbs, qs, |qs|, i);
  }

  lemma {:induction false} BulkSettled(db: Db, qs: seq<Request>, n: nat)
    requires Serviceable(db, qs) && n <= |qs| && forall i | 0 <= i < |qs| :: Settled(db, qs[i])
    ensures var d := Serve(AssignOne, db, qs, n).0; d == db.(history := d.history) && ValidDb(d)
  {
    if n > 0 {
      var d := Serve(AssignOne, db, qs, n - 1).0;
      BulkSettled(db, qs, n - 1);
      assert CanServe(db, qs[n - 1]) && Settled(db, qs[n - 1]);
      SettledAssign(d, qs[n - 1]);
      AssignServes(d, qs[n - 1]);
    }
  }

  lemma StillServiceable(db: Db, qs: seq<Request>, d: Db)
    requires Serviceable(db, qs) && d == Bulk(db, qs).0
    ensures Serviceable(d, qs) && forall i | 0 <= i < |qs| :: Settled(d, qs[i])
    ensures |d.history| == |db.history| + |qs|
  {
    var dbs := BulkRuns(db, qs);
    forall i | 0 <= i < |qs| ensures CanServe(d, qs[i]) && Settled(d, qs[i]) {
      assert CanServe(db, qs[i]);
      RunSettles(dbs, qs, |qs|, i);
    }
    RunAudits(dbs, qs, |qs|, 0);
  }

  /** Redistribution is idempotent on everything but the audit trail. */
  lemma BulkIdempotent(db: Db, qs: seq<Request>)
    requires Serviceable(db, qs)
    ensures var once := Bulk(db, qs).0;
            var twice := Bulk(once, qs).0;
            && twice == once.(history := twice.history)
            && |once.history| == |db.history| + |qs| && |twice.history| == |once.history| + |qs|
  {
    var once := Bulk(db, qs).0;
    StillServiceable(db, qs, once);
    BulkSettled(once, qs, |qs|);
    StillServiceable(once, qs, Bulk(once, qs).0);
  }

  /** Two elements are in one cluster. */
  predicate Together(db: Db, e: Id, f: Id)
    requires e in db.elements && f in db.elements
  {
    db.elements[e].clusterId.Some? && db.elements[e].clusterId == db.elements[f].clusterId
  }

  lemma TogetherIffSameKey(db: Db, e: Id, f: Id)
    requires ValidDb(db) && e in db.elements && f in db.elements
    ensures Together(db, e, f) <==> db.elements[e].key == db.elements[f].key != ""
  {
    var r, s := db.elements[e], db.elements[f];
    assert Resolves(db, r.clusterId, r.ruleId, r.key) && Resolves(db, s.clusterId, s.ruleId, s.key);
  }

  ghost predicate SameRequests(qs: seq<Request>, rs: seq<Request>) { forall q :: q in qs <==> q in rs }

  lemma SamePlacement(dbs: seq<Db>, qs: seq<Request>, dbs': seq<Db>, rs: seq<Request>, e: Id)
    requires Run(dbs, qs, |qs|) && Run(dbs', rs, |rs|) && dbs[0] == dbs'[0] && e in dbs[0].elements
    requires Consistent(qs) && Consistent(rs) && SameRequests(qs, rs)
    ensures var (d, d') := (dbs[|qs|], dbs'[|rs|]);
            && e in d.elements && e in d'.elements
            && d.elements[e].key == d'.elements[e].key && d.elements[e].ruleId == d'.elements[e].ruleId
  {
    if Named(qs, |qs|, e) {
      var i :| 0 <= i < |qs| && qs[i].elementId == e;
      assert qs[i] in rs;
      var j :| 0 <= j < |rs| && rs[j] == qs[i];
      RunSettles(dbs, qs, |qs|, i);
      RunSettles(dbs', rs, |rs|, j);
    } else {
      forall j | 0 <= j < |rs| ensures rs[j].elementId != e {
        assert rs[j] in qs;
      }
      RunLeaves(dbs, qs, |qs|, e);
      RunLeaves(dbs', rs, |rs|, e);
    }
  }

  /** The order of the targets, and mentioning one twice, do not matter: every element ends up under the
      same lookup key, and the same elements end up together. */
  lemma BulkOrderIrrelevant(db: Db, qs: seq<Request>, rs: seq<Request>, e: Id, f: Id)
    requires Serviceable(db, qs) && Serviceable(db, rs) && SameRequests(qs, rs)
    requires e in db.elements && f in db.elements
    ensures var (d, d') := (Bulk(db, qs).0, Bulk(db, rs).0);
            && e in d.elements && e in d'.elements && f in d.elements && f in d'.elements
            && d.elements[e].key == d'.elements[e].key
            && (Together(d, e, f) <==> Together(d', e, f))
  {
    var dbs := BulkRuns(db, qs);
    var dbs' := BulkRuns(db, rs);
    SamePlacement(dbs, qs, dbs', rs, e);
    SamePlacement(dbs, qs, dbs', rs, f);
    TogetherIffSameKey(dbs[|qs|], e, f);
    TogetherIffSameKey(dbs'[|rs|], e, f);
  }

  // ----- the requests that a redistribution makes -----

  /** The targets and rules are rows of the tables, and the targets have their hostnames from theirs. */
  ghost predicate FromTables(db: Db, rules: seq<RuleEngine.Rule>, targets: seq<Target>) {
    && (forall i | 0 <= i < |targets| ::
          targets[i].id in db.elements && db.elements[targets[i].id].sysName == targets[i].host)
    && (forall i | 0 <= i < |rules| :: rules[i].id in db.rules)
  }

  /** What `RedistributeBulk` asks for can be served: its targets are elements, and its rules are rules, that
      it has just read. */
  lemma RequestsServiceable(db: Db, e: RuleEngine.Engine, rules: seq<RuleEngine.Rule>, targets: seq<Target>)
    requires ValidDb(db) && FromTables(db, rules, targets)
    ensures Serviceable(db, Requests(e, rules, targets))
  {
    var qs := Requests(e, rules, targets);
    forall i | 0 <= i < |qs| ensures CanServe(db, qs[i]) {
      RuleEngine.EvaluationNamesRule(e, targets[i].host, rules);
    }
    forall i, j | 0 <= i < |qs| && 0 <= j < |qs| && qs[i].elementId == qs[j].elementId
      ensures qs[i].key == qs[j].key && qs[i].ruleId == qs[j].ruleId
    {
      assert targets[i].host == targets[j].host;
    }
  }

  lemma SameTargetsSameRequests(
    e: RuleEngine.Engine, rules: seq<RuleEngine.Rule>, targets: seq<Target>, others: seq<Target>)
    requires forall target :: target in targets <==> target in others
    ensures SameRequests(Requests(e, rules, targets), Requests(e, rules, others))
  {
    RequestsFrom(e, rules, targets, others);
    RequestsFrom(e, rules, others, targets);
  }

  lemma RequestsFrom(e: RuleEngine.Engine, rules: seq<RuleEngine.Rule>, targets: seq<Target>, others: seq<Target>)
    requires forall target :: target in targets ==> target in others
    ensures forall q :: q in Requests(e, rules, targets) ==> q in Requests(e, rules, others)
  {
    var qs, rs := Requests(e, rules, targets), Requests(e, rules, others);
    forall q | q in qs ensures q in rs {
      var i :| 0 <= i < |qs| && qs[i] == q;
      assert targets[i] in others;
      var j :| 0 <= j < |others| && others[j] == targets[i];
      assert rs[j] == q;
    }
  }

  /** Of the redistribution of elements that were just read: every target succeeds and ends up under the
      key to which its hostname evaluates; doing it again changes only the audit trail; and any other order
      of the targets, or repetition among them, gives the same keys. */
  lemma RedistributionIsStable(
    db: Db, e: RuleEngine.Engine, rules: seq<RuleEngine.Rule>, targets: seq<Target>, others: seq<Target>,
    i: nat, f: Id)
    requires ValidDb(db) && FromTables(db, rules, targets) && (forall target :: target in targets <==> target in others)
    requires i < |targets| && f in db.elements
    ensures var (d, succeeded) := Bulk(db, Requests(e, rules, targets));
            var again := Bulk(d, Requests(e, rules, targets)).0;
            var d' := Bulk(db, Requests(e, rules, others)).0;
            && succeeded == |targets| && targets[i].id in d.elements
            && InClusterOf(d, d.elements[targets[i].id], RuleEngine.Evaluation(e, targets[i].host, rules).key)
            && |d.history| == |db.history| + |targets|
            && Records(d.history[|db.history| + i], targets[i].id, d.elements[targets[i].id].clusterId,
                 RuleEngine.Evaluation(e, targets[i].host, rules), RedistributeAll)
            && again == d.(history := again.history) && |again.history| == |d.history| + |targets|
            && f in d.elements && f in d'.elements && d.elements[f].key == d'.elements[f].key
  {
    var qs, rs := Requests(e, rules, targets), Requests(e, rules, others);
    RequestsServiceable(db, e, rules, targets);
    forall k | 0 <= k < |others| ensures others[k] in targets {}
    RequestsServiceable(db, e, rules, others);
    SameTargetsSameRequests(e, rules, targets, others);
    BulkServes(db, qs, i, targets[i].id);
    BulkIdempotent(db, qs);
    BulkOrderIrrelevant(db, qs, rs, f, f);
  }
}
