/** The persistent tables with their constraints. Each statement is one atomic step: a function from
    the tables before to the tables after, and a method of `Database` that performs it in place. Ids
    come from a counter, standing for a supply that never repeats. */
module Store {
  import opened Wrappers

  type Id = nat

  datatype Cluster = Cluster(lookupKey: string, displayName: string, description: Option<string>)

  datatype Status = Unassigned | Assigned

  /** `key` is not a column: it remembers the key rendered for the last assignment, so that the
      invariant can say which cluster the element belongs to. */
  datatype Element = Element(
    ip: string, sysName: string,
    clusterId: Option<Id>, ruleId: Option<Id>, status: Status, deleted: bool,
    key: string)

  datatype Trigger = Discovery | RedistributeSingle | RedistributeAll

  datatype History = History(elementId: Id, clusterId: Option<Id>, ruleId: Option<Id>, key: string, trigger: Trigger)

  datatype Db = Db(
    clusters: map<Id, Cluster>, elements: map<Id, Element>, rules: set<Id>, history: seq<History>, nextId: Id)

  datatype DbError = NotFound | ForeignKey | ClusterNotEmpty

  // ----- the invariant -----

  /** A cluster reference with the key it was made for, and a rule reference. */
  predicate Resolves(db: Db, clusterId: Option<Id>, ruleId: Option<Id>, key: string) {
    && (clusterId.Some? <==> key != "")
    && (clusterId.Some? ==> clusterId.value in db.clusters && db.clusters[clusterId.value].lookupKey == key)
    && (ruleId.Some? ==> ruleId.value in db.rules)
  }

  /** There is a cluster reference exactly for a key, and a cluster that it names carries that key. */
  predicate Carries(db: Db, clusterId: Option<Id>, key: string) {
    && (clusterId.Some? <==> key != "")
    && (clusterId.Some? && clusterId.value in db.clusters ==> db.clusters[clusterId.value].lookupKey == key)
  }

  ghost predicate KeysUnique(db: Db) {
    forall c, d | c in db.clusters && d in db.clusters && c != d :: db.clusters[c].lookupKey != db.clusters[d].lookupKey
  }

  ghost predicate IpsUnique(db: Db) {
    forall e, f | e in db.elements && f in db.elements && e != f :: db.elements[e].ip != db.elements[f].ip
  }

  ghost predicate ElementsOk(db: Db) {
    forall e | e in db.elements ::
      var row := db.elements[e];
      (row.status.Assigned? <==> row.clusterId.Some?) && Resolves(db, row.clusterId, row.ruleId, row.key)
  }

  ghost predicate HistoryOk(db: Db) {
    forall i | 0 <= i < |db.history| ::
      var row := db.history[i];
      row.elementId in db.elements && Resolves(db, row.clusterId, row.ruleId, row.key)
  }

  ghost predicate IdsBelow(db: Db) {
    && (forall c | c in db.clusters :: c < db.nextId)
    && (forall e | e in db.elements :: e < db.nextId)
    && (forall r | r in db.rules :: r < db.nextId)
  }

  ghost predicate ValidDb(db: Db) {
    KeysUnique(db) && IpsUnique(db) && ElementsOk(db) && HistoryOk(db) && IdsBelow(db)
  }

  const EMPTY_DB := Db(map[], map[], {}, [], 0)

  // ----- clusters -----

  ghost function ClusterWithKey(db: Db, key: string): (c: Option<Id>)
    ensures c.Some? ==> c.value in db.clusters && db.clusters[c.value].lookupKey == key
    ensures c.None? ==> forall d | d in db.clusters :: db.clusters[d].lookupKey != key
  {
    if d :| d in db.clusters && db.clusters[d].lookupKey == key then Some(d) else None
  }

  /** The upsert by lookup key: the tables after it, and the id it returns. */
  ghost function GetOrCreate(db: Db, key: string): (Db, Id) {
    match ClusterWithKey(db, key)
    case Some(c) => (db, c)
    case None =>
      (db.(clusters := db.clusters[db.nextId := Cluster(key, key, None)], nextId := db.nextId + 1), db.nextId)
  }

  function Rename(db: Db, id: Id, displayName: string, description: Option<string>): Result<Db, DbError> {
    if id !in db.clusters then Err(NotFound)
    else
      var c := db.clusters[id];
      var text := if description.Some? then description else c.description;
      Ok(db.(clusters := db.clusters[id := c.(displayName := displayName, description := text)]))
  }

  predicate References(db: Db, id: Id) {
    || (exists e | e in db.elements :: db.elements[e].clusterId == Some(id))
    || (exists i | 0 <= i < |db.history| :: db.history[i].clusterId == Some(id))
  }

  function DeleteCluster(db: Db, id: Id): Result<Db, DbError> {
    if id !in db.clusters then Err(NotFound)
    else if References(db, id) then Err(ClusterNotEmpty)
    else Ok(db.(clusters := map c | c in db.clusters && c != id :: db.clusters[c]))
  }

  // ----- elements -----

  ghost function ElementWithIp(db: Db, ip: string): (e: Option<Id>)
    ensures e.Some? ==> e.value in db.elements && db.elements[e.value].ip == ip
    ensures e.None? ==> forall d | d in db.elements :: db.elements[d].ip != ip
  {
    if d :| d in db.elements && db.elements[d].ip == ip then Some(d) else None
  }

  /** A rediscovered element keeps its assignment, and a soft-deleted one stays deleted. */
  ghost function UpsertDiscovered(db: Db, ip: string, sysName: string): (Db, Id) {
    match ElementWithIp(db, ip)
    case Some(e) => (db.(elements := db.elements[e := db.elements[e].(sysName := sysName)]), e)
    case None =>
      var row := Element(ip, sysName, None, None, Unassigned, false, "");
      (db.(elements := db.elements[db.nextId := row], nextId := db.nextId + 1), db.nextId)
  }

  function UpdateAssignment(
    db: Db, id: Id, clusterId: Option<Id>, ruleId: Option<Id>, status: Status, key: string): Result<Db, DbError>
  {
    if id !in db.elements then Err(NotFound)
    else if clusterId.Some? && clusterId.value !in db.clusters then Err(ForeignKey)
    else if ruleId.Some? && ruleId.value !in db.rules then Err(ForeignKey)
    else
      var row := db.elements[id].(clusterId := clusterId, ruleId := ruleId, status := status, key := key);
      Ok(db.(elements := db.elements[id := row]))
  }

  function SoftDelete(db: Db, id: Id): Result<Db, DbError> {
    if id !in db.elements || db.elements[id].deleted then Err(NotFound)
    else Ok(db.(elements := db.elements[id := db.elements[id].(deleted := true)]))
  }

  // ----- rules and history -----

  function CreateRule(db: Db): Db { db.(rules := db.rules + {db.nextId}, nextId := db.nextId + 1) }

  predicate RuleReferenced(db: Db, id: Id) {
    || (exists e | e in db.elements :: db.elements[e].ruleId == Some(id))
    || (exists i | 0 <= i < |db.history| :: db.history[i].ruleId == Some(id))
  }

  function DeleteRule(db: Db, id: Id): Result<Db, DbError> {
    if id !in db.rules then Err(NotFound)
    else if RuleReferenced(db, id) then Err(ForeignKey)
    else Ok(db.(rules := db.rules - {id}))
  }

  function InsertHistory(db: Db, row: History): Result<Db, DbError> {
    if row.elementId !in db.elements then Err(ForeignKey)
    else if row.clusterId.Some? && row.clusterId.value !in db.clusters then Err(ForeignKey)
    else if row.ruleId.Some? && row.ruleId.value !in db.rules then Err(ForeignKey)
    else Ok(db.(history := db.history + [row]))
  }

  // ----- what every statement keeps -----

  lemma GetOrCreateValid(db: Db, key: string)
    requires ValidDb(db)
    ensures var (db', c) := GetOrCreate(db, key);
            ValidDb(db') && c in db'.clusters && db'.clusters[c].lookupKey == key
  {
    var (db', c) := GetOrCreate(db, key);
    assert forall d | d in db.clusters :: d in db'.clusters && db'.clusters[d] == db.clusters[d];
  }

  lemma RenameValid(db: Db, id: Id, displayName: string, description: Option<string>)
    requires ValidDb(db) && Rename(db, id, displayName, description).Ok?
    ensures ValidDb(Rename(db, id, displayName, description).value)
  {
    var db' := Rename(db, id, displayName, description).value;
    assert forall d | d in db.clusters :: d in db'.clusters && db'.clusters[d].lookupKey == db.clusters[d].lookupKey;
  }

  lemma DeleteClusterValid(db: Db, id: Id)
    requires ValidDb(db) && DeleteCluster(db, id).Ok?
    ensures ValidDb(DeleteCluster(db, id).value)
  {
    assert !References(db, id);
  }

  lemma UpsertDiscoveredValid(db: Db, ip: string, sysName: string)
    requires ValidDb(db)
    ensures ValidDb(UpsertDiscovered(db, ip, sysName).0)
  {
    var (db', id) := UpsertDiscovered(db, ip, sysName);
    assert IpsUnique(db') by {
      forall e, f | e in db'.elements && f in db'.elements && e != f
        ensures db'.elements[e].ip != db'.elements[f].ip
      {
        assert e != id ==> e in db.elements && db.elements[e].ip == db'.elements[e].ip;
        assert f != id ==> f in db.elements && db.elements[f].ip == db'.elements[f].ip;
      }
    }
    assert ElementsOk(db') && HistoryOk(db');
  }

  lemma UpdateAssignmentValid(
    db: Db, id: Id, clusterId: Option<Id>, ruleId: Option<Id>, status: Status, key: string)
    requires ValidDb(db) && UpdateAssignment(db, id, clusterId, ruleId, status, key).Ok?
    requires (status.Assigned? <==> clusterId.Some?) && (clusterId.Some? <==> key != "")
    requires clusterId.Some? ==> db.clusters[clusterId.value].lookupKey == key
    ensures ValidDb(UpdateAssignment(db, id, clusterId, ruleId, status, key).value)
  {
  }

  lemma SoftDeleteValid(db: Db, id: Id)
    requires ValidDb(db) && SoftDelete(db, id).Ok?
    ensures ValidDb(SoftDelete(db, id).value)
  {
  }

  lemma CreateRuleValid(db: Db)
    requires ValidDb(db)
    ensures ValidDb(CreateRule(db))
  {
  }

  lemma DeleteRuleValid(db: Db, id: Id)
    requires ValidDb(db) && DeleteRule(db, id).Ok?
    ensures ValidDb(DeleteRule(db, id).value)
  {
    assert !RuleReferenced(db, id);
  }

  lemma InsertHistoryValid(db: Db, row: History)
    requires ValidDb(db) && InsertHistory(db, row).Ok?
    requires (row.clusterId.Some? <==> row.key != "")
    requires row.clusterId.Some? ==> db.clusters[row.clusterId.value].lookupKey == row.key
    ensures ValidDb(InsertHistory(db, row).value)
  {
  }

  // ----- what each statement changes, column by column -----

  /** The cluster with the key is returned as it is; if there is none, a new row with a new id is, named
      like its key and without a description. Nothing else changes. */
  lemma GetOrCreateSays(db: Db, key: string)
    requires ValidDb(db)
    ensures var (after, id) := GetOrCreate(db, key);
            && id in after.clusters && after.clusters[id].lookupKey == key
            && (forall c | c in db.clusters :: c in after.clusters && after.clusters[c] == db.clusters[c])
            && (forall c | c in after.clusters && c != id :: c in db.clusters)
            && (id in db.clusters ==> after == db)
            && (id !in db.clusters ==>
                  && after.clusters[id].displayName == key && after.clusters[id].description == None
                  && (forall c | c in db.clusters :: db.clusters[c].lookupKey != key)
                  && id !in db.elements && id !in db.rules)
            && after.elements == db.elements && after.rules == db.rules && after.history == db.history
  {
    GetOrCreateValid(db, key);
  }

  /** A rename sets the display name, and the description if one is given; it fails only without a row. */
  lemma RenameSays(db: Db, id: Id, displayName: string, description: Option<string>)
    ensures id !in db.clusters ==> Rename(db, id, displayName, description) == Err(NotFound)
    ensures id in db.clusters ==>
              var r := Rename(db, id, displayName, description);
              && r.Ok? && r.value.clusters.Keys == db.clusters.Keys
              && r.value.clusters[id].displayName == displayName
              && r.value.clusters[id].description ==
                 (if description.Some? then description else db.clusters[id].description)
              && r.value.clusters[id].lookupKey == db.clusters[id].lookupKey
              && (forall c | c in db.clusters && c != id :: r.value.clusters[c] == db.clusters[c])
              && r.value.elements == db.elements && r.value.rules == db.rules && r.value.history == db.history
  {
  }

  /** A delete removes the one row, when there is one and no element or history row names it. */
  lemma DeleteSays(db: Db, id: Id)
    ensures id !in db.clusters ==> DeleteCluster(db, id) == Err(NotFound)
    ensures id in db.clusters ==>
              (DeleteCluster(db, id).Ok?
               <==> (forall e | e in db.elements :: db.elements[e].clusterId != Some(id))
                    && (forall i | 0 <= i < |db.history| :: db.history[i].clusterId != Some(id)))
    ensures id in db.clusters && DeleteCluster(db, id).Err? ==> DeleteCluster(db, id) == Err(ClusterNotEmpty)
    ensures DeleteCluster(db, id).Ok? ==>
              var after := DeleteCluster(db, id).value;
              && after.clusters.Keys == db.clusters.Keys - {id}
              && (forall c | c in after.clusters :: after.clusters[c] == db.clusters[c])
              && after.elements == db.elements && after.rules == db.rules && after.history == db.history
              && DeleteCluster(after, id) == Err(NotFound)
  {
  }

  /** An upsert stores the name under the address: in the row that has it, or in a new one that is
      unassigned and not deleted. Nothing else changes. */
  lemma UpsertSays(db: Db, ip: string, sysName: string)
    requires ValidDb(db)
    ensures var (after, id) := UpsertDiscovered(db, ip, sysName);
            && id in after.elements && after.elements[id].ip == ip && after.elements[id].sysName == sysName
            && (forall e | e in db.elements && e != id :: e in after.elements && after.elements[e] == db.elements[e])
            && (forall e | e in after.elements && e != id :: e in db.elements)
            && (id !in db.elements ==>
                  && after.elements[id].clusterId == None && after.elements[id].ruleId == None
                  && after.elements[id].status == Unassigned && !after.elements[id].deleted
                  && (forall e | e in db.elements :: db.elements[e].ip != ip)
                  && id !in db.clusters && id !in db.rules)
            && after.clusters == db.clusters && after.rules == db.rules && after.history == db.history
  {
    if UpsertDiscovered(db, ip, sysName).1 in db.elements {
      RediscoveryKeepsAssignment(db, UpsertDiscovered(db, ip, sysName).1, sysName);
    }
  }

  /** An assignment update sets cluster, rule and status of the one element, soft-deleted or not. */
  lemma UpdateAssignmentSays(
    db: Db, id: Id, clusterId: Option<Id>, ruleId: Option<Id>, status: Status, key: string)
    ensures var r := UpdateAssignment(db, id, clusterId, ruleId, status, key);
            && (id !in db.elements ==> r == Err(NotFound))
            && (id in db.elements && r.Err? ==> r == Err(ForeignKey))
            && (r.Ok? <==> id in db.elements && (clusterId.Some? ==> clusterId.value in db.clusters)
                           && (ruleId.Some? ==> ruleId.value in db.rules))
            && (r.Ok? ==>
                  && r.value.elements.Keys == db.elements.Keys
                  && r.value.elements[id].clusterId == clusterId && r.value.elements[id].ruleId == ruleId
                  && r.value.elements[id].status == status && r.value.elements[id].key == key
                  && r.value.elements[id].ip == db.elements[id].ip
                  && r.value.elements[id].sysName == db.elements[id].sysName
                  && r.value.elements[id].deleted == db.elements[id].deleted
                  && (forall e | e in db.elements && e != id :: r.value.elements[e] == db.elements[e])
                  && r.value.clusters == db.clusters && r.value.rules == db.rules && r.value.history == db.history)
  {
  }

  /** A soft delete marks the one live row and keeps it otherwise; it fails without a live row. */
  lemma SoftDeleteSays(db: Db, id: Id)
    ensures var r := SoftDelete(db, id);
            && (r.Ok? <==> id in db.elements && !db.elements[id].deleted) && (r.Err? ==> r == Err(NotFound))
            && (r.Ok? ==>
                  && r.value.elements.Keys == db.elements.Keys && r.value.elements[id].deleted
                  && r.value.elements[id].(deleted := false) == db.elements[id]
                  && (forall e | e in db.elements && e != id :: r.value.elements[e] == db.elements[e])
                  && r.value.clusters == db.clusters && r.value.rules == db.rules && r.value.history == db.history
                  && SoftDelete(r.value, id) == Err(NotFound))
  {
  }

  /** Creating a rule adds one new id; deleting removes one that no element or history row names. */
  lemma RulesSay(db: Db, id: Id)
    requires ValidDb(db)
    ensures CreateRule(db).rules > db.rules && CreateRule(db).(rules := db.rules, nextId := db.nextId) == db
    ensures id !in db.rules ==> DeleteRule(db, id) == Err(NotFound)
    ensures id in db.rules ==>
              (DeleteRule(db, id).Ok?
               <==> (forall e | e in db.elements :: db.elements[e].ruleId != Some(id))
                    && (forall i | 0 <= i < |db.history| :: db.history[i].ruleId != Some(id)))
    ensures DeleteRule(db, id).Ok? ==> DeleteRule(db, id).value == db.(rules := db.rules - {id})
  {
    assert db.nextId in CreateRule(db).rules && db.nextId !in db.rules;
  }

  /** An insert appends the row when everything it names is there. */
  lemma InsertHistorySays(db: Db, row: History)
    ensures var r := InsertHistory(db, row);
            && (r.Ok? <==> row.elementId in db.elements && (row.clusterId.Some? ==> row.clusterId.value in db.clusters)
                           && (row.ruleId.Some? ==> row.ruleId.value in db.rules))
            && (r.Err? ==> r == Err(ForeignKey))
            && (r.Ok? ==>
                  && |r.value.history| == |db.history| + 1 && r.value.history[..|db.history|] == db.history
                  && r.value.history[|db.history|] == row
                  && r.value.clusters == db.clusters && r.value.elements == db.elements && r.value.rules == db.rules)
  {
  }

  // ----- what the statements promise each other -----

  /** The upsert by key is idempotent, gives different keys different clusters, and is not disturbed by
      a rename in between: renaming never breaks later matching. */
  lemma RenameKeepsMatching(db: Db, key: string, other: string, name: string, description: Option<string>)
    requires ValidDb(db) && other != key
    ensures var (db1, c) := GetOrCreate(db, key);
            var (db2, d) := GetOrCreate(db1, other);
            && GetOrCreate(db1, key) == (db1, c) && d != c
            && Rename(db2, c, name, description).Ok?
            && var db3 := Rename(db2, c, name, description).value;
               GetOrCreate(db3, key) == (db3, c) && GetOrCreate(db3, other) == (db3, d)
  {
    var (db1, c) := GetOrCreate(db, key);
    GetOrCreateValid(db, key);
    assert GetOrCreate(db1, key) == (db1, c);
    var (db2, d) := GetOrCreate(db1, other);
    GetOrCreateValid(db1, other);
    RenameValid(db2, c, name, description);
    KeyFinds(Rename(db2, c, name, description).value, key, c);
    KeyFinds(Rename(db2, c, name, description).value, other, d);
  }

  lemma KeyFinds(db: Db, key: string, c: Id)
    requires KeysUnique(db) && c in db.clusters && db.clusters[c].lookupKey == key
    ensures GetOrCreate(db, key) == (db, c)
  {
  }

  /** Rediscovery refreshes the name of the element with that address and nothing else: it keeps its
      assignment, and if it was soft-deleted it stays so. */
  lemma RediscoveryKeepsAssignment(db: Db, e: Id, sysName: string)
    requires ValidDb(db) && e in db.elements
    ensures UpsertDiscovered(db, db.elements[e].ip, sysName) ==
            (db.(elements := db.elements[e := db.elements[e].(sysName := sysName)]), e)
  {
  }

  // ----- the same statements performed in place -----

  class Database {
    var clusters: map<Id, Cluster>
    var elements: map<Id, Element>
    var rules: set<Id>
    var history: seq<History>
    var nextId: Id

    ghost function Snapshot(): Db
      reads this
    {
      Db(clusters, elements, rules, history, nextId)
    }

    ghost predicate Valid()
      reads this
    {
      ValidDb(Snapshot())
    }

    constructor ()
      ensures Valid() && Snapshot() == EMPTY_DB
    {
      clusters, elements, rules, history, nextId := map[], map[], {}, [], 0;
    }

    method GetOrCreateByLookupKey(key: string) returns (id: Id)
      requires Valid()
      modifies this
      ensures Valid()
      ensures (Snapshot(), id) == GetOrCreate(old(Snapshot()), key)
      ensures id in clusters && clusters[id].lookupKey == key
      ensures id in old(clusters) ==> clusters == old(clusters)
      ensures id !in old(clusters) ==> clusters == old(clusters)[id := Cluster(key, key, None)]
      ensures elements == old(elements) && rules == old(rules) && history == old(history)
    {
      GetOrCreateValid(Snapshot(), key);
      if c :| c in clusters && clusters[c].lookupKey == key {
        return c;
      }
      id := nextId;
      clusters := clusters[id := Cluster(key, key, None)];
      nextId := nextId + 1;
    }

    method RenameCluster(id: Id, displayName: string, description: Option<string>) returns (ok: bool)
      requires Valid()
      modifies this
      ensures Valid()
      ensures var r := Rename(old(Snapshot()), id, displayName, description);
              ok == r.Ok? && Snapshot() == if ok then r.value else old(Snapshot())
      ensures ok <==> id in old(clusters)
      ensures ok ==>
                && clusters.Keys == old(clusters).Keys && clusters[id].displayName == displayName
                && clusters[id].description ==
                   (if description.Some? then description else old(clusters)[id].description)
                && clusters[id].lookupKey == old(clusters)[id].lookupKey
                && forall c | c in clusters && c != id :: clusters[c] == old(clusters)[c]
      ensures elements == old(elements) && rules == old(rules) && history == old(history)
    {
      if id !in clusters { return false; }
      RenameValid(Snapshot(), id, displayName, description);
      var c := clusters[id];
      var text := if description.Some? then description else c.description;
      clusters := clusters[id := c.(displayName := displayName, description := text)];
      return true;
    }

    method Delete(id: Id) returns (r: Result<(), DbError>)
      requires Valid()
      modifies this
      ensures Valid()
      ensures match DeleteCluster(old(Snapshot()), id)
              case Ok(db) => r == Ok(()) && Snapshot() == db
              case Err(e) => r == Err(e) && Snapshot() == old(Snapshot())
      ensures r.Ok? ==> id in old(clusters) && id !in clusters && clusters == old(clusters) - {id}
      ensures r.Err? ==> clusters == old(clusters) && r.error == if id in clusters then ClusterNotEmpty else NotFound
      ensures elements == old(elements) && rules == old(rules) && history == old(history)
    {
      DeleteSays(Snapshot(), id);
      if id !in clusters { return Err(NotFound); }
      if (exists e | e in elements :: elements[e].clusterId == Some(id))
         || (exists i | 0 <= i < |history| :: history[i].clusterId == Some(id)) {
        return Err(ClusterNotEmpty);
      }
      DeleteClusterValid(Snapshot(), id);
      clusters := map c | c in clusters && c != id :: clusters[c];
      return Ok(());
    }

    method Upsert(ip: string, sysName: string) returns (id: Id)
      requires Valid()
      modifies this
      ensures Valid()
      ensures (Snapshot(), id) == UpsertDiscovered(old(Snapshot()), ip, sysName)
      ensures id in elements && elements[id].ip == ip && elements[id].sysName == sysName
      ensures elements == old(elements)[id := elements[id]]
      ensures id in old(elements) ==> elements[id] == old(elements)[id].(sysName := sysName)
      ensures id !in old(elements) ==>
                elements[id].clusterId == None && elements[id].status == Unassigned && !elements[id].deleted
      ensures clusters == old(clusters) && rules == old(rules) && history == old(history)
    {
      UpsertDiscoveredValid(Snapshot(), ip, sysName);
      if e :| e in elements && elements[e].ip == ip {
        elements := elements[e := elements[e].(sysName := sysName)];
        return e;
      }
      id := nextId;
      elements := elements[id := Element(ip, sysName, None, None, Unassigned, false, "")];
      nextId := nextId + 1;
    }

    method Assign(id: Id, clusterId: Option<Id>, ruleId: Option<Id>, status: Status, key: string)
      returns (r: Result<(), DbError>)
      modifies this
      ensures old(Valid()) && (status.Assigned? <==> clusterId.Some?) && Carries(old(Snapshot()), clusterId, key) ==>
                Valid()
      ensures match UpdateAssignment(old(Snapshot()), id, clusterId, ruleId, status, key)
              case Ok(db) => r == Ok(()) && Snapshot() == db
              case Err(e) => r == Err(e) && Snapshot() == old(Snapshot())
      ensures r.Ok? ==>
                && id in elements && elements == old(elements)[id := elements[id]]
                && elements[id].clusterId == clusterId && elements[id].ruleId == ruleId && elements[id].status == status
      ensures r.Err? ==> elements == old(elements)
      ensures clusters == old(clusters) && rules == old(rules) && history == old(history)
    {
      if id !in elements { return Err(NotFound); }
      if clusterId.Some? && clusterId.value !in clusters { return Err(ForeignKey); }
      if ruleId.Some? && ruleId.value !in rules { return Err(ForeignKey); }
      if Valid() && (status.Assigned? <==> clusterId.Some?) && Carries(Snapshot(), clusterId, key) {
        UpdateAssignmentValid(Snapshot(), id, clusterId, ruleId, status, key);
      }
      elements := elements[id := elements[id].(clusterId := clusterId, ruleId := ruleId, status := status, key := key)];
      return Ok(());
    }

    method SoftDeleteElement(id: Id) returns (ok: bool)
      requires Valid()
      modifies this
      ensures Valid()
      ensures var r := SoftDelete(old(Snapshot()), id);
              ok == r.Ok? && Snapshot() == if ok then r.value else old(Snapshot())
      ensures ok <==> id in old(elements) && !old(elements)[id].deleted
      ensures elements == if ok then old(elements)[id := old(elements)[id].(deleted := true)] else old(elements)
      ensures clusters == old(clusters) && rules == old(rules) && history == old(history)
    {
      if id !in elements || elements[id].deleted { return false; }
      SoftDeleteValid(Snapshot(), id);
      elements := elements[id := elements[id].(deleted := true)];
      return true;
    }

    method AppendHistory(row: History) returns (r: Result<(), DbError>)
      modifies this
      ensures old(Valid()) && Carries(old(Snapshot()), row.clusterId, row.key) ==> Valid()
      ensures match InsertHistory(old(Snapshot()), row)
              case Ok(db) => r == Ok(()) && Snapshot() == db
              case Err(e) => r == Err(e) && Snapshot() == old(Snapshot())
      ensures history == if r.Ok? then old(history) + [row] else old(history)
      ensures clusters == old(clusters) && elements == old(elements) && rules == old(rules)
    {
      if row.elementId !in elements { return Err(ForeignKey); }
      if row.clusterId.Some? && row.clusterId.value !in clusters { return Err(ForeignKey); }
      if row.ruleId.Some? && row.ruleId.value !in rules { return Err(ForeignKey); }
      if Valid() && Carries(Snapshot(), row.clusterId, row.key) { InsertHistoryValid(Snapshot(), row); }
      history := history + [row];
      return Ok(());
    }
  }
}
