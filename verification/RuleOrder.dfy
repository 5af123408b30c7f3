/** The rules table and its two-pass reordering under UNIQUE(priority). */
module RuleOrder {
  import opened Wrappers
  import opened RuleEngine

  type Table = map<Id, Rule>

  const MAX_INT4 := 0x7FFF_FFFF

  predicate Int4(n: int) { -MAX_INT4 - 1 <= n <= MAX_INT4 }

  /** UNIQUE(priority), and every row under its own id. */
  ghost predicate ValidTable(t: Table) {
    && (forall r | r in t :: t[r].id == r)
    && forall r, s | r in t && s in t && r != s :: t[r].priority != t[s].priority
  }

  predicate Taken(t: Table, id: Id, priority: int) {
    exists r | r in t :: r != id && t[r].priority == priority
  }

  /** `UPDATE rules SET priority = $2 WHERE id = $1`: None when the statement fails. */
  function SetPriority(t: Table, id: Id, priority: int): Option<Table> {
    if !Int4(priority) then None
    else if id !in t then Some(t)
    else if Taken(t, id, priority) then None
    else Some(t[id := t[id].(priority := priority)])
  }

  function Placeholder(i: nat): int { -(i + 1) }

  function Final(i: nat): int { (i + 1) * 10 }

  /** The first `n` updates of a pass. */
  function Pass(t: Table, ids: seq<Id>, final: bool, n: nat): Option<Table>
    requires n <= |ids|
  {
    if n == 0 then Some(t)
    else
      match Pass(t, ids, final, n - 1)
      case None => None
      case Some(t') => SetPriority(t', ids[n - 1], if final then Final(n - 1) else Placeholder(n - 1))
  }

  function Reordered(t: Table, ids: seq<Id>): Option<Table> {
    match Pass(t, ids, false, |ids|)
    case None => None
    case Some(t') => Pass(t', ids, true, |ids|)
  }

  class RuleRepo {
    var rules: Table

    ghost predicate Valid()
      reads this
    {
      ValidTable(rules)
    }

    /** Both passes in one transaction; `commitOk` says whether the commit itself succeeds. */
    method Reorder(orderedIds: seq<Id>, commitOk: bool) returns (ok: bool)
      requires Valid()
      modifies this
      ensures Valid()
      ensures ok <==> CanReorder(old(rules), orderedIds) && commitOk
      ensures rules == if ok then Placed(old(rules), orderedIds) else old(rules)
    {
      ReorderCommitsIff(rules, orderedIds);
      ReorderKeepsUnique(rules, orderedIds);
      var tx := rules;
      for i := 0 to |orderedIds|
        invariant rules == old(rules) && Pass(rules, orderedIds, false, i) == Some(tx)
      {
        var updated := SetPriority(tx, orderedIds[i], -(i + 1));
        if updated.None? {
          PassFailsEarly(rules, orderedIds, false, i + 1, |orderedIds|);
          return false;
        }
        tx := updated.value;
      }
      ghost var moved := tx;
      for i := 0 to |orderedIds|
        invariant rules == old(rules) && Pass(moved, orderedIds, true, i) == Some(tx)
      {
        var updated := SetPriority(tx, orderedIds[i], (i + 1) * 10);
        if updated.None? {
          PassFailsEarly(moved, orderedIds, true, i + 1, |orderedIds|);
          return false;
        }
        tx := updated.value;
      }
      if !commitOk { return false; }
      rules := tx;
      return true;
    }
  }

  lemma {:induction false} PassFailsEarly(t: Table, ids: seq<Id>, final: bool, n: nat, m: nat)
    requires n <= m <= |ids| && Pass(t, ids, final, n).None?
    ensures Pass(t, ids, final, m).None?
  {
    if n < m { PassFailsEarly(t, ids, final, n, m - 1); }
  }

  // ----- uniqueness after every single update -----

  lemma SetPriorityKeepsUnique(t: Table, id: Id, priority: int)
    requires ValidTable(t) && SetPriority(t, id, priority).Some?
    ensures ValidTable(SetPriority(t, id, priority).value)
  {
    var t' := SetPriority(t, id, priority).value;
    forall r, s | r in t' && s in t' && r != s ensures t'[r].priority != t'[s].priority {
      assert r in t && s in t;
    }
  }

  /** Every intermediate table of either pass is valid. */
  lemma {:induction false} PassKeepsUnique(t: Table, ids: seq<Id>, final: bool, n: nat)
    requires ValidTable(t) && n <= |ids|
    ensures Pass(t, ids, final, n).Some? ==> ValidTable(Pass(t, ids, final, n).value)
  {
    if n > 0 {
      PassKeepsUnique(t, ids, final, n - 1);
      var before := Pass(t, ids, final, n - 1);
      if before.Some? && Pass(t, ids, final, n).Some? {
        SetPriorityKeepsUnique(before.value, ids[n - 1], if final then Final(n - 1) else Placeholder(n - 1));
      }
    }
  }

  lemma ReorderKeepsUnique(t: Table, ids: seq<Id>)
    requires ValidTable(t)
    ensures Reordered(t, ids).Some? ==> ValidTable(Reordered(t, ids).value)
  {
    PassKeepsUnique(t, ids, false, |ids|);
    var moved := Pass(t, ids, false, |ids|);
    if moved.Some? { PassKeepsUnique(moved.value, ids, true, |ids|); }
  }

  // ----- what a pass does -----

  /** The last position of `id` among the first `n`. */
  function Last(ids: seq<Id>, n: nat, id: Id): (i: nat)
    requires n <= |ids| && id in ids[..n]
    ensures i < n && ids[i] == id && forall j | i < j < n :: ids[j] != id
  {
    if ids[n - 1] == id then n - 1
    else
      assert ids[..n] == ids[..n - 1] + [ids[n - 1]];
      Last(ids, n - 1, id)
  }

  function Slot(final: bool, i: nat): int { if final then Final(i) else Placeholder(i) }

  /** The table after `n` updates: listed rows sit at the slot of their last mention. */
  function AfterPass(t: Table, ids: seq<Id>, final: bool, n: nat): Table
    requires n <= |ids|
  {
    map r | r in t ::
      if r in ids[..n] then t[r].(priority := Slot(final, Last(ids, n, r))) else t[r]
  }

  lemma AfterUpdate(t: Table, ids: seq<Id>, final: bool, n: nat)
    requires 0 < n <= |ids| && ids[n - 1] in t
    ensures var before := AfterPass(t, ids, final, n - 1);
            AfterPass(t, ids, final, n) == before[ids[n - 1] := before[ids[n - 1]].(priority := Slot(final, n - 1))]
  {
    var before, after := AfterPass(t, ids, final, n - 1), AfterPass(t, ids, final, n);
    assert ids[..n] == ids[..n - 1] + [ids[n - 1]];
    forall r | r in t && r != ids[n - 1] ensures after[r] == before[r] {
      assert r in ids[..n] <==> r in ids[..n - 1];
    }
  }

  lemma AfterNoUpdate(t: Table, ids: seq<Id>, final: bool, n: nat)
    requires 0 < n <= |ids| && ids[n - 1] !in t
    ensures AfterPass(t, ids, final, n) == AfterPass(t, ids, final, n - 1)
  {
    assert ids[..n] == ids[..n - 1] + [ids[n - 1]];
  }

  /** Update `i` of a pass finds its slot taken by a row that the pass has not moved yet. */
  predicate Blocked(t: Table, ids: seq<Id>, final: bool, i: nat)
    requires i < |ids|
  {
    ids[i] in t && exists r | r in t :: r !in ids[..i + 1] && t[r].priority == Slot(final, i)
  }

  predicate Open(t: Table, ids: seq<Id>, final: bool, n: nat)
    requires n <= |ids|
  {
    forall i | 0 <= i < n :: Int4(Slot(final, i)) && !Blocked(t, ids, final, i)
  }

  lemma TakenIffBlocked(t: Table, ids: seq<Id>, final: bool, i: nat)
    requires i < |ids| && ids[i] in t
    ensures Taken(AfterPass(t, ids, final, i), ids[i], Slot(final, i)) <==> Blocked(t, ids, final, i)
  {
    var now := AfterPass(t, ids, final, i);
    assert ids[..i + 1] == ids[..i] + [ids[i]];
    if Taken(now, ids[i], Slot(final, i)) {
      var r :| r in now && r != ids[i] && now[r].priority == Slot(final, i);
      assert r !in ids[..i + 1];
    }
    if Blocked(t, ids, final, i) {
      var r :| r in t && r !in ids[..i + 1] && t[r].priority == Slot(final, i);
      assert r in now && r !in ids[..i] && r != ids[i];
    }
  }

  lemma OpenOneMore(t: Table, ids: seq<Id>, final: bool, n: nat)
    requires 0 < n <= |ids|
    ensures Open(t, ids, final, n)
       <==> Open(t, ids, final, n - 1) && Int4(Slot(final, n - 1)) && !Blocked(t, ids, final, n - 1)
  {
  }

  /** One more update of the pass, on the table that the ones before it leave. */
  lemma UpdateResult(t: Table, ids: seq<Id>, final: bool, n: nat)
    requires 0 < n <= |ids|
    ensures SetPriority(AfterPass(t, ids, final, n - 1), ids[n - 1], Slot(final, n - 1)) ==
            if Int4(Slot(final, n - 1)) && !Blocked(t, ids, final, n - 1)
            then Some(AfterPass(t, ids, final, n)) else None
  {
    if ids[n - 1] in t {
      TakenIffBlocked(t, ids, final, n - 1);
      AfterUpdate(t, ids, final, n);
    } else {
      AfterNoUpdate(t, ids, final, n);
    }
  }

  lemma {:induction false} PassResult(t: Table, ids: seq<Id>, final: bool, n: nat)
    requires n <= |ids|
    ensures Pass(t, ids, final, n) ==
            if Open(t, ids, final, n) then Some(AfterPass(t, ids, final, n)) else None
  {
    if n == 0 {
      assert AfterPass(t, ids, final, 0) == t;
    } else {
      PassResult(t, ids, final, n - 1);
      OpenOneMore(t, ids, final, n);
      UpdateResult(t, ids, final, n);
    }
  }

  // ----- when a reordering commits, and what it leaves -----

  /** The table that a committed reordering leaves. */
  function Placed(t: Table, ids: seq<Id>): Table { AfterPass(t, ids, true, |ids|) }

  /** No existing row stands in the way: at a placeholder before it is moved itself, or, unlisted, at a
      final value; and the final values fit the column. */
  ghost predicate CanReorder(t: Table, ids: seq<Id>) {
    && |ids| * 10 <= 0x7FFF_FFFF
    && forall i | 0 <= i < |ids| && ids[i] in t ::
         && (forall r | r in t && r !in ids[..i + 1] :: t[r].priority != -(i + 1))
         && (forall r | r in t && r !in ids :: t[r].priority != (i + 1) * 10)
  }

  lemma FinalBlockedIff(t: Table, ids: seq<Id>, i: nat)
    requires i < |ids| && ids[i] in t
    ensures var moved := AfterPass(t, ids, false, |ids|);
            Blocked(moved, ids, true, i) <==> exists r | r in t :: r !in ids && t[r].priority == (i + 1) * 10
  {
    var moved := AfterPass(t, ids, false, |ids|);
    assert ids[..|ids|] == ids;
    forall r | r in t && r in ids ensures moved[r].priority < 0 {}
    forall r | r in t && r !in ids ensures moved[r] == t[r] && r !in ids[..i + 1] {
      assert forall x | x in ids[..i + 1] :: x in ids;
    }
  }

  lemma PlaceholdersOpenIff(t: Table, ids: seq<Id>)
    requires |ids| * 10 <= 0x7FFF_FFFF
    ensures Open(t, ids, false, |ids|)
       <==> forall i | 0 <= i < |ids| && ids[i] in t ::
              forall r | r in t && r !in ids[..i + 1] :: t[r].priority != -(i + 1)
  {
    forall i | 0 <= i < |ids|
      ensures Int4(Placeholder(i))
      ensures !Blocked(t, ids, false, i)
         <==> ids[i] !in t || forall r | r in t && r !in ids[..i + 1] :: t[r].priority != -(i + 1)
    {
    }
  }

  lemma FinalsOpenIff(t: Table, ids: seq<Id>)
    requires |ids| * 10 <= 0x7FFF_FFFF
    ensures Open(AfterPass(t, ids, false, |ids|), ids, true, |ids|)
       <==> forall i | 0 <= i < |ids| && ids[i] in t ::
              forall r | r in t && r !in ids :: t[r].priority != (i + 1) * 10
  {
    var moved := AfterPass(t, ids, false, |ids|);
    forall i | 0 <= i < |ids|
      ensures Int4(Final(i))
      ensures !Blocked(moved, ids, true, i)
         <==> ids[i] !in t || forall r | r in t && r !in ids :: t[r].priority != (i + 1) * 10
    {
      if ids[i] in t { FinalBlockedIff(t, ids, i); }
    }
  }

  lemma PlacedTwice(t: Table, ids: seq<Id>)
    ensures Placed(AfterPass(t, ids, false, |ids|), ids) == Placed(t, ids)
  {
    assert ids[..|ids|] == ids;
  }

  /** The exact condition under which both passes succeed, and their result. */
  lemma ReorderCommitsIff(t: Table, ids: seq<Id>)
    ensures Reordered(t, ids) == if CanReorder(t, ids) then Some(Placed(t, ids)) else None
  {
    var n := |ids|;
    var moved := AfterPass(t, ids, false, n);
    PassResult(t, ids, false, n);
    PassResult(moved, ids, true, n);
    PlacedTwice(t, ids);
    if n * 10 <= MAX_INT4 {
      PlaceholdersOpenIff(t, ids);
      FinalsOpenIff(t, ids);
    } else {
      assert !Int4(Slot(true, n - 1));
    }
  }

  /** With no negative priority in the table, only an unlisted rule that sits on the final value of a
      listed one is in the way. */
  lemma NonNegativeTables(t: Table, ids: seq<Id>)
    requires forall r | r in t :: t[r].priority >= 0
    ensures CanReorder(t, ids)
       <==> |ids| * 10 <= 0x7FFF_FFFF
            && forall i | 0 <= i < |ids| && ids[i] in t ::
                 forall r | r in t && r !in ids :: t[r].priority != (i + 1) * 10
  {
  }

  /** Nothing keeps negative priorities out of the table, and one of them can block a reordering. */
  lemma NegativePriorityBlocks(a: Rule, b: Rule)
    requires a.id == 1 && a.priority == 10 && b.id == 2 && b.priority == -1
    ensures ValidTable(map[1 := a, 2 := b]) && Reordered(map[1 := a, 2 := b], [1]).None?
  {
    var t := map[1 := a, 2 := b];
    ReorderCommitsIff(t, [1]);
    assert 2 in t && 2 !in [1][..1] && [1][0] in t && t[2].priority == -(0 + 1);
  }

  ghost predicate Distinct(ids: seq<Id>) { forall i, j | 0 <= i < j < |ids| :: ids[i] != ids[j] }

  lemma LastOfDistinct(ids: seq<Id>, i: nat)
    requires Distinct(ids) && i < |ids|
    ensures ids[i] in ids[..|ids|] && Last(ids, |ids|, ids[i]) == i
  {
    assert ids[..|ids|] == ids;
  }

  /** The placed table, row by row: the rule at position `i` of the list, if not listed again later, has ten
      times `i + 1`; the others keep their priority; and nothing but priorities changes. */
  lemma PlacedSays(t: Table, ids: seq<Id>, i: nat, r: Id)
    ensures Placed(t, ids).Keys == t.Keys
    ensures r in t ==> Placed(t, ids)[r].(priority := t[r].priority) == t[r]
    ensures r in t && r !in ids ==> Placed(t, ids)[r] == t[r]
    ensures i < |ids| && ids[i] in t && (forall j | i < j < |ids| :: ids[j] != ids[i]) ==>
              Placed(t, ids)[ids[i]].priority == 10 * (i + 1)
  {
    assert ids[..|ids|] == ids;
  }

  /** Distinct listed rules end up in exactly the requested order. */
  lemma PlacedInOrder(t: Table, ids: seq<Id>, i: nat, j: nat)
    requires Distinct(ids) && i < |ids| && j < |ids| && ids[i] in t && ids[j] in t
    ensures Placed(t, ids)[ids[i]].priority < Placed(t, ids)[ids[j]].priority <==> i < j
  {
    LastOfDistinct(ids, i);
    LastOfDistinct(ids, j);
  }

  // ----- the ordered listing -----

  /** What `SELECT ... WHERE is_enabled ORDER BY priority` returns. */
  ghost predicate Listing(t: Table, s: seq<Rule>) {
    && (forall rule :: rule in s <==> rule.id in t && t[rule.id] == rule && rule.enabled)
    && forall i, j | 0 <= i < j < |s| :: s[i].priority < s[j].priority
  }

  ghost predicate Ascending(s: seq<Rule>) { forall i, j | 0 <= i < j < |s| :: s[i].priority < s[j].priority }

  lemma HasMember(s: seq<Rule>)
    ensures s != [] ==> exists rule :: rule in s
  {
    if s != [] { assert s[0] in s; }
  }

  /** A set of rules has one ascending order. */
  lemma {:induction false} AscendingUnique(a: seq<Rule>, b: seq<Rule>)
    requires Ascending(a) && Ascending(b) && forall rule :: rule in a <==> rule in b
    ensures a == b
  {
    if a == [] {
      HasMember(b);
    } else {
      assert a[0] in b && b[0] in a;
      assert a[0] == b[0];
      forall rule ensures rule in a[1..] <==> rule in b[1..] {
        assert rule in a <==> rule == a[0] || rule in a[1..];
        assert rule in b <==> rule == b[0] || rule in b[1..];
        assert a[0] !in a[1..] && b[0] !in b[1..];
      }
      AscendingUnique(a[1..], b[1..]);
    }
  }

  /** The enabled rules of `t` in the order of `ids`. */
  function InRequestedOrder(t: Table, ids: seq<Id>): seq<Rule> {
    if ids == [] then []
    else (if ids[0] in t && t[ids[0]].enabled then [t[ids[0]]] else []) + InRequestedOrder(t, ids[1..])
  }

  lemma {:induction false} InRequestedOrderIs(t: Table, ids: seq<Id>, rule: Rule)
    requires ValidTable(t)
    ensures rule in InRequestedOrder(t, ids) <==> rule.id in ids && rule.id in t && t[rule.id] == rule && rule.enabled
  {
    if ids != [] {
      InRequestedOrderIs(t, ids[1..], rule);
      assert rule.id in ids <==> rule.id == ids[0] || rule.id in ids[1..];
    }
  }

  /** The rules of `ids` stand in ascending order. */
  ghost predicate AscendingIds(t: Table, ids: seq<Id>) {
    forall i, j | 0 <= i < j < |ids| && ids[i] in t && ids[j] in t :: t[ids[i]].priority < t[ids[j]].priority
  }

  lemma HeadIsLowest(t: Table, ids: seq<Id>, rule: Rule)
    requires ValidTable(t) && AscendingIds(t, ids) && ids != [] && ids[0] in t
    requires rule in InRequestedOrder(t, ids[1..])
    ensures t[ids[0]].priority < rule.priority
  {
    InRequestedOrderIs(t, ids[1..], rule);
    var k :| 0 <= k < |ids[1..]| && ids[1..][k] == rule.id;
    assert ids[k + 1] == rule.id;
  }

  lemma AscendingCons(rule: Rule, rest: seq<Rule>)
    requires Ascending(rest) && forall r <- rest :: rule.priority < r.priority
    ensures Ascending([rule] + rest)
  {
  }

  lemma {:induction false} InRequestedOrderAscends(t: Table, ids: seq<Id>)
    requires ValidTable(t) && AscendingIds(t, ids)
    ensures Ascending(InRequestedOrder(t, ids))
  {
    if ids != [] {
      var rest := InRequestedOrder(t, ids[1..]);
      InRequestedOrderAscends(t, ids[1..]);
      if ids[0] in t && t[ids[0]].enabled {
        forall r | r in rest ensures t[ids[0]].priority < r.priority { HeadIsLowest(t, ids, r); }
        AscendingCons(t[ids[0]], rest);
      } else {
        assert [] + rest == rest;
      }
    }
  }

  /** `ids` names every rule of the table exactly once. */
  ghost predicate FullOrder(t: Table, ids: seq<Id>) {
    Distinct(ids) && forall r :: r in t <==> r in ids
  }

  lemma ListingAfterReorder(t: Table, ids: seq<Id>, s: seq<Rule>)
    requires ValidTable(t) && FullOrder(t, ids) && CanReorder(t, ids) && Listing(Placed(t, ids), s)
    ensures s == InRequestedOrder(Placed(t, ids), ids)
  {
    var t' := Placed(t, ids);
    ReorderCommitsIff(t, ids);
    ReorderKeepsUnique(t, ids);
    forall i, j | 0 <= i < j < |ids| && ids[i] in t' && ids[j] in t'
      ensures t'[ids[i]].priority < t'[ids[j]].priority
    {
      PlacedInOrder(t, ids, i, j);
    }
    InRequestedOrderAscends(t', ids);
    forall rule ensures rule in s <==> rule in InRequestedOrder(t', ids) {
      InRequestedOrderIs(t', ids, rule);
    }
    AscendingUnique(s, InRequestedOrder(t', ids));
  }

  /** The first id of the list whose rule is enabled, compiles and matches. */
  function FirstMatching(e: Engine, host: string, t: Table, ids: seq<Id>): Option<Id> {
    if ids == [] then None
    else if ids[0] in t && Matches(e, host, t[ids[0]]) then Some(ids[0])
    else FirstMatching(e, host, t, ids[1..])
  }

  lemma {:induction false} EvaluateInOrder(e: Engine, host: string, t: Table, ids: seq<Id>)
    requires ValidTable(t)
    ensures Evaluation(e, host, InRequestedOrder(t, ids)).ruleId == FirstMatching(e, host, t, ids)
  {
    if ids != [] {
      var rest := InRequestedOrder(t, ids[1..]);
      EvaluateInOrder(e, host, t, ids[1..]);
      if ids[0] in t && t[ids[0]].enabled {
        var rule := t[ids[0]];
        assert ([rule] + rest)[0] == rule && ([rule] + rest)[1..] == rest;
      } else {
        assert [] + rest == rest;
      }
    }
  }

  lemma {:induction false} PlacingKeepsMatches(e: Engine, host: string, t: Table, ids: seq<Id>, list: seq<Id>)
    ensures FirstMatching(e, host, Placed(t, ids), list) == FirstMatching(e, host, t, list)
  {
    if list != [] { PlacingKeepsMatches(e, host, t, ids, list[1..]); }
  }

  /** End to end: after a committed reordering of all rules, the enabled listing evaluates to the first
      rule of the requested order that is enabled, compiles and matches. */
  lemma ReorderDecidesEvaluation(e: Engine, host: string, t: Table, ids: seq<Id>, s: seq<Rule>)
    requires ValidTable(t) && FullOrder(t, ids)
    requires Reordered(t, ids).Some? && Listing(Reordered(t, ids).value, s)
    ensures Evaluation(e, host, s).ruleId == FirstMatching(e, host, t, ids)
  {
    ReorderCommitsIff(t, ids);
    ReorderKeepsUnique(t, ids);
    ListingAfterReorder(t, ids, s);
    EvaluateInOrder(e, host, Placed(t, ids), ids);
    PlacingKeepsMatches(e, host, t, ids, ids);
  }

  /** A later full reordering of a fully reordered table always commits, and leaves what it would have
      left without the earlier one. */
  lemma LaterReorderOverrides(t: Table, a: seq<Id>, b: seq<Id>)
    requires ValidTable(t) && FullOrder(t, a) && FullOrder(t, b) && Reordered(t, a).Some?
    ensures Reordered(Reordered(t, a).value, b) == Some(Placed(t, b))
  {
    ReorderCommitsIff(t, a);
    var t' := Placed(t, a);
    SameLength(a, b);
    PlacedPositive(t, a);
    NonNegativeTables(t', b);
    ReorderCommitsIff(t', b);
    PlacedForgets(t, a, b);
  }

  lemma PlacedPositive(t: Table, ids: seq<Id>)
    requires FullOrder(t, ids)
    ensures forall r | r in t :: Placed(t, ids)[r].priority > 0
  {
    assert ids[..|ids|] == ids;
  }

  lemma PlacedForgets(t: Table, a: seq<Id>, b: seq<Id>)
    requires FullOrder(t, b)
    ensures Placed(Placed(t, a), b) == Placed(t, b)
  {
    assert b[..|b|] == b;
    forall r | r in t ensures Placed(Placed(t, a), b)[r] == Placed(t, b)[r] {}
  }

  function Elements(ids: seq<Id>): set<Id> { set x | x in ids }

  lemma {:induction false} DistinctCount(ids: seq<Id>)
    requires Distinct(ids)
    ensures |Elements(ids)| == |ids|
  {
    if ids != [] {
      DistinctCount(ids[1..]);
      assert Elements(ids) == Elements(ids[1..]) + {ids[0]};
    }
  }

  lemma SameLength(a: seq<Id>, b: seq<Id>)
    requires Distinct(a) && Distinct(b) && forall x :: x in a <==> x in b
    ensures |a| == |b|
  {
    DistinctCount(a);
    DistinctCount(b);
    assert Elements(a) == Elements(b);
  }
}
