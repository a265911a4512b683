/** The event_triggers table of the scheduler (services/haro/db.go): filters, the two claim
    implementations, and re-insertion. */
module Triggers {
  import opened Wrappers
  import opened GoStrings
  import opened Sorting

  /** A stored trigger. createdAt counts from the zero time, which means "not set". */
  datatype Row = Row(
    id: string, channel: string, source: string, target: string, eventType: string,
    prompt: string, effort: string, createdAt: int, persistent: bool)

  datatype Filter = Filter(source: string, eventType: string, targets: seq<string>)

  type Table = map<string, Row>

  ghost predicate ValidTable(table: Table) {
    forall id :: id in table ==> table[id].id == id
  }

  // ----- Filters -----

  /** x occurs, trimmed, ahead of every occurrence of y. */
  ghost predicate AppearsAhead(targets: seq<string>, x: string, y: string) {
    exists p :: 0 <= p < |targets| && TrimSpace(targets[p]) == x && forall q :: 0 <= q <= p ==>
      TrimSpace(targets[q]) != y
  }

  /** The trimmed, non-blank targets, each once, in order of first appearance. */
  ghost predicate IsCleanList(targets: seq<string>, clean: seq<string>) {
    && (forall t :: t in clean ==> t != "" && exists i :: 0 <= i < |targets| && TrimSpace(targets[i]) == t)
    && (forall i :: 0 <= i < |targets| && TrimSpace(targets[i]) != "" ==> TrimSpace(targets[i]) in clean)
    && (forall i, j :: 0 <= i < j < |clean| ==> clean[i] != clean[j])
    && (forall i, j :: 0 <= i < j < |clean| ==> AppearsAhead(targets, clean[i], clean[j]))
  }

  function Cleaned(targets: seq<string>): seq<string> {
    if targets == [] then []
    else
      var clean, t := Cleaned(targets[..|targets| - 1]), TrimSpace(targets[|targets| - 1]);
      if t != "" && t !in clean then clean + [t] else clean
  }

  lemma {:induction false} CleanedIsClean(targets: seq<string>)
    ensures IsCleanList(targets, Cleaned(targets))
  {
    if targets != [] {
      var front, last := targets[..|targets| - 1], targets[|targets| - 1];
      CleanedIsClean(front);
      CleanStep(front, Cleaned(front), last);
      assert targets == front + [last];
    }
  }

  lemma CleanStep(targets: seq<string>, clean: seq<string>, next: string)
    requires IsCleanList(targets, clean)
    ensures var t := TrimSpace(next);
            IsCleanList(targets + [next], if t != "" && t !in clean then clean + [t] else clean)
  {
    var t, longer := TrimSpace(next), targets + [next];
    var clean' := if t != "" && t !in clean then clean + [t] else clean;
    assert TrimSpace(longer[|targets|]) == t;
    forall x | x in clean
      ensures exists i :: 0 <= i < |longer| && TrimSpace(longer[i]) == x
    {
      var i :| 0 <= i < |targets| && TrimSpace(targets[i]) == x;
      assert longer[i] == targets[i];
    }
    forall i, j | 0 <= i < j < |clean'|
      ensures AppearsAhead(longer, clean'[i], clean'[j])
    {
      if j < |clean| {
        AheadStays(targets, next, clean[i], clean[j]);
      } else {
        assert clean[i] in clean;
        var p :| 0 <= p < |targets| && TrimSpace(targets[p]) == clean[i];
        AheadOfNew(targets, next, p, t);
      }
    }
  }

  lemma AheadStays(targets: seq<string>, next: string, x: string, y: string)
    requires AppearsAhead(targets, x, y)
    ensures AppearsAhead(targets + [next], x, y)
  {
    var longer := targets + [next];
    var p :| 0 <= p < |targets| && TrimSpace(targets[p]) == x && forall q :: 0 <= q <= p ==>
      TrimSpace(targets[q]) != y;
    assert TrimSpace(longer[p]) == x;
  }

  lemma AheadOfNew(targets: seq<string>, next: string, p: nat, y: string)
    requires p < |targets| && forall q :: 0 <= q < |targets| ==> TrimSpace(targets[q]) != y
    ensures AppearsAhead(targets + [next], TrimSpace(targets[p]), y)
  {
    var longer := targets + [next];
    assert TrimSpace(longer[p]) == TrimSpace(targets[p]);
  }

  method CleanTargets(targets: seq<string>) returns (clean: seq<string>)
    ensures IsCleanList(targets, clean)
  {
    clean := [];
    var seen: set<string> := {};
    for n := 0 to |targets|
      invariant forall t :: t in seen <==> t in clean
      invariant clean == Cleaned(targets[..n])
    {
      var t := TrimSpace(targets[n]);
      assert targets[..n + 1][..n] == targets[..n];
      if t != "" && t !in seen {
        seen := seen + {t};
        clean := clean + [t];
      }
    }
    assert targets[..|targets|] == targets;
    CleanedIsClean(targets);
  }

  /** buildEventTriggerFilterArgs: no filter when the source, the type or every target is blank. */
  method BuildFilter(lower: string -> string, source: string, targets: seq<string>, eventType: string)
    returns (filter: Option<Filter>)
    ensures var s, e := lower(TrimSpace(source)), lower(TrimSpace(eventType));
            filter.None? <==> s == "" || e == "" || forall i :: 0 <= i < |targets| ==> TrimSpace(targets[i]) == ""
    ensures filter.Some? ==> filter.value.source == lower(TrimSpace(source))
                             && filter.value.eventType == lower(TrimSpace(eventType))
                             && IsCleanList(targets, filter.value.targets)
  {
    var s, e := lower(TrimSpace(source)), lower(TrimSpace(eventType));
    var clean := CleanTargets(targets);
    assert |clean| > 0 ==> clean[0] in clean;
    if s == "" || e == "" || |clean| == 0 {
      return None;
    }
    return Some(Filter(s, e, clean));
  }

  /** WHERE source = $1 AND event_type = $2 AND target IN ($3, ...). */
  predicate Matches(row: Row, f: Filter) {
    row.source == f.source && row.eventType == f.eventType && row.target in f.targets
  }

  // ----- Claims -----

  /** COALESCE(NULLIF(effort, ''), 'medium'). */
  function Claimed(row: Row): Row {
    if row.effort == "" then row.(effort := "medium") else row
  }

  ghost predicate IsClaimed(table: Table, f: Filter, row: Row) {
    && row.id in table
    && table[row.id].source == f.source && table[row.id].eventType == f.eventType && table[row.id].target in f.targets
    && row == table[row.id].(effort := row.effort)
    && row.effort == (if table[row.id].effort == "" then "medium" else table[row.id].effort)
  }

  /** DELETE ... WHERE it matches AND persistent = FALSE. */
  function Remaining(table: Table, f: Filter): Table {
    map id | id in table && !(Matches(table[id], f) && !table[id].persistent) :: table[id]
  }

  /** A claim uses the row up: it answers the filter and is good for one event only. */
  ghost predicate IsSpent(row: Row, f: Filter) {
    row.source == f.source && row.eventType == f.eventType && row.target in f.targets && !row.persistent
  }

  /** What a claim does, whichever way it is carried out: it returns every matching row once, oldest
      first, and removes the one-shot ones; nothing else leaves or changes. */
  ghost predicate IsClaim(before: Table, f: Filter, result: seq<Row>, after: Table) {
    && (forall row :: row in result <==> IsClaimed(before, f, row))
    && (forall i, j :: 0 <= i < j < |result| ==> result[i].id != result[j].id)
    && (forall i, j :: 0 <= i < j < |result| ==> result[i].createdAt <= result[j].createdAt)
    && (forall id :: id in after <==> id in before && !IsSpent(before[id], f))
    && (forall id :: id in after ==> after[id] == before[id])
  }

  /** SELECT ... WHERE, in no particular order. */
  method SelectWhere(table: Table, where: Row -> bool) returns (rows: seq<Row>)
    requires ValidTable(table)
    ensures forall row :: row in rows <==> row.id in table && where(table[row.id]) && row == Claimed(table[row.id])
    ensures forall i, j :: 0 <= i < j < |rows| ==> rows[i].id != rows[j].id
  {
    rows := [];
    var rest := table.Keys;
    while rest != {}
      invariant rest <= table.Keys
      invariant forall row :: row in rows ==>
        row.id in table && row.id !in rest && where(table[row.id]) && Claimed(table[row.id]) == row
      invariant forall id :: id in table && id !in rest && where(table[id]) ==> Claimed(table[id]) in rows
      invariant forall i, j :: 0 <= i < j < |rows| ==> rows[i].id != rows[j].id
      decreases |rest|
    {
      EmptyOrNot(rest);
      var id :| id in rest;
      rest := rest - {id};
      if where(table[id]) {
        rows := rows + [Claimed(table[id])];
      }
    }
  }

  function Older(): (Row, Row) -> bool {
    (a: Row, b: Row) => a.createdAt < b.createdAt
  }

  lemma {:induction false} SortedRows(rows: seq<Row>)
    requires forall i, j :: 0 <= i < j < |rows| ==> rows[i].id != rows[j].id
    ensures var r := Sort(rows, Older());
            && (forall row :: row in r <==> row in rows)
            && (forall i, j :: 0 <= i < j < |r| ==> r[i].id != r[j].id)
            && (forall i, j :: 0 <= i < j < |r| ==> r[i].createdAt <= r[j].createdAt)
  {
    var r := Sort(rows, Older());
    SortIsPermutation(rows, Older());
    SortKeepsElements(rows, Older());
    SortIsSorted(rows, Older());
    forall i, j | 0 <= i < j < |r|
      ensures r[i].id != r[j].id && r[i].createdAt <= r[j].createdAt
    {
      assert !Older()(r[j], r[i]);
      DistinctAfterSort(rows, r, i, j);
    }
  }

  lemma DistinctAfterSort(rows: seq<Row>, r: seq<Row>, i: nat, j: nat)
    requires forall p, q :: 0 <= p < q < |rows| ==> rows[p].id != rows[q].id
    requires multiset(rows) == multiset(r) && i < j < |r|
    ensures r[i].id != r[j].id
  {
    SameElements(rows, r);
    assert r[i] in rows && r[j] in rows;
    var p :| 0 <= p < |rows| && rows[p] == r[i];
    var q :| 0 <= q < |rows| && rows[q] == r[j];
    if p == q {
      RepeatedCountsTwice(r, i, j);
      OnceOnly(rows, p);
    }
  }

  lemma OnceOnly(rows: seq<Row>, p: nat)
    requires p < |rows| && forall i, j :: 0 <= i < j < |rows| ==> rows[i].id != rows[j].id
    ensures multiset(rows)[rows[p]] == 1
  {
    assert rows == rows[..p] + [rows[p]] + rows[p + 1..];
    assert rows[p] !in rows[..p] && rows[p] !in rows[p + 1..];
  }

  class Database {
    var table: Table

    ghost predicate Valid()
      reads this
    {
      ValidTable(table)
    }

    /** SQLite: select, then delete, in one transaction that any error rolls back. `up` says whether the
        database is known to answer. */
    method ClaimInTransaction(f: Filter, up: bool) returns (result: seq<Row>, ok: bool)
      requires Valid()
      modifies this
      ensures Valid()
      ensures up ==> ok
      ensures ok ==> IsClaim(old(table), f, result, table)
      ensures !ok ==> table == old(table)
    {
      var rows := SelectWhere(table, (row: Row) => Matches(row, f));
      SortedRows(rows);
      result := Sort(rows, Older());
      ok := *;
      ok := ok || up;
      if ok {
        table := Remaining(table, f);
      }
    }

    /** Postgres: one statement; both parts of it see the table as it was before. */
    method ClaimInOneStatement(f: Filter, up: bool) returns (result: seq<Row>, ok: bool)
      requires Valid()
      modifies this
      ensures Valid()
      ensures up ==> ok
      ensures ok ==> IsClaim(old(table), f, result, table)
      ensures !ok ==> table == old(table)
    {
      ok := *;
      ok := ok || up;
      if !ok {
        return [], false;
      }
      var snapshot := table;
      var deleted := SelectWhere(snapshot, (row: Row) => Matches(row, f) && !row.persistent);
      table := Remaining(table, f);
      var kept := SelectWhere(snapshot, (row: Row) => Matches(row, f) && row.persistent);
      UnionIsAll(snapshot, f, deleted, kept);
      SortedRows(deleted + kept);
      result := Sort(deleted + kept, Older());
    }

    /** SELECT EXISTS: is anything there to claim? */
    method Check(f: Filter) returns (matched: bool)
      requires Valid()
      ensures matched <==> exists id :: id in table && table[id].source == f.source
                                        && table[id].eventType == f.eventType && table[id].target in f.targets
    {
      var rows := SelectWhere(table, (row: Row) => Matches(row, f));
      matched := |rows| > 0;
      assert matched ==> rows[0] in rows;
      assert forall id :: id in table && Matches(table[id], f) ==> Claimed(table[id]) in rows;
    }
  }

  lemma UnionIsAll(table: Table, f: Filter, deleted: seq<Row>, kept: seq<Row>)
    requires ValidTable(table)
    requires forall row :: row in deleted <==> IsClaimed(table, f, row) && !row.persistent
    requires forall row :: row in kept <==> IsClaimed(table, f, row) && row.persistent
    requires forall i, j :: 0 <= i < j < |deleted| ==> deleted[i].id != deleted[j].id
    requires forall i, j :: 0 <= i < j < |kept| ==> kept[i].id != kept[j].id
    ensures forall row :: row in deleted + kept <==> IsClaimed(table, f, row)
    ensures forall i, j :: 0 <= i < j < |deleted + kept| ==> (deleted + kept)[i].id != (deleted + kept)[j].id
  {
    var all := deleted + kept;
    forall i, j | 0 <= i < j < |all|
      ensures all[i].id != all[j].id
    {
      if i < |deleted| <= j {
        assert all[i] in deleted && all[j] in kept;
      }
    }
  }

  lemma {:induction false} SameRowsSameMultiset(a: seq<Row>, b: seq<Row>)
    requires forall row :: row in a <==> row in b
    requires forall i, j :: 0 <= i < j < |a| ==> a[i].id != a[j].id
    requires forall i, j :: 0 <= i < j < |b| ==> b[i].id != b[j].id
    ensures multiset(a) == multiset(b)
  {
    forall row
      ensures multiset(a)[row] == multiset(b)[row]
    {
      if row in a {
        var p :| 0 <= p < |a| && a[p] == row;
        assert row in b;
        var q :| 0 <= q < |b| && b[q] == row;
        OnceOnly(a, p);
        OnceOnly(b, q);
      }
    }
  }

  /** The two implementations agree: the same rows, up to the order of equal timestamps, and the same table. */
  lemma {:induction false} ClaimsAgree(before: Table, f: Filter, r1: seq<Row>, t1: Table, r2: seq<Row>, t2: Table)
    requires IsClaim(before, f, r1, t1) && IsClaim(before, f, r2, t2)
    ensures multiset(r1) == multiset(r2) && t1 == t2
  {
    assert t1.Keys == t2.Keys;
    SameRowsSameMultiset(r1, r2);
  }

  /** A claim returns something exactly when Check would have said so. */
  lemma ClaimMatchesCheck(before: Table, f: Filter, result: seq<Row>, after: Table)
    requires ValidTable(before) && IsClaim(before, f, result, after)
    ensures result != [] <==> exists id :: id in before && before[id].source == f.source
                                           && before[id].eventType == f.eventType && before[id].target in f.targets
  {
    if result != [] {
      assert result[0] in result;
      assert Matches(before[result[0].id], f);
    }
    forall id | id in before && Matches(before[id], f)
      ensures result != []
    {
      assert Claimed(before[id]) in result;
    }
  }

  // ----- Re-insertion -----

  predicate IsTier(effort: string) {
    effort == "low" || effort == "medium" || effort == "high"
  }

  /** NormalizeEffort, with InsertEventTrigger's fallback for an error. */
  function StoredEffort(lower: string -> string, effort: string): string {
    var e := lower(TrimSpace(effort));
    if e == "" then "low" else if IsTier(e) then e else "medium"
  }

  /** The row InsertEventTrigger writes. */
  function Inserted(lower: string -> string, now: int, t: Row): Row {
    t.(createdAt := if t.createdAt == 0 then now else t.createdAt, effort := StoredEffort(lower, t.effort))
  }

  ghost predicate LowersTiers(lower: string -> string) {
    forall e :: IsTier(e) ==> lower(e) == e
  }

  lemma TiersAreTrimmed(effort: string)
    requires IsTier(effort)
    ensures TrimSpace(effort) == effort
  {
    TrimSpaceTrims(effort);
  }

  /** Claiming a row and inserting it again restores it exactly when its timestamp is set and its
      effort is one of the three tiers; which is so of every row that was inserted through this code. */
  lemma {:induction false} RestoredIff(lower: string -> string, now: int, row: Row)
    requires LowersTiers(lower) && now != 0
    ensures Inserted(lower, now, Claimed(row)) == row <==> row.createdAt != 0 && IsTier(row.effort)
  {
    if IsTier(row.effort) {
      TiersAreTrimmed(row.effort);
    }
    if row.effort == "" {
      TiersAreTrimmed("medium");
    }
  }

  /** A row without an effort comes back with one. */
  lemma NotRestoredExample(lower: string -> string)
    requires LowersTiers(lower)
    ensures var row := Row("id", "channel", "hangar", "web", "deployed", "prompt", "", 1, false);
      Inserted(lower, 2, Claimed(row)) != row && Inserted(lower, 2, Claimed(row)) == row.(effort := "medium")
  {
    TiersAreTrimmed("medium");
    assert IsTier("medium");
  }

  lemma InsertedIsRestorable(lower: string -> string, now: int, later: int, t: Row)
    requires LowersTiers(lower) && now != 0 && later != 0
    ensures var row := Inserted(lower, now, t); Inserted(lower, later, Claimed(row)) == row
  {
    RestoredIff(lower, later, Inserted(lower, now, t));
  }
}
