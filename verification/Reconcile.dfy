/** The application of Nomad changes (services/hangar/events.go and reconcile.go): pushes tear deleted
    jobs down before they apply others, and sweeps stop only what nobody defines. File reads, image
    lookups and nomad calls have arbitrary outcomes. */
module Reconcile {
  import opened Sorting
  import opened PendingChanges

  datatype Command = Teardown(job: string) | Validate(job: string) | Purge(job: string) | Run(job: string)

  /** Which jobs each candidate repository defines, as found on disk. */
  type Definitions = map<string, set<string>>

  /** FindJobDefinitionInRepos. */
  predicate DefinedOutside(defs: Definitions, job: string, skipRepo: string) {
    job != "" && exists repo :: repo in defs && (skipRepo == "" || repo != skipRepo) && job in defs[repo]
  }

  /** The jobs some repository defines. */
  function DefinedJobs(defs: Definitions): set<string> {
    set repo <- defs.Keys, job <- defs[repo] | job != "" :: job
  }

  function PendingJobs(events: seq<Event>): set<string> {
    set i, j | 0 <= i < |events| && 0 <= j < |events[i].changes| && events[i].changes[j].job != "" ::
      events[i].changes[j].job
  }

  function Orphans(known: set<string>, active: seq<string>): seq<Command> {
    if active == [] then []
    else
      var job := active[|active| - 1];
      Orphans(known, active[..|active| - 1]) + (if job in known then [] else [Teardown(job)])
  }

  function SweepCommands(defs: Definitions, pending: seq<Event>, active: seq<string>): seq<Command> {
    if DefinedJobs(defs) == {} then [] else Orphans(DefinedJobs(defs) + PendingJobs(pending), active)
  }

  lemma OrphanIsUndefined(defs: Definitions, job: string)
    ensures DefinedOutside(defs, job, "") <==> job in DefinedJobs(defs)
  {
  }

  function TeardownsFor(defs: Definitions, repoPath: string, jobs: seq<string>): seq<Command> {
    if jobs == [] then []
    else
      var job := jobs[|jobs| - 1];
      TeardownsFor(defs, repoPath, jobs[..|jobs| - 1]) +
        (if DefinedOutside(defs, job, repoPath) then [] else [Teardown(job)])
  }

  /** Exactly the deleted jobs that no other candidate repository defines are torn down. */
  lemma {:induction false} TeardownsAreExact(defs: Definitions, repoPath: string, jobs: seq<string>, c: Command)
    ensures c in TeardownsFor(defs, repoPath, jobs) <==>
      c.Teardown? && c.job in jobs && !DefinedOutside(defs, c.job, repoPath)
  {
    if jobs != [] {
      TeardownsAreExact(defs, repoPath, jobs[..|jobs| - 1], c);
      assert jobs == jobs[..|jobs| - 1] + [jobs[|jobs| - 1]];
    }
  }

  lemma {:induction false} OrphansAreExact(known: set<string>, active: seq<string>, c: Command)
    ensures c in Orphans(known, active) <==> c.Teardown? && c.job in active && c.job !in known
  {
    if active != [] {
      OrphansAreExact(known, active[..|active| - 1], c);
      assert active == active[..|active| - 1] + [active[|active| - 1]];
    }
  }

  /** A sweep stops exactly the running jobs without a definition anywhere and without a pending change,
      and nothing at all when no definition can be read. */
  lemma SweepIsExact(defs: Definitions, pending: seq<Event>, active: seq<string>, c: Command)
    ensures c in SweepCommands(defs, pending, active) <==>
      && c.Teardown? && c.job in active && DefinedJobs(defs) != {}
      && !DefinedOutside(defs, c.job, "") && c.job !in PendingJobs(pending)
  {
    OrphansAreExact(DefinedJobs(defs) + PendingJobs(pending), active, c);
    OrphanIsUndefined(defs, c.job);
  }

  /** The deletes a push handles are those it was given, whatever the order. */
  lemma PushDeletesAreGiven(isHangar: string -> bool, changes: seq<Change>)
    ensures multiset(OnlyChanges(Sort(changes, HangarLast(isHangar)), true)) == multiset(OnlyChanges(changes, true))
  {
    var sorted := Sort(changes, HangarLast(isHangar));
    SortIsPermutation(changes, HangarLast(isHangar));
    SplitChangesExactly(changes, true);
    SplitChangesExactly(sorted, true);
    var a, b := multiset(OnlyChanges(sorted, true)), multiset(OnlyChanges(changes, true));
    assert forall ch :: a[ch] == b[ch];
  }

  function EventTeardowns(defs: Definitions, events: seq<Event>): seq<Command> {
    if events == [] then []
    else
      var e := events[|events| - 1];
      EventTeardowns(defs, events[..|events| - 1]) +
        TeardownsFor(defs, e.meta.repoPath, Jobs(OnlyChanges(e.changes, true)))
  }

  /** Some item deletes the job, and no repository but the item's own defines it. */
  ghost predicate Due(defs: Definitions, items: seq<Item>, job: string) {
    exists i :: 0 <= i < |items| && Deletes(defs, items[i], job)
  }

  ghost predicate Deletes(defs: Definitions, item: Item, job: string) {
    IsDelete(item.change) && item.change.job == job && !DefinedOutside(defs, job, item.meta.repoPath)
  }

  lemma DueAppend(defs: Definitions, a: seq<Item>, b: seq<Item>, job: string)
    ensures Due(defs, a + b, job) <==> Due(defs, a, job) || Due(defs, b, job)
  {
    if Due(defs, a, job) {
      var i :| 0 <= i < |a| && Deletes(defs, a[i], job);
      assert (a + b)[i] == a[i];
    }
    if Due(defs, b, job) {
      var i :| 0 <= i < |b| && Deletes(defs, b[i], job);
      assert (a + b)[|a| + i] == b[i];
    }
  }

  lemma DueInEvent(defs: Definitions, meta: Meta, changes: seq<Change>, job: string)
    ensures Due(defs, Items(meta, changes), job) <==>
      !DefinedOutside(defs, job, meta.repoPath) && exists ch :: ch in changes && IsDelete(ch) && ch.job == job
  {
    var items := Items(meta, changes);
    if Due(defs, items, job) {
      var i :| 0 <= i < |items| && Deletes(defs, items[i], job);
      ItemsAreChanges(meta, changes, items[i]);
    }
    if !DefinedOutside(defs, job, meta.repoPath) && exists ch :: ch in changes && IsDelete(ch) && ch.job == job {
      var ch :| ch in changes && IsDelete(ch) && ch.job == job;
      ItemsAreChanges(meta, changes, Item(meta, ch));
      var i :| 0 <= i < |items| && items[i] == Item(meta, ch);
      assert Deletes(defs, items[i], job);
    }
  }

  lemma DeletesAreChanges(changes: seq<Change>, ch: Change)
    ensures ch in OnlyChanges(changes, true) <==> ch in changes && IsDelete(ch)
  {
    var deletes := OnlyChanges(changes, true);
    SplitChangesExactly(changes, true);
    assert multiset(deletes)[ch] == if IsDelete(ch) then multiset(changes)[ch] else 0;
    assert (ch in deletes <==> ch in multiset(deletes)) && (ch in changes <==> ch in multiset(changes));
  }

  lemma DeletedJobs(changes: seq<Change>, job: string)
    ensures job in Jobs(OnlyChanges(changes, true)) <==> exists ch :: ch in changes && IsDelete(ch) && ch.job == job
  {
    var deletes := OnlyChanges(changes, true);
    if job in Jobs(deletes) {
      var k :| 0 <= k < |deletes| && Jobs(deletes)[k] == job;
      DeletesAreChanges(changes, deletes[k]);
    }
    if exists ch :: ch in changes && IsDelete(ch) && ch.job == job {
      var ch :| ch in changes && IsDelete(ch) && ch.job == job;
      DeletesAreChanges(changes, ch);
      var k :| 0 <= k < |deletes| && deletes[k] == ch;
      assert Jobs(deletes)[k] == job;
    }
  }

  /** Exactly the pending deletes that no other repository overrules are carried out. */
  lemma {:induction false} PendingTeardownsAreExact(defs: Definitions, events: seq<Event>, c: Command)
    ensures c in EventTeardowns(defs, events) <==> c.Teardown? && Due(defs, Flatten(events), c.job)
  {
    if events != [] {
      var front, e := events[..|events| - 1], events[|events| - 1];
      PendingTeardownsAreExact(defs, front, c);
      TeardownsAreExact(defs, e.meta.repoPath, Jobs(OnlyChanges(e.changes, true)), c);
      DeletedJobs(e.changes, c.job);
      DueInEvent(defs, e.meta, e.changes, c.job);
      DueAppend(defs, Flatten(front), Items(e.meta, e.changes), c.job);
    }
  }

  /** Every teardown among the commands is due. */
  ghost predicate OnlyDue(defs: Definitions, items: seq<Item>, cmds: seq<Command>) {
    forall i :: 0 <= i < |cmds| && cmds[i].Teardown? ==> Due(defs, items, cmds[i].job)
  }

  /** Every due teardown is among the commands. */
  ghost predicate AllDue(defs: Definitions, items: seq<Item>, cmds: seq<Command>) {
    forall job {:trigger Due(defs, items, job)} :: Due(defs, items, job) ==> Teardown(job) in cmds
  }

  /** What a push tears down is due. */
  lemma PushTeardownsAreDue(defs: Definitions, isHangar: string -> bool, meta: Meta, changes: seq<Change>)
    ensures var deletes := OnlyChanges(Sort(changes, HangarLast(isHangar)), true);
      OnlyDue(defs, Items(meta, changes), TeardownsFor(defs, meta.repoPath, Jobs(deletes)))
  {
    var sorted := Sort(changes, HangarLast(isHangar));
    var jobs := Jobs(OnlyChanges(sorted, true));
    var cmds := TeardownsFor(defs, meta.repoPath, jobs);
    SortKeepsElements(changes, HangarLast(isHangar));
    forall i | 0 <= i < |cmds|
      ensures Due(defs, Items(meta, changes), cmds[i].job)
    {
      TeardownsAreExact(defs, meta.repoPath, jobs, cmds[i]);
      DeletedJobs(sorted, cmds[i].job);
      DueInEvent(defs, meta, changes, cmds[i].job);
    }
  }

  /** Only the repository of an event matters. */
  lemma SameRepoSameDue(defs: Definitions, a: Meta, b: Meta, changes: seq<Change>, cmds: seq<Command>)
    requires a.repoPath == b.repoPath && OnlyDue(defs, Items(a, changes), cmds)
    ensures OnlyDue(defs, Items(b, changes), cmds)
  {
    forall i | 0 <= i < |cmds| && cmds[i].Teardown?
      ensures Due(defs, Items(b, changes), cmds[i].job)
    {
      DueInEvent(defs, a, changes, cmds[i].job);
      DueInEvent(defs, b, changes, cmds[i].job);
    }
  }

  lemma OnlyDueAppend(defs: Definitions, a: seq<Item>, b: seq<Item>, first: seq<Command>, second: seq<Command>)
    requires OnlyDue(defs, a, first) && OnlyDue(defs, b, second)
    ensures OnlyDue(defs, a + b, first + second)
  {
    var cmds := first + second;
    forall i | 0 <= i < |cmds| && cmds[i].Teardown?
      ensures Due(defs, a + b, cmds[i].job)
    {
      DueAppend(defs, a, b, cmds[i].job);
      if i < |first| {
        assert cmds[i] == first[i];
      } else {
        assert cmds[i] == second[i - |first|];
      }
    }
  }

  lemma {:induction false} ItemsAreChanges(meta: Meta, changes: seq<Change>, item: Item)
    ensures item in Items(meta, changes) <==> item.meta == meta && item.change in changes
  {
    if changes != [] {
      ItemsAreChanges(meta, changes[..|changes| - 1], item);
      assert changes == changes[..|changes| - 1] + [changes[|changes| - 1]];
    }
  }

  // ----- A push -----

  predicate HangarAfter(isHangar: string -> bool, a: Change, b: Change) {
    !isHangar(a.job) && isHangar(b.job)
  }

  function HangarLast(isHangar: string -> bool): (Change, Change) -> bool {
    (a: Change, b: Change) => HangarAfter(isHangar, a, b)
  }

  function Jobs(changes: seq<Change>): seq<string> {
    seq(|changes|, i requires 0 <= i < |changes| => changes[i].job)
  }

  /** What looking at a changed job file says: not there, wait for its image, or go. */
  datatype Readiness = Missing | Deferred | Ready

  /** The non-delete changes in one state, in order. */
  function WithState(changes: seq<Change>, inspect: Change -> Readiness, r: Readiness): seq<Change> {
    if changes == [] then []
    else
      var last := changes[|changes| - 1];
      WithState(changes[..|changes| - 1], inspect, r) + (if !IsDelete(last) && inspect(last) == r then [last] else [])
  }

  method Triage(changes: seq<Change>, inspect: Change -> Readiness)
    returns (ready: seq<Change>, deferred: seq<string>, deletes: seq<Change>)
    ensures deletes == OnlyChanges(changes, true)
    ensures ready == WithState(changes, inspect, Ready) && deferred == Jobs(WithState(changes, inspect, Deferred))
  {
    ready, deferred, deletes := [], [], [];
    for n := 0 to |changes|
      invariant deletes == OnlyChanges(changes[..n], true)
      invariant ready == WithState(changes[..n], inspect, Ready) &&
        deferred == Jobs(WithState(changes[..n], inspect, Deferred))
    {
      assert changes[..n + 1][..n] == changes[..n];
      if IsDelete(changes[n]) {
        deletes := deletes + [changes[n]];
        continue;
      }
      match inspect(changes[n]) {
        case Missing =>
        case Deferred => deferred := deferred + [changes[n].job];
        case Ready => ready := ready + [changes[n]];
      }
    }
    assert changes[..|changes|] == changes;
  }

  lemma {:induction false} WithStateIsExact(changes: seq<Change>, inspect: Change -> Readiness, r: Readiness)
    ensures forall ch :: ch in WithState(changes, inspect, r) <==> ch in changes && !IsDelete(ch) && inspect(ch) == r
  {
    if changes != [] {
      WithStateIsExact(changes[..|changes| - 1], inspect, r);
      assert changes == changes[..|changes| - 1] + [changes[|changes| - 1]];
    }
  }

  lemma {:induction false} WithStateKeepsOrder(
    isHangar: string -> bool, changes: seq<Change>, inspect: Change -> Readiness, r: Readiness)
    requires Sorted(changes, HangarLast(isHangar))
    ensures HangarComesLast(isHangar, Jobs(WithState(changes, inspect, r)))
  {
    if changes != [] {
      var front, last := changes[..|changes| - 1], changes[|changes| - 1];
      var kept := WithState(front, inspect, r);
      WithStateKeepsOrder(isHangar, front, inspect, r);
      WithStateIsExact(front, inspect, r);
      var all := WithState(changes, inspect, r);
      forall i, j | 0 <= i < j < |all| && isHangar(all[i].job)
        ensures isHangar(all[j].job)
      {
        assert all[i] == kept[i] && Jobs(kept)[i] == all[i].job;
        if j < |kept| {
          assert Jobs(kept)[j] == all[j].job;
        } else {
          assert kept[i] in kept;
          var k :| 0 <= k < |front| && front[k] == kept[i];
          assert !HangarLast(isHangar)(changes[|changes| - 1], changes[k]);
        }
      }
    }
  }

  /** Orders the changes with hangar's own last and sorts them into ready, waiting and deleted ones. */
  method PlanPush(isHangar: string -> bool, inspect: Change -> Readiness, changes: seq<Change>)
    returns (ready: seq<Change>, deferred: seq<string>, deletes: seq<Change>)
    ensures deletes == OnlyChanges(Sort(changes, HangarLast(isHangar)), true)
    ensures HangarComesLast(isHangar, Jobs(ready))
    ensures ready == WithState(Sort(changes, HangarLast(isHangar)), inspect, Ready)
    ensures AreReadyOnes(ready, inspect, changes)
    ensures deferred == [] <==> !MustWait(inspect, changes)
    ensures AllAre(changes, false) ==> deletes == []
  {
    var sorted := Sort(changes, HangarLast(isHangar));
    HangarLastIsWeakOrder(isHangar);
    SortIsSorted(changes, HangarLast(isHangar));
    SortKeepsElements(changes, HangarLast(isHangar));
    ready, deferred, deletes := Triage(sorted, inspect);
    WithStateKeepsOrder(isHangar, sorted, inspect, Ready);
    WithStateIsExact(sorted, inspect, Ready);
    WaitingIffMustWait(inspect, sorted);
    if AllAre(changes, false) {
      NothingToTearDown(isHangar, changes);
    }
  }

  lemma WaitingIffMustWait(inspect: Change -> Readiness, changes: seq<Change>)
    ensures WithState(changes, inspect, Deferred) != [] <==> MustWait(inspect, changes)
  {
    var waiting := WithState(changes, inspect, Deferred);
    WithStateIsExact(changes, inspect, Deferred);
    if waiting != [] {
      assert waiting[0] in waiting;
    }
    if MustWait(inspect, changes) {
      var ch :| ch in changes && !IsDelete(ch) && inspect(ch) == Deferred;
      assert ch in waiting;
    }
  }

  ghost predicate AreReadyOnes(ready: seq<Change>, inspect: Change -> Readiness, changes: seq<Change>) {
    forall ch :: ch in ready <==> ch in changes && !IsDelete(ch) && inspect(ch) == Ready
  }

  /** Some job of the push waits for its image. */
  ghost predicate MustWait(inspect: Change -> Readiness, changes: seq<Change>) {
    exists ch :: ch in changes && !IsDelete(ch) && inspect(ch) == Deferred
  }

  lemma HangarLastIsWeakOrder(isHangar: string -> bool)
    ensures WeakOrder(HangarLast(isHangar))
  {
  }

  /** No teardown of a deleted job comes after a command that applies one. */
  ghost predicate TeardownsFirst(cmds: seq<Command>) {
    forall i, j :: 0 <= i < j < |cmds| && cmds[j].Teardown? ==> cmds[i].Teardown?
  }

  ghost predicate NoTeardowns(cmds: seq<Command>) {
    forall i :: 0 <= i < |cmds| ==> !cmds[i].Teardown?
  }

  /** Once hangar's own job is touched, no other job is. */
  ghost predicate HangarTouchedLast(isHangar: string -> bool, cmds: seq<Command>) {
    forall i, j :: 0 <= i < j < |cmds| && isHangar(cmds[i].job) ==> isHangar(cmds[j].job)
  }

  ghost predicate HangarComesLast(isHangar: string -> bool, jobs: seq<string>) {
    forall i, j :: 0 <= i < j < |jobs| && isHangar(jobs[i]) ==> isHangar(jobs[j])
  }

  /** The commands that apply one job: a validation first, then runs and purges of that job only. */
  ghost predicate IsApplication(job: string, ok: bool, cmds: seq<Command>) {
    && |cmds| > 0 && cmds[0] == Validate(job)
    && (forall i :: 0 <= i < |cmds| ==> cmds[i].job == job && !cmds[i].Teardown?)
    && (ok ==> cmds[|cmds| - 1] == Run(job))
  }

  ghost predicate OnlyTouches(cmds: seq<Command>, jobs: seq<string>) {
    forall i :: 0 <= i < |cmds| ==> cmds[i].job in jobs
  }

  lemma ApplicationsStayOrdered(
    isHangar: string -> bool, jobs: seq<string>, n: nat, cmds: seq<Command>, more: seq<Command>, ok: bool)
    requires n < |jobs| && HangarComesLast(isHangar, jobs)
    requires OnlyTouches(cmds, jobs[..n]) && HangarTouchedLast(isHangar, cmds) && NoTeardowns(cmds)
    requires IsApplication(jobs[n], ok, more)
    ensures OnlyTouches(cmds + more, jobs[..n + 1]) && HangarTouchedLast(isHangar, cmds + more) &&
      NoTeardowns(cmds + more)
  {
    var all := cmds + more;
    forall i | 0 <= i < |all|
      ensures all[i].job in jobs[..n + 1]
    {
      if i < |cmds| {
        assert all[i] == cmds[i] && jobs[..n + 1] == jobs[..n] + [jobs[n]];
      } else {
        assert jobs[..n + 1][n] == jobs[n];
      }
    }
    forall i, j | 0 <= i < j < |all| && isHangar(all[i].job)
      ensures isHangar(all[j].job)
    {
      if i < |cmds| <= j {
        assert cmds[i].job in jobs[..n];
        var k :| 0 <= k < n && jobs[..n][k] == cmds[i].job;
        assert jobs[k] == jobs[..n][k];
      }
    }
  }

  ghost predicate NoDeletes(events: seq<Event>) {
    forall i :: 0 <= i < |events| ==> AllAre(events[i].changes, false)
  }

  lemma NothingToTearDown(isHangar: string -> bool, changes: seq<Change>)
    requires AllAre(changes, false)
    ensures OnlyChanges(Sort(changes, HangarLast(isHangar)), true) == []
  {
    PushDeletesAreGiven(isHangar, changes);
    SplitChangesExactly(changes, true);
    var s, none := OnlyChanges(Sort(changes, HangarLast(isHangar)), true), OnlyChanges(changes, true);
    assert forall ch :: ch in changes ==> !IsDelete(ch);
    assert forall ch :: multiset(none)[ch] == 0;
    assert multiset(none) == multiset{};
    assert |s| == |multiset(s)|;
  }

  lemma SweptAreUndefined(defs: Definitions, pending: seq<Event>, active: seq<string>)
    ensures var cmds := SweepCommands(defs, pending, active);
      AllTeardowns(cmds) && forall i :: 0 <= i < |cmds| ==>
        cmds[i].job in active && !DefinedOutside(defs, cmds[i].job, "")
  {
    var cmds := SweepCommands(defs, pending, active);
    forall i | 0 <= i < |cmds|
      ensures cmds[i].Teardown? && cmds[i].job in active && !DefinedOutside(defs, cmds[i].job, "")
    {
      SweepIsExact(defs, pending, active, cmds[i]);
    }
  }

  lemma DueAmongDeletes(defs: Definitions, items: seq<Item>, job: string)
    ensures Due(defs, Only(items, true), job) <==> Due(defs, items, job)
  {
    var deletes := Only(items, true);
    if Due(defs, deletes, job) {
      var i :| 0 <= i < |deletes| && Deletes(defs, deletes[i], job);
      OnlyIsExact(items, true, deletes[i]);
      var k :| 0 <= k < |items| && items[k] == deletes[i];
    }
    if Due(defs, items, job) {
      var i :| 0 <= i < |items| && Deletes(defs, items[i], job);
      OnlyIsExact(items, true, items[i]);
      var k :| 0 <= k < |deletes| && deletes[k] == items[i];
    }
  }

  /** The deletes drained from a queue give exactly the teardowns due in it. */
  lemma DrainedAreExact(defs: Definitions, deletes: seq<Event>, events: seq<Event>)
    requires IsPart(deletes, events, true)
    ensures var cmds := EventTeardowns(defs, deletes);
      AllTeardowns(cmds) && OnlyDue(defs, Flatten(events), cmds) && AllDue(defs, Flatten(events), cmds)
  {
    var cmds := EventTeardowns(defs, deletes);
    forall i | 0 <= i < |cmds|
      ensures cmds[i].Teardown? && Due(defs, Flatten(events), cmds[i].job)
    {
      PendingTeardownsAreExact(defs, deletes, cmds[i]);
      DueAmongDeletes(defs, Flatten(events), cmds[i].job);
    }
    forall job | Due(defs, Flatten(events), job)
      ensures Teardown(job) in cmds
    {
      DueAmongDeletes(defs, Flatten(events), job);
      PendingTeardownsAreExact(defs, deletes, Teardown(job));
    }
  }

  lemma {:induction false} FlattenConcat(a: seq<Event>, b: seq<Event>)
    ensures Flatten(a + b) == Flatten(a) + Flatten(b)
    decreases |b|
  {
    if b == [] {
      assert a + b == a;
    } else {
      var front, last := b[..|b| - 1], b[|b| - 1];
      assert b == front + [last] && a + b == a + front + [last];
      FlattenConcat(a, front);
      FlattenAppend(front, last);
      FlattenAppend(a + front, last);
    }
  }

  lemma {:induction false} NothingDueWithoutDeletes(defs: Definitions, events: seq<Event>, job: string)
    requires NoDeletes(events)
    ensures !Due(defs, Flatten(events), job)
  {
    if events != [] {
      var front, e := events[..|events| - 1], events[|events| - 1];
      NothingDueWithoutDeletes(defs, front, job);
      DueInEvent(defs, e.meta, e.changes, job);
      DueAppend(defs, Flatten(front), Items(e.meta, e.changes), job);
    }
  }

  /** Events without deletes make nothing due. */
  lemma OnlyArrivalsAreDue(defs: Definitions, kept: seq<Event>, arrivals: seq<Event>, cmds: seq<Command>)
    requires NoDeletes(kept) && OnlyDue(defs, Flatten(kept + arrivals), cmds)
    ensures OnlyDue(defs, Flatten(arrivals), cmds)
  {
    FlattenConcat(kept, arrivals);
    forall i | 0 <= i < |cmds| && cmds[i].Teardown?
      ensures Due(defs, Flatten(arrivals), cmds[i].job)
    {
      DueAppend(defs, Flatten(kept), Flatten(arrivals), cmds[i].job);
      NothingDueWithoutDeletes(defs, kept, cmds[i].job);
    }
  }

  ghost predicate AllTeardowns(cmds: seq<Command>) {
    forall i :: 0 <= i < |cmds| ==> cmds[i].Teardown?
  }

  lemma TeardownsComeFirst(torn: seq<Command>, cmds: seq<Command>)
    requires AllTeardowns(torn) && NoTeardowns(cmds)
    ensures TeardownsFirst(torn + cmds)
  {
  }

  lemma {:induction false} OnlyIsExact(items: seq<Item>, deletes: bool, item: Item)
    ensures item in Only(items, deletes) <==> item in items && IsDelete(item.change) == deletes
  {
    if items != [] {
      OnlyIsExact(items[..|items| - 1], deletes, item);
      assert items == items[..|items| - 1] + [items[|items| - 1]];
    }
  }

  /** Missing repository names and commits are looked up; the time is the time of recording. */
  method Complete(meta: Meta) returns (m: Meta)
    ensures Completes(meta, m)
  {
    var repo: string, commit: string, now: int := *, *, *;
    m := Meta(meta.repoPath, if meta.repo == "" then repo else meta.repo, if meta.commit == "" then commit
      else meta.commit,
      meta.prNumber, meta.targetId, now);
  }

  ghost function Count(items: seq<Item>, item: Item): nat {
    multiset(items)[item]
  }

  /** As multisets, what was recorded is what is pending and what was handed out. */
  ghost predicate Conserved(recorded: seq<Item>, pending: seq<Event>, handedOut: seq<Item>) {
    forall item :: Count(recorded, item) == Count(Flatten(pending), item) + Count(handedOut, item)
  }

  lemma ConservedAtFirst()
    ensures Conserved([], [], [])
  {
  }

  lemma CountAppend(a: seq<Item>, b: seq<Item>)
    ensures forall item :: Count(a + b, item) == Count(a, item) + Count(b, item)
  {
    assert multiset(a + b) == multiset(a) + multiset(b);
  }

  lemma ConservedByRecord(recorded: seq<Item>, pending: seq<Event>, handedOut: seq<Item>, e: Event)
    requires Conserved(recorded, pending, handedOut)
    ensures Conserved(recorded + Items(e.meta, e.changes), pending + [e], handedOut)
  {
    FlattenAppend(pending, e);
    CountAppend(recorded, Items(e.meta, e.changes));
    CountAppend(Flatten(pending), Items(e.meta, e.changes));
  }

  lemma ConservedBySplit(
    recorded: seq<Item>, pending: seq<Event>, handedOut: seq<Item>, out: seq<Event>, left: seq<Event>)
    requires Conserved(recorded, pending, handedOut) && IsPart(out, pending, true) && IsPart(left, pending, false)
    ensures Conserved(recorded, left, handedOut + Flatten(out))
  {
    SplitKeepsAll(Flatten(pending));
    assert forall item :: Count(Flatten(pending), item) == Count(Flatten(out), item) + Count(Flatten(left), item);
    CountAppend(handedOut, Flatten(out));
  }

  lemma ConservedByDrain(recorded: seq<Item>, pending: seq<Event>, handedOut: seq<Item>)
    requires Conserved(recorded, pending, handedOut)
    ensures Conserved(recorded, [], handedOut + Flatten(pending))
  {
    CountAppend(handedOut, Flatten(pending));
  }

  lemma Associates(a: seq<Command>, b: seq<Command>, c: seq<Command>)
    ensures a + b + c == a + (b + c)
  {
  }

  // ----- What a push does -----

  /** What nomad answers while one job is applied. */
  datatype Outcome = Outcome(valid: bool, batch: bool, runs: bool, typeChanged: bool, purged: bool, reruns: bool)

  /** The job was run in the end: at once, or after its old scheduler type was purged. */
  predicate Succeeds(job: string, o: Outcome) {
    o.valid && (o.runs || (job != "" && o.typeChanged && o.purged && o.reruns))
  }

  /** What one push meets: the state of each changed file, and nomad's answers for each ready job in turn. */
  datatype World = World(inspect: Change -> Readiness, nomad: nat -> Outcome)

  /** The commands for one job: it is validated, and run exactly if it is valid. */
  ghost predicate IsSegment(job: string, o: Outcome, seg: seq<Command>) {
    IsApplication(job, Succeeds(job, o), seg) && (Run(job) in seg <==> o.valid)
  }

  function Join(segs: seq<seq<Command>>): seq<Command> {
    if segs == [] then [] else Join(segs[..|segs| - 1]) + segs[|segs| - 1]
  }

  /** The jobs among the first n that were applied. */
  function Successes(jobs: seq<string>, nomad: nat -> Outcome, n: nat): seq<string>
    requires n <= |jobs|
  {
    if n == 0 then []
    else Successes(jobs, nomad, n - 1) + if Succeeds(jobs[n - 1], nomad(n - 1)) then [jobs[n - 1]] else []
  }

  ghost predicate AllSucceed(jobs: seq<string>, nomad: nat -> Outcome, n: int)
    requires n <= |jobs|
  {
    forall i: nat :: i < n ==> Succeeds(jobs[i], nomad(i))
  }

  ghost predicate AreSegments(jobs: seq<string>, nomad: nat -> Outcome, segs: seq<seq<Command>>)
    requires |segs| <= |jobs|
  {
    forall i: nat {:trigger IsSegment(jobs[i], nomad(i), segs[i])} :: i < |segs| ==>
      IsSegment(jobs[i], nomad(i), segs[i])
  }

  /** Each job has its segment, in order; only a failure that counts ends the list early. */
  ghost predicate AppliedInOrder(
    jobs: seq<string>, nomad: nat -> Outcome, failOnError: bool, failed: bool, segs: seq<seq<Command>>)
  {
    && |segs| <= |jobs| && AreSegments(jobs, nomad, segs)
    && (!failed ==> |segs| == |jobs|)
    && (failed ==> failOnError && segs != [] && !Succeeds(jobs[|segs| - 1], nomad(|segs| - 1)))
    && (failOnError ==> AllSucceed(jobs, nomad, |segs| - if failed then 1 else 0))
  }

  lemma JoinStep(segs: seq<seq<Command>>, seg: seq<Command>)
    ensures Join(segs + [seg]) == Join(segs) + seg
  {
    assert (segs + [seg])[..|segs|] == segs;
  }

  lemma SegmentsStep(jobs: seq<string>, nomad: nat -> Outcome, segs: seq<seq<Command>>, seg: seq<Command>)
    requires |segs| < |jobs| && AreSegments(jobs, nomad, segs) && IsSegment(jobs[|segs|], nomad(|segs|), seg)
    ensures AreSegments(jobs, nomad, segs + [seg])
  {
    var all := segs + [seg];
    forall i: nat | i < |all|
      ensures IsSegment(jobs[i], nomad(i), all[i])
    {
      if i < |segs| {
        assert all[i] == segs[i] && IsSegment(jobs[i], nomad(i), segs[i]);
      } else {
        assert all[i] == seg;
      }
    }
  }

  /** The first |segs| jobs have been applied by these commands. */
  ghost predicate InProgress(
    isHangar: string -> bool, jobs: seq<string>, nomad: nat -> Outcome, cmds: seq<Command>, segs: seq<seq<Command>>)
  {
    && |segs| <= |jobs| && AreSegments(jobs, nomad, segs) && cmds == Join(segs)
    && OnlyTouches(cmds, jobs[..|segs|]) && HangarTouchedLast(isHangar, cmds) && NoTeardowns(cmds)
  }

  lemma InProgressStarts(isHangar: string -> bool, jobs: seq<string>, nomad: nat -> Outcome)
    ensures InProgress(isHangar, jobs, nomad, [], [])
  {
  }

  lemma InProgressStep(
    isHangar: string -> bool, jobs: seq<string>, nomad: nat -> Outcome, cmds: seq<Command>, segs: seq<seq<Command>>,
    more: seq<Command>)
    requires InProgress(isHangar, jobs, nomad, cmds, segs) && |segs| < |jobs| && HangarComesLast(isHangar, jobs)
    requires IsSegment(jobs[|segs|], nomad(|segs|), more)
    ensures InProgress(isHangar, jobs, nomad, cmds + more, segs + [more])
  {
    var n := |segs|;
    ApplicationsStayOrdered(isHangar, jobs, n, cmds, more, Succeeds(jobs[n], nomad(n)));
    SegmentsStep(jobs, nomad, segs, more);
    JoinStep(segs, more);
  }

  lemma TouchedAreJobs(
    isHangar: string -> bool, jobs: seq<string>, nomad: nat -> Outcome, cmds: seq<Command>, segs: seq<seq<Command>>)
    requires InProgress(isHangar, jobs, nomad, cmds, segs)
    ensures OnlyTouches(cmds, jobs)
  {
    assert forall job :: job in jobs[..|segs|] ==> job in jobs;
  }

  /** What one event did: the ready changes, its teardowns, the commands for each ready job, and what it queued. */
  datatype Push = Push(ready: seq<Change>, torn: seq<Command>, segs: seq<seq<Command>>, queued: seq<Event>)

  function CommandsOf(p: Push): seq<Command> {
    p.torn + Join(p.segs)
  }

  function SortedDeletes(isHangar: string -> bool, changes: seq<Change>): seq<Change> {
    OnlyChanges(Sort(changes, HangarLast(isHangar)), true)
  }

  function ReadyOnes(isHangar: string -> bool, inspect: Change -> Readiness, changes: seq<Change>): seq<Change> {
    WithState(Sort(changes, HangarLast(isHangar)), inspect, Ready)
  }

  /** The same metadata but for names that were missing and the time. */
  ghost predicate Completes(meta: Meta, m: Meta) {
    && m.repoPath == meta.repoPath && m.prNumber == meta.prNumber && m.targetId == meta.targetId
    && (meta.repo != "" ==> m.repo == meta.repo) && (meta.commit != "" ==> m.commit == meta.commit)
  }

  /** Deletes that have to wait go back to the queue as one event. */
  ghost predicate QueuedBack(isHangar: string -> bool, w: World, event: Event, queued: seq<Event>) {
    var deletes := SortedDeletes(isHangar, event.changes);
    if MustWait(w.inspect, event.changes) && deletes != []
    then |queued| == 1 && queued[0].changes == deletes && Completes(event.meta, queued[0].meta)
    else queued == []
  }

  /** One event is carried out: teardowns unless something waits, then every ready job in turn. */
  ghost predicate PushOk(defs: Definitions, isHangar: string -> bool, w: World, event: Event, p: Push) {
    && p.ready == ReadyOnes(isHangar, w.inspect, event.changes)
    && p.torn == (if MustWait(w.inspect, event.changes) then []
                  else TeardownsFor(defs, event.meta.repoPath, Jobs(SortedDeletes(isHangar, event.changes))))
    && QueuedBack(isHangar, w, event, p.queued)
    && exists failed :: AppliedInOrder(Jobs(p.ready), w.nomad, true, failed, p.segs)
  }

  function AllCommands(pushes: seq<Push>): seq<Command> {
    if pushes == [] then [] else AllCommands(pushes[..|pushes| - 1]) + CommandsOf(pushes[|pushes| - 1])
  }

  function AllQueued(pushes: seq<Push>): seq<Event> {
    if pushes == [] then [] else AllQueued(pushes[..|pushes| - 1]) + pushes[|pushes| - 1].queued
  }

  /** Every event has its own part of the commands, in the order of the events. */
  ghost predicate PushesOk(
    defs: Definitions, isHangar: string -> bool, worlds: nat -> World, events: seq<Event>, pushes: seq<Push>)
  {
    && |pushes| == |events|
    && forall i: nat {:trigger PushOk(defs, isHangar, worlds(i), events[i], pushes[i])} :: i < |events| ==>
      PushOk(defs, isHangar, worlds(i), events[i], pushes[i])
  }

  lemma PushesStep(
    defs: Definitions, isHangar: string -> bool, worlds: nat -> World, done: seq<Event>, pushes: seq<Push>, e: Event,
    p: Push)
    requires PushesOk(defs, isHangar, worlds, done, pushes) && PushOk(defs, isHangar, worlds(|done|), e, p)
    ensures PushesOk(defs, isHangar, worlds, done + [e], pushes + [p])
    ensures AllCommands(pushes + [p]) == AllCommands(pushes) + CommandsOf(p)
    ensures AllQueued(pushes + [p]) == AllQueued(pushes) + p.queued
  {
    var events, all := done + [e], pushes + [p];
    forall i: nat | i < |events|
      ensures PushOk(defs, isHangar, worlds(i), events[i], all[i])
    {
      if i < |done| {
        assert PushOk(defs, isHangar, worlds(i), done[i], pushes[i]);
      }
    }
    assert all[..|pushes|] == pushes;
  }

  lemma {:induction false} SegmentIsJoined(segs: seq<seq<Command>>, i: nat, c: Command)
    requires i < |segs| && c in segs[i]
    ensures c in Join(segs)
  {
    if i < |segs| - 1 {
      assert segs[..|segs| - 1][i] == segs[i];
      SegmentIsJoined(segs[..|segs| - 1], i, c);
    }
  }

  lemma {:induction false} PushIsAmongCommands(pushes: seq<Push>, n: nat, c: Command)
    requires n < |pushes| && c in CommandsOf(pushes[n])
    ensures c in AllCommands(pushes)
  {
    if n < |pushes| - 1 {
      assert pushes[..|pushes| - 1][n] == pushes[n];
      PushIsAmongCommands(pushes[..|pushes| - 1], n, c);
    }
  }

  /** A ready change of a carried-out event is validated and run, unless a ready job before it, or its own,
      failed; the first ready one is validated in any case. */
  lemma ReadyChangesAreApplied(
    defs: Definitions, isHangar: string -> bool, w: World, event: Event, p: Push, i: nat)
    requires PushOk(defs, isHangar, w, event, p) && i < |p.ready|
    requires forall k: nat :: k < i ==> Succeeds(p.ready[k].job, w.nomad(k))
    ensures Validate(p.ready[i].job) in CommandsOf(p)
    ensures w.nomad(i).valid ==> Run(p.ready[i].job) in CommandsOf(p)
  {
    var jobs := Jobs(p.ready);
    var failed :| AppliedInOrder(jobs, w.nomad, true, failed, p.segs);
    assert i < |p.segs| by {
      assert failed ==> jobs[|p.segs| - 1] == p.ready[|p.segs| - 1].job;
    }
    assert jobs[i] == p.ready[i].job;
    assert IsSegment(jobs[i], w.nomad(i), p.segs[i]);
    assert p.segs[i][0] in p.segs[i];
    SegmentIsJoined(p.segs, i, Validate(jobs[i]));
    if w.nomad(i).valid {
      SegmentIsJoined(p.segs, i, Run(jobs[i]));
    }
  }

  /** Without failures every change whose file is there and whose image is ready is run. */
  lemma NoChangeIsLost(
    defs: Definitions, isHangar: string -> bool, worlds: nat -> World, events: seq<Event>, pushes: seq<Push>, n: nat,
    ch: Change)
    requires PushesOk(defs, isHangar, worlds, events, pushes) && n < |events| && ch in events[n].changes
    requires !IsDelete(ch) && worlds(n).inspect(ch) == Ready
    requires forall k: nat, job :: Succeeds(job, worlds(n).nomad(k))
    ensures Run(ch.job) in AllCommands(pushes)
  {
    var w, p := worlds(n), pushes[n];
    assert PushOk(defs, isHangar, w, events[n], p);
    SortKeepsElements(events[n].changes, HangarLast(isHangar));
    WithStateIsExact(Sort(events[n].changes, HangarLast(isHangar)), w.inspect, Ready);
    assert ch in p.ready;
    var i :| 0 <= i < |p.ready| && p.ready[i] == ch;
    assert Succeeds(ch.job, w.nomad(i));
    ReadyChangesAreApplied(defs, isHangar, w, events[n], p, i);
    PushIsAmongCommands(pushes, n, Run(ch.job));
  }

  lemma NothingToDo(defs: Definitions, isHangar: string -> bool, w: World, event: Event)
    requires event.changes == []
    ensures PushOk(defs, isHangar, w, event, Push([], [], [], []))
  {
    assert Sort(event.changes, HangarLast(isHangar)) == [];
    assert Jobs([]) == [];
    assert AppliedInOrder([], w.nomad, true, false, []);
  }

  /** The events in `done` are carried out; without deletes among them nothing is torn down or queued. */
  ghost predicate CarriedOut(
    defs: Definitions, isHangar: string -> bool, worlds: nat -> World, done: seq<Event>, pushes: seq<Push>)
  {
    && PushesOk(defs, isHangar, worlds, done, pushes) && OnlyDue(defs, Flatten(done), AllCommands(pushes))
    && (NoDeletes(done) ==> NoTeardowns(AllCommands(pushes)) && AllQueued(pushes) == [])
  }

  lemma CarriedOutStep(
    defs: Definitions, isHangar: string -> bool, worlds: nat -> World, done: seq<Event>, pushes: seq<Push>, e: Event,
    p: Push)
    requires CarriedOut(defs, isHangar, worlds, done, pushes) && PushOk(defs, isHangar, worlds(|done|), e, p)
    requires OnlyDue(defs, Items(e.meta, e.changes), CommandsOf(p))
    requires AllAre(e.changes, false) ==> NoTeardowns(CommandsOf(p)) && p.queued == []
    ensures CarriedOut(defs, isHangar, worlds, done + [e], pushes + [p])
    ensures AllCommands(pushes + [p]) == AllCommands(pushes) + CommandsOf(p)
    ensures AllQueued(pushes + [p]) == AllQueued(pushes) + p.queued
  {
    FlattenAppend(done, e);
    OnlyDueAppend(defs, Flatten(done), Items(e.meta, e.changes), AllCommands(pushes), CommandsOf(p));
    PushesStep(defs, isHangar, worlds, done, pushes, e, p);
    NoDeletesStep(done, e);
  }

  lemma NoDeletesStep(done: seq<Event>, e: Event)
    ensures NoDeletes(done + [e]) ==> NoDeletes(done) && AllAre(e.changes, false)
  {
    if NoDeletes(done + [e]) {
      assert forall i :: 0 <= i < |done| ==> done[i] == (done + [e])[i];
      assert (done + [e])[|done|] == e;
    }
  }

  lemma NothingCarriedOut(defs: Definitions, isHangar: string -> bool, worlds: nat -> World)
    ensures CarriedOut(defs, isHangar, worlds, [], [])
  {
  }

  lemma QueueAssociates(a: seq<Event>, b: seq<Event>, c: seq<Event>)
    ensures a + b + c == a + (b + c)
  {
  }

  /** A push under completed metadata carries its event out. */
  lemma PushedEvent(
    defs: Definitions, isHangar: string -> bool, w: World, event: Event, meta: Meta, p: Push, failed: bool)
    requires Completes(event.meta, meta) && p.ready == ReadyOnes(isHangar, w.inspect, event.changes)
    requires var deletes, wait := SortedDeletes(isHangar, event.changes), MustWait(w.inspect, event.changes);
      && p.torn == (if wait then [] else TeardownsFor(defs, meta.repoPath, Jobs(deletes)))
      && p.queued == (if !wait || deletes == [] then [] else [Event(meta, deletes)])
    requires AppliedInOrder(Jobs(p.ready), w.nomad, true, failed, p.segs)
    requires OnlyDue(defs, Items(meta, event.changes), p.torn) && NoTeardowns(Join(p.segs))
    ensures PushOk(defs, isHangar, w, event, p)
    ensures OnlyDue(defs, Items(event.meta, event.changes), CommandsOf(p))
    ensures p.torn == [] ==> NoTeardowns(CommandsOf(p))
  {
    var items := Items(event.meta, event.changes);
    SameRepoSameDue(defs, meta, event.meta, event.changes, p.torn);
    OnlyDueAppend(defs, items, [], p.torn, Join(p.segs));
    assert items + [] == items;
  }

  // ----- The daemon -----

  class Daemon {
    var defs: Definitions              // as on disk now
    var pending: seq<Event>
    var commands: seq<Command>
    ghost var recorded: seq<Item>      // everything ever recorded
    ghost var handedOut: seq<Item>     // everything ever drained

    ghost predicate Valid()
      reads this
    {
      Conserved(recorded, pending, handedOut)
    }

    constructor (defs: Definitions)
      ensures Valid() && pending == [] && commands == [] && this.defs == defs
    {
      ConservedAtFirst();
      this.defs := defs;
      pending, commands, recorded, handedOut := [], [], [], [];
    }

    method RecordPending(meta: Meta, changes: seq<Change>)
      requires Valid()
      modifies this`pending, this`recorded
      ensures Valid() && pending == old(pending) + [Event(meta, changes)]
      ensures recorded == old(recorded) + Items(meta, changes)
    {
      ConservedByRecord(recorded, pending, handedOut, Event(meta, changes));
      pending := pending + [Event(meta, changes)];
      recorded := recorded + Items(meta, changes);
    }

    method DrainPending() returns (out: seq<Event>)
      requires Valid()
      modifies this`pending, this`handedOut
      ensures Valid() && pending == [] && out == old(pending)
      ensures handedOut == old(handedOut) + Flatten(out)
    {
      out := pending;
      ConservedByDrain(recorded, pending, handedOut);
      pending := [];
      handedOut := handedOut + Flatten(out);
    }

    /** Takes the deletes out and leaves the rest: nothing is lost, duplicated, reordered or relabelled. */
    method DrainDeletes() returns (out: seq<Event>)
      requires Valid()
      modifies this`pending, this`handedOut
      ensures Valid()
      ensures Flatten(out) == Only(old(Flatten(pending)), true)
      ensures Flatten(pending) == Only(old(Flatten(pending)), false)
      ensures IsPart(out, old(pending), true) && IsPart(pending, old(pending), false)
      ensures handedOut == old(handedOut) + Flatten(out)
    {
      var remaining;
      out, remaining := SplitEvents(pending);
      ConservedBySplit(recorded, pending, handedOut, out, remaining);
      pending := remaining;
      handedOut := handedOut + Flatten(out);
    }

    /** Stops a deleted job unless another candidate repository still defines it. */
    method StopDeletedJob(repoPath: string, job: string)
      modifies this`commands
      ensures commands == old(commands) + TeardownsFor(defs, repoPath, [job])
    {
      if !DefinedOutside(defs, job, repoPath) {
        commands := commands + [Teardown(job)];
      }
    }

    method StopDeletedJobs(repoPath: string, jobs: seq<string>)
      modifies this`commands
      ensures commands == old(commands) + TeardownsFor(defs, repoPath, jobs)
    {
      for n := 0 to |jobs|
        invariant commands == old(commands) + TeardownsFor(defs, repoPath, jobs[..n])
      {
        assert jobs[..n + 1][..n] == jobs[..n];
        StopDeletedJob(repoPath, jobs[n]);
      }
      assert jobs[..|jobs|] == jobs;
    }

    /** Validates a job and runs it; batch jobs are purged before, type changes are purged and run again. */
    method ApplyJob(job: string, o: Outcome) returns (ok: bool, ghost cmds: seq<Command>)
      modifies this`commands
      ensures commands == old(commands) + cmds && ok == Succeeds(job, o) && IsSegment(job, o, cmds)
    {
      cmds := [Validate(job)];
      ok := false;
      commands := commands + [Validate(job)];
      if o.valid {
        if job != "" && o.batch {
          commands, cmds := commands + [Purge(job)], cmds + [Purge(job)];
        }
        commands, cmds := commands + [Run(job)], cmds + [Run(job)];
        ok := o.runs;
        if !ok && job != "" && o.typeChanged {
          commands, cmds := commands + [Purge(job)], cmds + [Purge(job)];
          if o.purged {
            commands, cmds := commands + [Run(job)], cmds + [Run(job)];
            ok := o.reruns;
          }
        }
      }
    }

    method ApplyReady(isHangar: string -> bool, jobs: seq<string>, nomad: nat -> Outcome, failOnError: bool)
      returns (applied: seq<string>, failed: bool, ghost cmds: seq<Command>, ghost segs: seq<seq<Command>>)
      requires HangarComesLast(isHangar, jobs)
      modifies this`commands
      ensures commands == old(commands) + cmds && cmds == Join(segs)
      ensures OnlyTouches(cmds, jobs) && HangarTouchedLast(isHangar, cmds) && NoTeardowns(cmds)
      ensures AppliedInOrder(jobs, nomad, failOnError, failed, segs)
      ensures applied == Successes(jobs, nomad, |segs|)
    {
      applied, failed, cmds, segs := [], false, [], [];
      InProgressStarts(isHangar, jobs, nomad);
      for n := 0 to |jobs|
        invariant !failed && commands == old(commands) + cmds && |segs| == n
        invariant InProgress(isHangar, jobs, nomad, cmds, segs)
        invariant failOnError ==> AllSucceed(jobs, nomad, n)
        invariant applied == Successes(jobs, nomad, n)
      {
        ghost var more;
        var ok;
        ok, more := ApplyJob(jobs[n], nomad(n));
        InProgressStep(isHangar, jobs, nomad, cmds, segs, more);
        Associates(old(commands), cmds, more);
        cmds, segs := cmds + more, segs + [more];
        if ok {
          applied := applied + [jobs[n]];
        } else if failOnError {
          failed := true;
          break;
        }
      }
      TouchedAreJobs(isHangar, jobs, nomad, cmds, segs);
    }

    method QueueOrTearDown(meta: Meta, deletes: seq<Change>, wait: bool) returns (ghost torn: seq<Command>)
      requires Valid()
      modifies this`commands, this`pending, this`recorded
      ensures Valid() && commands == old(commands) + torn
      ensures torn == if wait then [] else TeardownsFor(defs, meta.repoPath, Jobs(deletes))
      ensures pending == old(pending) + if wait && deletes != [] then [Event(meta, deletes)] else []
      ensures recorded == old(recorded) + if wait then Items(meta, deletes) else []
      ensures deletes == [] ==> torn == [] && pending == old(pending)
    {
      torn := [];
      if deletes != [] {
        if wait {
          RecordPending(meta, deletes);
        } else {
          torn := TeardownsFor(defs, meta.repoPath, Jobs(deletes));
          StopDeletedJobs(meta.repoPath, Jobs(deletes));
        }
      }
    }

    /** A push: deleted jobs are torn down before any job is applied, unless some job has to wait. Then
        nothing is torn down and every delete goes back to the queue. */
    method ApplyChanges(isHangar: string -> bool, w: World, meta: Meta, changes: seq<Change>, failOnError: bool)
      returns (applied: seq<string>, deferred: seq<string>, failed: bool, ghost p: Push)
      requires Valid()
      modifies this`commands, this`pending, this`recorded
      ensures Valid() && commands == old(commands) + p.torn + Join(p.segs)
      ensures p.ready == ReadyOnes(isHangar, w.inspect, changes) && AreReadyOnes(p.ready, w.inspect, changes)
      ensures deferred == [] <==> !MustWait(w.inspect, changes)
      ensures var deletes := SortedDeletes(isHangar, changes);
        && p.torn == (if deferred == [] then TeardownsFor(defs, meta.repoPath, Jobs(deletes)) else [])
        && p.queued == (if deferred == [] || deletes == [] then [] else [Event(meta, deletes)])
        && recorded == old(recorded) + (if deferred == [] then [] else Items(meta, deletes))
      ensures pending == old(pending) + p.queued
      ensures AllAre(changes, false) ==> p.torn == [] && p.queued == []
      ensures OnlyDue(defs, Items(meta, changes), p.torn)
      ensures var cmds := Join(p.segs);
        NoTeardowns(cmds) && HangarTouchedLast(isHangar, cmds) && OnlyTouches(cmds, Jobs(p.ready))
      ensures AppliedInOrder(Jobs(p.ready), w.nomad, failOnError, failed, p.segs)
      ensures applied == Successes(Jobs(p.ready), w.nomad, |p.segs|)
    {
      var go, deletes;
      go, deferred, deletes := PlanPush(isHangar, w.inspect, changes);
      ghost var torn := QueueOrTearDown(meta, deletes, deferred != []);
      PushTeardownsAreDue(defs, isHangar, meta, changes);
      ghost var cmds, segs;
      applied, failed, cmds, segs := ApplyReady(isHangar, Jobs(go), w.nomad, failOnError);
      p := Push(go, torn, segs, if deferred == [] || deletes == [] then [] else [Event(meta, deletes)]);
    }

    /** Stops running jobs that no repository defines and no pending change names. */
    method SweepOrphans(listed: bool, active: seq<string>)
      modifies this`commands
      ensures commands == old(commands) + SweepCommands(defs, pending, if listed then active else [])
    {
      var known := DefinedJobs(defs);
      if known == {} || !listed {
        return;
      }
      known := known + PendingJobs(pending);
      for n := 0 to |active|
        invariant commands == old(commands) + Orphans(known, active[..n])
      {
        assert active[..n + 1][..n] == active[..n];
        if active[n] !in known {
          OrphanIsUndefined(defs, active[n]);
          StopDeletedJob("", active[n]);
          assert TeardownsFor(defs, "", [active[n]]) == [Teardown(active[n])];
        }
      }
      assert active[..|active|] == active;
    }

    /** Tears down what drained events delete. */
    method ExecuteTeardowns(events: seq<Event>)
      modifies this`commands
      ensures commands == old(commands) + EventTeardowns(defs, events)
    {
      for n := 0 to |events|
        invariant commands == old(commands) + EventTeardowns(defs, events[..n])
      {
        assert events[..n + 1][..n] == events[..n];
        var deletes, _ := SplitChanges(events[n].changes);
        StopDeletedJobs(events[n].meta.repoPath, Jobs(deletes));
      }
      assert events[..|events|] == events;
    }

    /** An event is carried out, and tears down only what is due in it. */
    method ApplyEvent(isHangar: string -> bool, w: World, event: Event) returns (ghost p: Push)
      requires Valid()
      modifies this`commands, this`pending, this`recorded
      ensures Valid() && commands == old(commands) + CommandsOf(p) && pending == old(pending) + p.queued
      ensures PushOk(defs, isHangar, w, event, p)
      ensures OnlyDue(defs, Items(event.meta, event.changes), CommandsOf(p))
      ensures AllAre(event.changes, false) ==> NoTeardowns(CommandsOf(p)) && p.queued == []
    {
      if event.changes == [] {
        p := Push([], [], [], []);
        NothingToDo(defs, isHangar, w, event);
        return;
      }
      var meta := Complete(event.meta);
      var applied, deferred, failed;
      ghost var before := commands;
      applied, deferred, failed, p := ApplyChanges(isHangar, w, meta, event.changes, true);
      Associates(before, p.torn, Join(p.segs));
      PushedEvent(defs, isHangar, w, event, meta, p, failed);
    }

    /** Since `before` was issued and `queue` was left, these events were carried out. */
    ghost predicate Since(
      before: seq<Command>, queue: seq<Event>, isHangar: string -> bool, worlds: nat -> World, done: seq<Event>,
      pushes: seq<Push>)
      reads this
    {
      && commands == before + AllCommands(pushes) && pending == queue + AllQueued(pushes)
      && CarriedOut(defs, isHangar, worlds, done, pushes)
    }

    method ApplyNext(
      isHangar: string -> bool, w: World, e: Event, ghost worlds: nat -> World, ghost done: seq<Event>,
      ghost pushes: seq<Push>, ghost before: seq<Command>, ghost queue: seq<Event>)
      returns (ghost p: Push)
      requires Valid() && Since(before, queue, isHangar, worlds, done, pushes) && w == worlds(|done|)
      modifies this`commands, this`pending, this`recorded
      ensures Valid() && Since(before, queue, isHangar, worlds, done + [e], pushes + [p])
    {
      p := ApplyEvent(isHangar, w, e);
      CarriedOutStep(defs, isHangar, worlds, done, pushes, e, p);
      Associates(before, AllCommands(pushes), CommandsOf(p));
      QueueAssociates(queue, AllQueued(pushes), p.queued);
    }

    method ApplyEvents(isHangar: string -> bool, worlds: nat -> World, events: seq<Event>)
      returns (ghost pushes: seq<Push>)
      requires Valid()
      modifies this`commands, this`pending, this`recorded
      ensures Valid() && commands == old(commands) + AllCommands(pushes) && pending == old(pending) + AllQueued(pushes)
      ensures CarriedOut(defs, isHangar, worlds, events, pushes)
    {
      pushes := [];
      ghost var done, before, queue := [], commands, pending;
      NothingCarriedOut(defs, isHangar, worlds);
      assert before + [] == before && queue + [] == queue;
      var n := 0;
      while n < |events|
        invariant 0 <= n <= |events| && done == events[..n] && |done| == n
        invariant Valid() && Since(before, queue, isHangar, worlds, done, pushes)
      {
        ghost var p := ApplyNext(isHangar, worlds(n), events[n], worlds, done, pushes, before, queue);
        pushes, done := pushes + [p], done + [events[n]];
        n := n + 1;
      }
      assert done == events;
    }

    /** Drains the pending deletes and carries out exactly those that are due. */
    method TearDownPending() returns (ghost torn: seq<Command>)
      requires Valid()
      modifies this`commands, this`pending, this`handedOut
      ensures Valid() && commands == old(commands) + torn && AllTeardowns(torn)
      ensures IsPart(pending, old(pending), false) && NoDeletes(pending)
      ensures OnlyDue(defs, Flatten(old(pending)), torn) && AllDue(defs, Flatten(old(pending)), torn)
    {
      var deletes := DrainDeletes();
      ExecuteTeardowns(deletes);
      torn := EventTeardowns(defs, deletes);
      DrainedAreExact(defs, deletes, old(pending));
    }

    method RecordAll(arrivals: seq<Event>)
      requires Valid()
      modifies this`pending, this`recorded
      ensures Valid() && pending == old(pending) + arrivals
    {
      for n := 0 to |arrivals|
        invariant Valid() && pending == old(pending) + arrivals[..n]
      {
        RecordPending(arrivals[n].meta, arrivals[n].changes);
      }
      assert arrivals[..|arrivals|] == arrivals;
    }

    /** Drains the queue and carries out every event of it, in order. */
    method ReconcilePending(isHangar: string -> bool, worlds: nat -> World) returns (ghost pushes: seq<Push>)
      requires Valid()
      modifies this`commands, this`pending, this`recorded, this`handedOut
      ensures Valid() && commands == old(commands) + AllCommands(pushes) && pending == AllQueued(pushes)
      ensures PushesOk(defs, isHangar, worlds, old(pending), pushes)
      ensures OnlyDue(defs, Flatten(old(pending)), AllCommands(pushes))
      ensures NoDeletes(old(pending)) ==> NoTeardowns(AllCommands(pushes)) && pending == []
    {
      var events := DrainPending();
      pushes := ApplyEvents(isHangar, worlds, events);
    }

    method TearDownPhase(listed: bool, active: seq<string>)
      returns (ghost torn: seq<Command>, ghost swept: seq<Command>)
      requires Valid()
      modifies this`commands, this`pending, this`handedOut
      ensures Valid() && commands == old(commands) + torn + swept
      ensures IsPart(pending, old(pending), false) && NoDeletes(pending)
      ensures OnlyDue(defs, Flatten(old(pending)), torn) && AllDue(defs, Flatten(old(pending)), torn)
      ensures AllTeardowns(torn) && AllTeardowns(swept)
      ensures forall i :: 0 <= i < |swept| ==> swept[i].job in active && !DefinedOutside(defs, swept[i].job, "")
      ensures swept == SweepCommands(defs, pending, if listed then active else [])
    {
      torn := TearDownPending();
      swept := SweepCommands(defs, pending, if listed then active else []);
      SweptAreUndefined(defs, pending, if listed then active else []);
      SweepOrphans(listed, active);
    }

    method ApplyPhase(isHangar: string -> bool, worlds: nat -> World, arrivals: seq<Event>)
      returns (ghost pushes: seq<Push>)
      requires Valid() && NoDeletes(pending)
      modifies this`commands, this`pending, this`recorded, this`handedOut
      ensures Valid() && commands == old(commands) + AllCommands(pushes) && pending == AllQueued(pushes)
      ensures PushesOk(defs, isHangar, worlds, old(pending) + arrivals, pushes)
      ensures OnlyDue(defs, Flatten(arrivals), AllCommands(pushes))
      ensures NoDeletes(arrivals) ==> NoTeardowns(AllCommands(pushes)) && pending == []
    {
      ghost var kept := pending;
      RecordAll(arrivals);
      pushes := ReconcilePending(isHangar, worlds);
      OnlyArrivalsAreDue(defs, kept, arrivals, AllCommands(pushes));
    }

    /** One debounced cycle. `arrivals` are recorded by others between its two drains, and `worlds` is what
        each event then meets. Every event is carried out in turn; without deletes among the arrivals, no
        teardown follows an application and the queue ends empty. */
    method ReconcileCycle(
      isHangar: string -> bool, worlds: nat -> World, listed: bool, active: seq<string>, arrivals: seq<Event>)
      returns (ghost torn: seq<Command>, ghost swept: seq<Command>, ghost kept: seq<Event>, ghost pushes: seq<Push>)
      requires Valid()
      modifies this`commands, this`pending, this`recorded, this`handedOut
      ensures Valid() && commands == old(commands) + torn + swept + AllCommands(pushes) && pending == AllQueued(pushes)
      ensures OnlyDue(defs, Flatten(old(pending)), torn) && AllDue(defs, Flatten(old(pending)), torn)
      ensures AllTeardowns(torn) && AllTeardowns(swept)
      ensures forall i :: 0 <= i < |swept| ==> swept[i].job in active && !DefinedOutside(defs, swept[i].job, "")
      ensures swept == SweepCommands(defs, kept, if listed then active else [])
      ensures IsPart(kept, old(pending), false) && PushesOk(defs, isHangar, worlds, kept + arrivals, pushes)
      ensures OnlyDue(defs, Flatten(arrivals), AllCommands(pushes))
      ensures NoDeletes(arrivals) ==>
        TeardownsFirst(torn + swept + AllCommands(pushes)) && NoTeardowns(AllCommands(pushes)) && pending == []
    {
      torn, swept := TearDownPhase(listed, active);
      kept := pending;
      pushes := ApplyPhase(isHangar, worlds, arrivals);
      if NoDeletes(arrivals) {
        TeardownsComeFirst(torn + swept, AllCommands(pushes));
      }
    }
  }
}
