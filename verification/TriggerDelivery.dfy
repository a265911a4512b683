/** The fire protocol over the trigger table (services/haro/server.go): concurrent requests claim
    rows, dispatch them one by one and put one-shot rows back when a dispatch fails, while other
    requests create and cancel triggers. Claims are atomic, as both implementations are. */
module TriggerDelivery {
  import opened GoStrings
  import opened Triggers

  type Proc = nat

  datatype Hold = Hold(row: Row, failed: bool)

  /** Where a trigger is: in the table, in one request's hands, dispatched, or dropped. */
  datatype Place = Stored | HeldBy(proc: Proc) | Dispatched | Dropped

  datatype State = State(
    table: Table,
    held: map<Proc, map<string, Hold>>,
    created: map<string, Row>,        // auxiliary: every trigger as first stored
    place: map<string, Place>,        // auxiliary
    fired: seq<string>)               // one-shot triggers dispatched successfully, in order

  datatype Step =
    | Create(row: Row, now: int)
    | Cancel(id: string)
    | Claim(proc: Proc, filter: Filter)
    | DispatchOk(proc: Proc, id: string)
    | DispatchFailed(proc: Proc, id: string)
    | Reinsert(proc: Proc, id: string, ok: bool, now: int)

  function Init(): State {
    State(map[], map[], map[], map[], [])
  }

  predicate Holds(s: State, p: Proc, id: string) {
    p in s.held && id in s.held[p]
  }

  /** IDs are generated, so a created trigger's ID was never used before. */
  predicate Enabled(s: State, step: Step) {
    match step
    case Create(row, now) => row.id !in s.place && now != 0
    case Cancel(id) => id in s.table
    case Claim(p, f) => p !in s.held
    case DispatchOk(p, id) => Holds(s, p, id) && !s.held[p][id].failed
    case DispatchFailed(p, id) => Holds(s, p, id) && !s.held[p][id].failed
    case Reinsert(p, id, ok, now) => Holds(s, p, id) && s.held[p][id].failed && now != 0
  }

  function ClaimedBy(table: Table, f: Filter): map<string, Hold> {
    map id | id in table && Matches(table[id], f) :: Hold(Claimed(table[id]), false)
  }

  function PlacesAfterClaim(table: Table, f: Filter, p: Proc, place: map<string, Place>): map<string, Place> {
    map id | id in place ::
      if id in table && Matches(table[id], f) && !table[id].persistent then HeldBy(p) else place[id]
  }

  function LetGo(held: map<Proc, map<string, Hold>>, p: Proc, id: string): map<Proc, map<string, Hold>>
    requires p in held
  {
    held[p := held[p] - {id}]
  }

  function Apply(lower: string -> string, s: State, step: Step): State
    requires Enabled(s, step)
  {
    match step
    case Create(t, now) =>
      var row := Inserted(lower, now, t);
      s.(table := s.table[row.id := row], created := s.created[row.id := row], place := s.place[row.id := Stored])
    case Cancel(id) => s.(table := s.table - {id}, place := s.place[id := Dropped])
    case Claim(p, f) =>
      s.(table := Remaining(s.table, f), held := s.held[p := ClaimedBy(s.table, f)],
         place := PlacesAfterClaim(s.table, f, p, s.place))
    case DispatchOk(p, id) =>
      var s1 := s.(held := LetGo(s.held, p, id));
      if s.held[p][id].row.persistent then s1
      else s1.(place := s.place[id := Dispatched], fired := s.fired + [id])
    case DispatchFailed(p, id) =>
      if s.held[p][id].row.persistent then s.(held := LetGo(s.held, p, id))
      else s.(held := s.held[p := s.held[p][id := s.held[p][id].(failed := true)]])
    case Reinsert(p, id, ok, now) =>
      var s1 := s.(held := LetGo(s.held, p, id));
      if ok && id !in s.table
      then s1.(table := s.table[id := Inserted(lower, now, s.held[p][id].row)], place := s.place[id := Stored])
      else s1.(place := s.place[id := Dropped])
  }

  // ----- The invariant -----

  /** The table holds triggers exactly as they were first stored. */
  ghost predicate TableOk(table: Table, created: map<string, Row>, place: map<string, Place>) {
    && created.Keys == place.Keys
    && (forall id :: id in table ==> id in place && place[id] == Stored && table[id] == created[id])
  }

  /** Created rows are in the form insertion gives them. */
  ghost predicate CreatedOk(lower: string -> string, created: map<string, Row>) {
    forall id :: id in created ==> created[id].id == id && created[id].createdAt != 0 && IsTier(created[id].effort)
  }

  ghost predicate HoldOk(created: map<string, Row>, place: map<string, Place>, p: Proc, id: string, h: Hold) {
    && id in created && id in place && h.row == Claimed(created[id])
    && (!h.row.persistent ==> place[id] == HeldBy(p))
    && (h.failed ==> !h.row.persistent)
  }

  /** A one-shot trigger in a request's hands is in nobody else's and not in the table. */
  ghost predicate HeldOk(held: map<Proc, map<string, Hold>>, created: map<string, Row>, place: map<string, Place>) {
    forall p, id :: p in held && id in held[p] ==> HoldOk(created, place, p, id, held[p][id])
  }

  ghost predicate FiredOk(fired: seq<string>, place: map<string, Place>) {
    && (forall k :: 0 <= k < |fired| ==> fired[k] in place && place[fired[k]] == Dispatched)
    && (forall i, j :: 0 <= i < j < |fired| ==> fired[i] != fired[j])
  }

  ghost predicate Inv(lower: string -> string, s: State) {
    && TableOk(s.table, s.created, s.place)
    && CreatedOk(lower, s.created)
    && HeldOk(s.held, s.created, s.place)
    && FiredOk(s.fired, s.place)
  }

  lemma InvAfterCreate(lower: string -> string, s: State, t: Row, now: int)
    requires LowersTiers(lower) && Inv(lower, s) && Enabled(s, Create(t, now))
    ensures Inv(lower, Apply(lower, s, Create(t, now)))
  {
    RestoredIff(lower, now, Inserted(lower, now, t));
  }

  lemma InvAfterClaim(lower: string -> string, s: State, p: Proc, f: Filter)
    requires Inv(lower, s) && Enabled(s, Claim(p, f))
    ensures Inv(lower, Apply(lower, s, Claim(p, f)))
  {
    var s' := Apply(lower, s, Claim(p, f));
    assert s'.place.Keys == s.place.Keys;
    assert TableOk(s'.table, s'.created, s'.place);
    assert HeldOk(s'.held, s'.created, s'.place);
  }

  /** A request lets go of a one-shot trigger, which moves to another place. */
  lemma HeldAfterLetGo(
    held: map<Proc, map<string, Hold>>, created: map<string, Row>, place: map<string, Place>, p: Proc, id: string,
    to: Place)
    requires HeldOk(held, created, place) && p in held && id in held[p]
    ensures HeldOk(LetGo(held, p, id), created, place)
    ensures !held[p][id].row.persistent ==> HeldOk(LetGo(held, p, id), created, place[id := to])
  {
    var held' := LetGo(held, p, id);
    assert HoldOk(created, place, p, id, held[p][id]);
    forall q, i | q in held' && i in held'[q]
      ensures HoldOk(created, place, q, i, held'[q][i])
      ensures !held[p][id].row.persistent ==> HoldOk(created, place[id := to], q, i, held'[q][i])
    {
      assert q in held && i in held[q] && held'[q][i] == held[q][i];
      assert HoldOk(created, place, q, i, held[q][i]);
    }
  }

  lemma InvAfterDispatchOk(lower: string -> string, s: State, p: Proc, id: string)
    requires Inv(lower, s) && Enabled(s, DispatchOk(p, id))
    ensures Inv(lower, Apply(lower, s, DispatchOk(p, id)))
  {
    assert HoldOk(s.created, s.place, p, id, s.held[p][id]);
    HeldAfterLetGo(s.held, s.created, s.place, p, id, Dispatched);
  }

  lemma InvAfterDispatchFailed(lower: string -> string, s: State, p: Proc, id: string)
    requires Inv(lower, s) && Enabled(s, DispatchFailed(p, id))
    ensures Inv(lower, Apply(lower, s, DispatchFailed(p, id)))
  {
    assert HoldOk(s.created, s.place, p, id, s.held[p][id]);
    HeldAfterLetGo(s.held, s.created, s.place, p, id, Dropped);
    var failed := s.held[p := s.held[p][id := s.held[p][id].(failed := true)]];
    if !s.held[p][id].row.persistent {
      forall q, i | q in failed && i in failed[q]
        ensures HoldOk(s.created, s.place, q, i, failed[q][i])
      {
        assert HoldOk(s.created, s.place, q, i, s.held[q][i]);
      }
    }
  }

  lemma InvAfterReinsert(lower: string -> string, s: State, p: Proc, id: string, ok: bool, now: int)
    requires LowersTiers(lower) && Inv(lower, s) && Enabled(s, Reinsert(p, id, ok, now))
    ensures Inv(lower, Apply(lower, s, Reinsert(p, id, ok, now)))
  {
    assert HoldOk(s.created, s.place, p, id, s.held[p][id]);
    HeldAfterLetGo(s.held, s.created, s.place, p, id, Stored);
    HeldAfterLetGo(s.held, s.created, s.place, p, id, Dropped);
    RestoredIff(lower, now, s.created[id]);
  }

  lemma {:induction false} InvKept(lower: string -> string, s: State, step: Step)
    requires LowersTiers(lower) && Inv(lower, s) && Enabled(s, step)
    ensures Inv(lower, Apply(lower, s, step))
  {
    match step {
      case Create(t, now) => InvAfterCreate(lower, s, t, now);
      case Cancel(id) =>
      case Claim(p, f) => InvAfterClaim(lower, s, p, f);
      case DispatchOk(p, id) => InvAfterDispatchOk(lower, s, p, id);
      case DispatchFailed(p, id) => InvAfterDispatchFailed(lower, s, p, id);
      case Reinsert(p, id, ok, now) => InvAfterReinsert(lower, s, p, id, ok, now);
    }
  }

  // ----- Runs -----

  ghost predicate IsRun(lower: string -> string, states: seq<State>, steps: seq<Step>) {
    && |states| == |steps| + 1 && states[0] == Init()
    && forall i :: 0 <= i < |steps| ==>
      Enabled(states[i], steps[i]) && states[i + 1] == Apply(lower, states[i], steps[i])
  }

  lemma {:induction false} RunKeepsInv(lower: string -> string, states: seq<State>, steps: seq<Step>, n: nat)
    requires LowersTiers(lower) && IsRun(lower, states, steps) && n <= |steps|
    ensures Inv(lower, states[n])
  {
    if n > 0 {
      RunKeepsInv(lower, states, steps, n - 1);
      InvKept(lower, states[n - 1], steps[n - 1]);
    }
  }

  /** In every run no one-shot trigger is dispatched successfully twice, none is both fired and still
      stored or held, and whatever is stored, after any number of failed dispatches, is the row as created. */
  lemma {:induction false} OneShotsFireOnce(lower: string -> string, states: seq<State>, steps: seq<Step>, n: nat)
    requires LowersTiers(lower) && IsRun(lower, states, steps) && n <= |steps|
    ensures var s := states[n];
            && (forall i, j :: 0 <= i < j < |s.fired| ==> s.fired[i] != s.fired[j])
            && (forall k :: 0 <= k < |s.fired| ==> s.fired[k] !in s.table)
            && (forall p, id :: p in s.held && id in s.held[p] && id in s.fired ==> s.held[p][id].row.persistent)
            && (forall id :: id in s.table ==> id in s.created && s.table[id] == s.created[id])
  {
    RunKeepsInv(lower, states, steps, n);
    var s := states[n];
    forall p, id | p in s.held && id in s.held[p] && id in s.fired
      ensures s.held[p][id].row.persistent
    {
      assert HoldOk(s.created, s.place, p, id, s.held[p][id]);
      var k :| 0 <= k < |s.fired| && s.fired[k] == id;
    }
  }

  /** A re-insertion that reaches the database never meets its own ID there, and it puts the
      trigger back as it was. */
  lemma {:induction false} ReinsertRestores(
    lower: string -> string, states: seq<State>, steps: seq<Step>, n: nat, p: Proc, id: string, now: int)
    requires LowersTiers(lower) && IsRun(lower, states, steps) && n <= |steps|
    requires Enabled(states[n], Reinsert(p, id, true, now))
    ensures var s, s' := states[n], Apply(lower, states[n], Reinsert(p, id, true, now));
            && id !in s.table && id in s.created
            && s'.table == s.table[id := s.created[id]]
  {
    RunKeepsInv(lower, states, steps, n);
    var s := states[n];
    assert HoldOk(s.created, s.place, p, id, s.held[p][id]);
    RestoredIff(lower, now, s.created[id]);
  }

  /** A claim hands the request every row that answers the filter, takes exactly the one-shot ones out of
      the table and leaves the other requests alone. */
  lemma ClaimTakesMatching(lower: string -> string, s: State, p: Proc, f: Filter, id: string)
    requires Enabled(s, Claim(p, f))
    ensures var s' := Apply(lower, s, Claim(p, f));
            var answers := id in s.table && s.table[id].source == f.source && s.table[id].eventType == f.eventType
                           && s.table[id].target in f.targets;
            && (Holds(s', p, id) <==> answers)
            && (answers ==> s'.held[p][id].row.(effort := "") == s.table[id].(effort := ""))
            && (id in s'.table <==> id in s.table && !(answers && !s.table[id].persistent))
            && (forall q :: q in s.held ==> q in s'.held && s'.held[q] == s.held[q])
  {
  }

  /** Creating adds exactly the given trigger, stamped and with a tier for its effort; cancelling removes
      exactly the named one. */
  lemma CreateAndCancelAreExact(lower: string -> string, s: State, t: Row, now: int, id: string)
    ensures Enabled(s, Create(t, now)) ==>
              var s' := Apply(lower, s, Create(t, now));
              var effort := lower(TrimSpace(t.effort));
              && t.id in s'.table && t.id in s'.created && s'.created[t.id] == s'.table[t.id]
              && s'.table[t.id].(createdAt := t.createdAt, effort := t.effort) == t
              && s'.table[t.id].createdAt == (if t.createdAt == 0 then now else t.createdAt)
              && s'.table[t.id].effort ==
                 (if effort == "" then "low" else if effort in {"low", "medium", "high"} then effort else "medium")
              && s'.table - {t.id} == s.table - {t.id}
    ensures Enabled(s, Cancel(id)) ==>
              var s' := Apply(lower, s, Cancel(id)); id !in s'.table && s'.table == s.table - {id} && s'.held == s.held
  {
  }

  // ----- Conservation -----

  /** The trigger was cancelled, or it could not be put back. */
  ghost predicate Discards(step: Step, id: string) {
    step == Cancel(id) || (step.Reinsert? && step.id == id && !step.ok)
  }

  ghost predicate Discarded(steps: seq<Step>, n: nat, id: string) {
    exists k :: 0 <= k < n <= |steps| && Discards(steps[k], id)
  }

  /** A persistent trigger is in the table; a one-shot trigger is there, in a request's hands, or fired. */
  ghost predicate IsAround(s: State, id: string)
    requires id in s.created
  {
    || id in s.table
    || (!s.created[id].persistent && (id in s.fired || exists p :: Holds(s, p, id)))
  }

  lemma {:induction false} AroundAfterStep(lower: string -> string, s: State, step: Step, id: string)
    requires LowersTiers(lower) && Inv(lower, s) && Enabled(s, step) && id in s.created && IsAround(s, id)
    ensures id in Apply(lower, s, step).created && Apply(lower, s, step).created[id] == s.created[id]
    ensures IsAround(Apply(lower, s, step), id) || Discards(step, id)
  {
    var s' := Apply(lower, s, step);
    match step {
      case Create(_, _) =>
        if q :| Holds(s, q, id) {
          assert Holds(s', q, id);
        }
      case Cancel(_) =>
        if q :| Holds(s, q, id) {
          assert Holds(s', q, id);
        }
      case Claim(p, f) =>
        if id in s.table && id !in s'.table {
          assert Holds(s', p, id);
        }
        if q :| Holds(s, q, id) {
          assert Holds(s', q, id);
        }
      case DispatchOk(p, other) => AroundAfterDispatchOk(lower, s, p, other, id);
      case DispatchFailed(p, other) => AroundAfterDispatchFailed(lower, s, p, other, id);
      case Reinsert(p, other, ok, now) => AroundAfterReinsert(lower, s, p, other, ok, now, id);
    }
  }

  lemma AroundAfterDispatchOk(lower: string -> string, s: State, p: Proc, other: string, id: string)
    requires Inv(lower, s) && Enabled(s, DispatchOk(p, other)) && id in s.created && IsAround(s, id)
    ensures IsAround(Apply(lower, s, DispatchOk(p, other)), id)
  {
    var s' := Apply(lower, s, DispatchOk(p, other));
    assert HoldOk(s.created, s.place, p, other, s.held[p][other]);
    if other != id {
      if q :| Holds(s, q, id) {
        assert Holds(s', q, id);
      }
    } else if !s.created[id].persistent {
      assert s'.fired == s.fired + [id];
    }
  }

  lemma AroundAfterDispatchFailed(lower: string -> string, s: State, p: Proc, other: string, id: string)
    requires Inv(lower, s) && Enabled(s, DispatchFailed(p, other)) && id in s.created && IsAround(s, id)
    ensures IsAround(Apply(lower, s, DispatchFailed(p, other)), id)
  {
    var s' := Apply(lower, s, DispatchFailed(p, other));
    assert HoldOk(s.created, s.place, p, other, s.held[p][other]);
    if other != id {
      if q :| Holds(s, q, id) {
        assert Holds(s', q, id);
      }
    } else if !s.created[id].persistent {
      assert Holds(s', p, id);
    }
  }

  lemma AroundAfterReinsert(
    lower: string -> string, s: State, p: Proc, other: string, ok: bool, now: int, id: string)
    requires Inv(lower, s) && Enabled(s, Reinsert(p, other, ok, now)) && id in s.created && IsAround(s, id)
    ensures IsAround(Apply(lower, s, Reinsert(p, other, ok, now)), id) || (other == id && !ok)
  {
    var s' := Apply(lower, s, Reinsert(p, other, ok, now));
    assert HoldOk(s.created, s.place, p, other, s.held[p][other]);
    if other != id {
      if q :| Holds(s, q, id) {
        assert Holds(s', q, id);
      }
    }
  }

  /** Nothing is lost: in every run a one-shot trigger is in the table, in a request's hands or fired, and
      a persistent one is in the table, unless it was cancelled or its re-insertion failed. */
  lemma {:induction false} NoTriggerIsLost(
    lower: string -> string, states: seq<State>, steps: seq<Step>, n: nat, id: string)
    requires LowersTiers(lower) && IsRun(lower, states, steps) && n <= |steps| && id in states[n].created
    ensures IsAround(states[n], id) || Discarded(steps, n, id)
  {
    if n > 0 {
      var s := states[n - 1];
      RunKeepsInv(lower, states, steps, n - 1);
      if id in s.created {
        NoTriggerIsLost(lower, states, steps, n - 1, id);
        if Discarded(steps, n - 1, id) {
          var k :| 0 <= k < n - 1 && Discards(steps[k], id);
          assert Discards(steps[k], id);
        } else {
          AroundAfterStep(lower, s, steps[n - 1], id);
          if Discards(steps[n - 1], id) {
            assert Discarded(steps, n, id);
          }
        }
      }
    }
  }

  ghost predicate Fires(s: State, step: Step, id: string) {
    step.DispatchOk? && step.id == id && id in s.created && !s.created[id].persistent
  }

  lemma FiredAfterStep(lower: string -> string, s: State, step: Step, id: string)
    requires Inv(lower, s) && Enabled(s, step)
    ensures id in Apply(lower, s, step).fired <==> id in s.fired || Fires(s, step, id)
  {
    if step.DispatchOk? {
      assert HoldOk(s.created, s.place, step.proc, step.id, s.held[step.proc][step.id]);
    }
  }

  /** The fired triggers are the one-shot ones with a successful dispatch. */
  lemma {:induction false} FiredIffDispatched(
    lower: string -> string, states: seq<State>, steps: seq<Step>, n: nat, id: string)
    requires LowersTiers(lower) && IsRun(lower, states, steps) && n <= |steps|
    ensures id in states[n].fired <==> exists k :: 0 <= k < n && Fires(states[k], steps[k], id)
  {
    if n > 0 {
      RunKeepsInv(lower, states, steps, n - 1);
      FiredIffDispatched(lower, states, steps, n - 1, id);
      FiredAfterStep(lower, states[n - 1], steps[n - 1], id);
    }
  }

  /** Only a cancellation removes a persistent trigger, and only a cancellation or a matching claim
      removes any; rows that stay are not altered. */
  lemma StepsRemoveOnlyClaimed(lower: string -> string, s: State, step: Step, id: string)
    requires Inv(lower, s) && Enabled(s, step) && id in s.table
    ensures var s' := Apply(lower, s, step);
            && (id !in s'.table ==> step == Cancel(id) || (step.Claim? && IsSpent(s.table[id], step.filter)))
            && (id in s'.table ==> s'.table[id] == s.table[id])
  {
  }
}
