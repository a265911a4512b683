/** The queue of pending Nomad changes (services/hangar/reconcile.go) and how it is split. */
module PendingChanges {
  datatype Change = Change(path: string, action: string, job: string)

  datatype Meta = Meta(repoPath: string, repo: string, commit: string, prNumber: int, targetId: string, timestamp: int)

  datatype Event = Event(meta: Meta, changes: seq<Change>)

  /** One recorded change with the metadata it was recorded under. */
  datatype Item = Item(meta: Meta, change: Change)

  predicate IsDelete(ch: Change) {
    ch.action == "delete"
  }

  ghost predicate AllAre(changes: seq<Change>, deletes: bool) {
    forall i :: 0 <= i < |changes| ==> IsDelete(changes[i]) == deletes
  }

  // ----- Events as item lists -----

  function Items(meta: Meta, changes: seq<Change>): seq<Item> {
    if changes == [] then [] else Items(meta, changes[..|changes| - 1]) + [Item(meta, changes[|changes| - 1])]
  }

  function Flatten(events: seq<Event>): seq<Item> {
    if events == [] then []
    else Flatten(events[..|events| - 1]) + Items(events[|events| - 1].meta, events[|events| - 1].changes)
  }

  /** The items whose change is (not) a delete, in order. */
  function Only(items: seq<Item>, deletes: bool): seq<Item> {
    if items == [] then []
    else
      var last := items[|items| - 1];
      Only(items[..|items| - 1], deletes) + (if IsDelete(last.change) == deletes then [last] else [])
  }

  function OnlyChanges(changes: seq<Change>, deletes: bool): seq<Change> {
    if changes == [] then []
    else
      var last := changes[|changes| - 1];
      OnlyChanges(changes[..|changes| - 1], deletes) + (if IsDelete(last) == deletes then [last] else [])
  }

  lemma FlattenAppend(events: seq<Event>, e: Event)
    ensures Flatten(events + [e]) == Flatten(events) + Items(e.meta, e.changes)
  {
    assert (events + [e])[..|events|] == events;
  }

  lemma {:induction false} OnlyAppend(a: seq<Item>, b: seq<Item>, deletes: bool)
    ensures Only(a + b, deletes) == Only(a, deletes) + Only(b, deletes)
    decreases |b|
  {
    if b == [] {
      assert a + b == a;
    } else {
      assert (a + b)[..|a + b| - 1] == a + b[..|b| - 1];
      OnlyAppend(a, b[..|b| - 1], deletes);
    }
  }

  lemma ItemsAppend(meta: Meta, changes: seq<Change>, ch: Change)
    ensures Items(meta, changes + [ch]) == Items(meta, changes) + [Item(meta, ch)]
  {
    assert (changes + [ch])[..|changes|] == changes;
  }

  lemma OnlyStep(items: seq<Item>, item: Item, deletes: bool)
    ensures Only(items + [item], deletes) == if IsDelete(item.change) == deletes then Only(items, deletes) + [item]
      else Only(items, deletes)
  {
    assert (items + [item])[..|items|] == items;
    assert Only(items, deletes) + [] == Only(items, deletes);
  }

  lemma OnlyChangesStep(changes: seq<Change>, ch: Change, deletes: bool)
    ensures OnlyChanges(changes + [ch], deletes) == if IsDelete(ch) == deletes then
      OnlyChanges(changes, deletes) + [ch] else OnlyChanges(changes, deletes)
  {
    assert (changes + [ch])[..|changes|] == changes;
    assert OnlyChanges(changes, deletes) + [] == OnlyChanges(changes, deletes);
  }

  lemma {:induction false} OnlyOfItems(meta: Meta, changes: seq<Change>, deletes: bool)
    ensures Only(Items(meta, changes), deletes) == Items(meta, OnlyChanges(changes, deletes))
  {
    if changes != [] {
      var front, last := changes[..|changes| - 1], changes[|changes| - 1];
      assert changes == front + [last];
      OnlyOfItems(meta, front, deletes);
      ItemsAppend(meta, front, last);
      OnlyStep(Items(meta, front), Item(meta, last), deletes);
      OnlyChangesStep(front, last, deletes);
      ItemsAppend(meta, OnlyChanges(front, deletes), last);
    }
  }

  /** Deletes and the rest together are everything. */
  lemma {:induction false} SplitKeepsAll(items: seq<Item>)
    ensures multiset(Only(items, true)) + multiset(Only(items, false)) == multiset(items)
  {
    if items != [] {
      var front, last := items[..|items| - 1], items[|items| - 1];
      SplitKeepsAll(front);
      assert items == front + [last];
      OnlyStep(front, last, true);
      OnlyStep(front, last, false);
      assert multiset(items) == multiset(front) + multiset{last};
    }
  }

  method SplitChanges(changes: seq<Change>) returns (deletes: seq<Change>, keeps: seq<Change>)
    ensures deletes == OnlyChanges(changes, true) && keeps == OnlyChanges(changes, false)
  {
    deletes, keeps := [], [];
    for n := 0 to |changes|
      invariant deletes == OnlyChanges(changes[..n], true) && keeps == OnlyChanges(changes[..n], false)
    {
      assert changes[..n + 1][..n] == changes[..n];
      if IsDelete(changes[n]) {
        deletes := deletes + [changes[n]];
      } else {
        keeps := keeps + [changes[n]];
      }
    }
    assert changes[..|changes|] == changes;
  }

  /** Splitting loses no change, and each part holds its own kind only. */
  lemma {:induction false} SplitChangesExactly(changes: seq<Change>, deletes: bool)
    ensures AllAre(OnlyChanges(changes, deletes), deletes)
    ensures forall ch :: multiset(OnlyChanges(changes, deletes))[ch] == if IsDelete(ch) == deletes then
      multiset(changes)[ch] else 0
  {
    if changes != [] {
      SplitChangesExactly(changes[..|changes| - 1], deletes);
      assert changes == changes[..|changes| - 1] + [changes[|changes| - 1]];
    }
  }

  /** The event cut down to some of its changes, if any are left. */
  function WithPart(out: seq<Event>, e: Event, part: seq<Change>): seq<Event> {
    if part == [] then out else out + [e.(changes := part)]
  }

  ghost predicate SameItems(out: seq<Event>, events: seq<Event>, deletes: bool) {
    Flatten(out) == Only(Flatten(events), deletes)
  }

  ghost predicate OneKind(out: seq<Event>, deletes: bool) {
    forall i :: 0 <= i < |out| ==> out[i].changes != [] && AllAre(out[i].changes, deletes)
  }

  /** `out` is the (non-)delete part of `events`, in events that are not empty. */
  ghost predicate IsPart(out: seq<Event>, events: seq<Event>, deletes: bool) {
    SameItems(out, events, deletes) && OneKind(out, deletes)
  }

  lemma PartItems(done: seq<Event>, e: Event, deletes: bool)
    ensures Only(Flatten(done + [e]), deletes) ==
      Only(Flatten(done), deletes) + Items(e.meta, OnlyChanges(e.changes, deletes))
  {
    FlattenAppend(done, e);
    OnlyAppend(Flatten(done), Items(e.meta, e.changes), deletes);
    OnlyOfItems(e.meta, e.changes, deletes);
  }

  lemma WithPartItems(out: seq<Event>, e: Event, part: seq<Change>)
    ensures Flatten(WithPart(out, e, part)) == Flatten(out) + Items(e.meta, part)
  {
    if part == [] {
      assert Flatten(out) + [] == Flatten(out);
    } else {
      FlattenAppend(out, e.(changes := part));
    }
  }

  lemma SameItemsStep(done: seq<Event>, e: Event, out: seq<Event>, deletes: bool)
    requires SameItems(out, done, deletes)
    ensures SameItems(WithPart(out, e, OnlyChanges(e.changes, deletes)), done + [e], deletes)
  {
    PartItems(done, e, deletes);
    WithPartItems(out, e, OnlyChanges(e.changes, deletes));
  }

  lemma OneKindStep(e: Event, out: seq<Event>, deletes: bool)
    requires OneKind(out, deletes)
    ensures OneKind(WithPart(out, e, OnlyChanges(e.changes, deletes)), deletes)
  {
    SplitChangesExactly(e.changes, deletes);
  }

  lemma PartStep(done: seq<Event>, e: Event, out: seq<Event>, part: seq<Change>, deletes: bool)
    requires IsPart(out, done, deletes) && part == OnlyChanges(e.changes, deletes)
    ensures IsPart(WithPart(out, e, part), done + [e], deletes)
  {
    SameItemsStep(done, e, out, deletes);
    OneKindStep(e, out, deletes);
  }

  /** Adds the two parts of one event. */
  method SplitOne(e: Event, deletes: seq<Event>, keeps: seq<Event>, ghost done: seq<Event>)
    returns (moreDeletes: seq<Event>, moreKeeps: seq<Event>)
    requires IsPart(deletes, done, true) && IsPart(keeps, done, false)
    ensures IsPart(moreDeletes, done + [e], true) && IsPart(moreKeeps, done + [e], false)
  {
    var gone, kept := SplitChanges(e.changes);
    PartStep(done, e, deletes, gone, true);
    PartStep(done, e, keeps, kept, false);
    moreDeletes, moreKeeps := WithPart(deletes, e, gone), WithPart(keeps, e, kept);
  }

  method SplitEvents(events: seq<Event>) returns (deletes: seq<Event>, keeps: seq<Event>)
    ensures IsPart(deletes, events, true) && IsPart(keeps, events, false)
  {
    deletes, keeps := [], [];
    ghost var done: seq<Event> := [];
    var n := 0;
    while n < |events|
      invariant 0 <= n <= |events| && done == events[..n]
      invariant IsPart(deletes, done, true) && IsPart(keeps, done, false)
    {
      deletes, keeps := SplitOne(events[n], deletes, keeps, done);
      done := done + [events[n]];
      n := n + 1;
    }
    assert done == events;
  }
}
