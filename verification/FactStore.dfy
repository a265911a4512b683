/** The facts table and the history of a consolidation run over it
    (services/coven/db.go, services/coven/extractor.go). Every database call may fail; a
    failed call changes nothing. */
module FactStore {
  import opened Wrappers
  import opened Cliques
  import opened Sorting
  import opened GoStrings

  datatype Fact = Fact(id: int, text: string, reinforced: int, emb: Vec)

  /** One event of a run. `live` is the set of stored IDs right after the event, `rows` what was read,
      `reply` what the model answered to a clique, and `fact` what was inserted. */
  datatype Op =
    | Read(rows: seq<Fact>, live: set<int>)
    | Submitted(ids: seq<int>, reply: Option<seq<string>>)
    | Inserted(id: int, fact: Fact, live: set<int>)
    | Deleted(id: int, live: set<int>)

  ghost function LineageOf(lineage: map<int, set<int>>, parents: set<int>): set<int> {
    set p, o | p in parents && p in lineage && o in lineage[p] :: o
  }

  /** Every initial fact is spoken for by some stored fact. */
  ghost predicate Covered(init: set<int>, live: set<int>, lineage: map<int, set<int>>) {
    forall o :: o in init ==> exists f :: f in live && f in lineage && o in lineage[f]
  }

  /** In every state the run passed through, no initial fact was lost. */
  ghost predicate NothingLost(init: set<int>, log: seq<Op>, lineage: map<int, set<int>>) {
    forall k :: 0 <= k < |log| && !log[k].Submitted? ==> Covered(init, log[k].live, lineage)
  }

  /** Only insertions and deletions from position `from` up to `to`. */
  ghost predicate OnlyRewrites(log: seq<Op>, from: nat, to: nat)
    requires to <= |log|
  {
    forall j :: from <= j < to ==> log[j].Inserted? || log[j].Deleted?
  }

  /** The deletion at k is of a member of the clique submitted at s, whose replacement went in at i. */
  ghost predicate Justified(log: seq<Op>, s: nat, i: nat, k: nat) {
    && s < i < k < |log|
    && log[s].Submitted? && log[i].Inserted? && log[k].Deleted?
    && log[k].id in log[s].ids
    && OnlyRewrites(log, s + 1, k)
  }

  /** Sources are deleted only after a replacement for their own clique was inserted. */
  ghost predicate DeletesAreJustified(log: seq<Op>) {
    forall k :: 0 <= k < |log| && log[k].Deleted? ==> exists s, i :: Justified(log, s, i, k)
  }

  ghost predicate WasSubmitted(log: seq<Op>, id: int) {
    exists k :: 0 <= k < |log| && log[k].Submitted? && id in log[k].ids
  }

  /** Initial facts outside every submitted clique are still there, unchanged. */
  ghost predicate OthersUntouched(init: map<int, Fact>, facts: map<int, Fact>, log: seq<Op>) {
    forall id :: id in init && !WasSubmitted(log, id) ==> id in facts && facts[id] == init[id]
  }

  // ----- What is stored -----

  /** The same fact but for how often it was reinforced. */
  ghost predicate SameBut(f: Fact, g: Fact) {
    f == g.(reinforced := f.reinforced) && f.reinforced >= g.reinforced
  }

  /** The run inserted f. */
  ghost predicate WasInserted(log: seq<Op>, f: Fact) {
    exists k :: 0 <= k < |log| && log[k].Inserted? && log[k].id == f.id && SameBut(f, log[k].fact)
  }

  /** f is an initial fact as it was, or one that the run inserted. */
  ghost predicate Genuine(init: map<int, Fact>, log: seq<Op>, f: Fact) {
    (f.id in init && init[f.id] == f) || WasInserted(log, f)
  }

  ghost predicate AllGenuine(init: map<int, Fact>, facts: map<int, Fact>, log: seq<Op>) {
    forall id {:trigger Genuine(init, log, facts[id])} :: id in facts ==> Genuine(init, log, facts[id])
  }

  /** Everything any pass read was stored: initial facts as they were, and inserted ones. */
  ghost predicate ReadsGenuine(init: map<int, Fact>, log: seq<Op>) {
    forall k, f {:trigger Genuine(init, log, f), log[k]} ::
      0 <= k < |log| && log[k].Read? && f in log[k].rows ==> Genuine(init, log, f)
  }

  /** A read returns a row for every stored ID. */
  ghost predicate RowsComplete(op: Op) {
    op.Read? ==> forall id :: id in op.live ==> exists f :: f in op.rows && f.id == id
  }

  ghost predicate ReadsComplete(log: seq<Op>) {
    forall k {:trigger RowsComplete(log[k])} :: 0 <= k < |log| ==> RowsComplete(log[k])
  }

  /** An inserted fact outside every submitted clique is still there. */
  ghost predicate StillStored(facts: map<int, Fact>, log: seq<Op>, op: Op) {
    op.Inserted? && !WasSubmitted(log, op.id) ==> op.id in facts && SameBut(facts[op.id], op.fact)
  }

  ghost predicate InsertedUntouched(facts: map<int, Fact>, log: seq<Op>) {
    forall k {:trigger StillStored(facts, log, log[k])} :: 0 <= k < |log| ==> StillStored(facts, log, log[k])
  }

  /** The stored IDs according to the log. */
  ghost function LiveNow(init: set<int>, log: seq<Op>): set<int> {
    if log == [] then init
    else if log[|log| - 1].Submitted? then LiveNow(init, log[..|log| - 1])
    else log[|log| - 1].live
  }

  /** The fact was seen by the last read (or at the start), or inserted since. */
  ghost predicate Recent(init: set<int>, log: seq<Op>, id: int) {
    if log == [] then id in init
    else
      var last := log[|log| - 1];
      if last.Read? then id in last.live else (last.Inserted? && last.id == id) || Recent(init, log[..|log| - 1], id)
  }

  ghost predicate AllRecent(init: set<int>, live: set<int>, log: seq<Op>) {
    forall id {:trigger Recent(init, log, id)} :: id in live ==> Recent(init, log, id)
  }

  /** Inserted, and not followed by a read. */
  ghost predicate InsertedLast(log: seq<Op>, id: int) {
    exists k :: 0 <= k < |log| && log[k].Inserted? && log[k].id == id && forall j :: k < j < |log| ==> !log[j].Read?
  }

  lemma RecentStep(init: set<int>, live: set<int>, live': set<int>, log: seq<Op>, op: Op)
    requires AllRecent(init, live, log)
    requires if op.Read? then live' <= op.live else forall id :: id in live' ==>
      id in live || (op.Inserted? && op.id == id)
    ensures AllRecent(init, live', log + [op])
  {
    assert (log + [op])[..|log|] == log;
    forall id | id in live'
      ensures Recent(init, log + [op], id)
    {
      assert id in live ==> Recent(init, log, id);
    }
  }

  /** What is stored is what the log says: the IDs, the origin of each fact, and inserted facts left alone. */
  ghost predicate StoredAsLogged(init: map<int, Fact>, facts: map<int, Fact>, log: seq<Op>) {
    && LiveNow(init.Keys, log) == facts.Keys
    && AllGenuine(init, facts, log) && ReadsGenuine(init, log) && ReadsComplete(log)
    && InsertedUntouched(facts, log)
  }

  // ----- What is inserted -----

  /** The insertion at p follows the submission at s and stores text j of its reply, trimmed and not blank. */
  ghost predicate FromReply(log: seq<Op>, s: int, p: int, j: int) {
    && 0 <= s < p < |log| && log[s].Submitted? && log[p].Inserted? && OnlyRewrites(log, s + 1, p)
    && log[s].reply.Some? && Usable(log[s].ids, log[s].reply.value, j)
    && log[p].fact.text == TrimSpace(log[s].reply.value[j])
  }

  /** Text j of the reply is not blank; for a pair it is the only such text. */
  ghost predicate Usable(ids: seq<int>, texts: seq<string>, j: int) {
    && 0 <= j < |texts| && TrimSpace(texts[j]) != ""
    && (|ids| <= 2 ==> forall i :: 0 <= i < |texts| && TrimSpace(texts[i]) != "" ==> i == j)
  }

  ghost predicate HasSource(log: seq<Op>, p: int) {
    exists s, j :: FromReply(log, s, p, j)
  }

  ghost predicate InReplyOrder(log: seq<Op>, p: int, q: int) {
    exists s, i, j :: i < j && FromReply(log, s, p, i) && FromReply(log, s, q, j)
  }

  ghost predicate SameSubmission(log: seq<Op>, p: int, q: int) {
    0 <= p < q < |log| && log[p].Inserted? && log[q].Inserted? && OnlyRewrites(log, p, q)
  }

  /** Everything inserted is a text of the reply to the submission before it ... */
  ghost predicate InsertsFromReplies(log: seq<Op>) {
    forall p {:trigger HasSource(log, p)} :: 0 <= p < |log| && log[p].Inserted? ==> HasSource(log, p)
  }

  /** ... and two insertions for one submission are different texts, in the order of the reply. */
  ghost predicate InsertsInOrder(log: seq<Op>) {
    forall p, q {:trigger InReplyOrder(log, p, q)} :: SameSubmission(log, p, q) ==> InReplyOrder(log, p, q)
  }

  ghost predicate RepliesOk(log: seq<Op>) {
    InsertsFromReplies(log) && InsertsInOrder(log)
  }

  /** Text j of the reply to the submission at s may be stored next. */
  ghost predicate MayInsert(log: seq<Op>, s: int, j: int, text: string) {
    && 0 <= s < |log| && log[s].Submitted? && OnlyRewrites(log, s + 1, |log|)
    && log[s].reply.Some? && Usable(log[s].ids, log[s].reply.value, j) && text == TrimSpace(log[s].reply.value[j])
    && forall p :: s < p < |log| && log[p].Inserted? ==> exists i :: i < j && FromReply(log, s, p, i)
  }

  lemma FromReplyLater(log: seq<Op>, op: Op, s: int, p: int, j: int)
    requires FromReply(log, s, p, j)
    ensures FromReply(log + [op], s, p, j)
  {
    var log' := log + [op];
    assert forall k :: 0 <= k < |log| ==> log'[k] == log[k];
  }

  lemma RewritesBefore(log: seq<Op>, op: Op, p: nat, q: nat)
    requires q <= |log| && OnlyRewrites(log + [op], p, q)
    ensures OnlyRewrites(log, p, q)
  {
    assert forall k :: 0 <= k < |log| ==> (log + [op])[k] == log[k];
  }

  lemma SourceStays(log: seq<Op>, op: Op, p: int)
    requires HasSource(log, p)
    ensures HasSource(log + [op], p)
  {
    var s, j :| FromReply(log, s, p, j);
    FromReplyLater(log, op, s, p, j);
  }

  lemma OrderStays(log: seq<Op>, op: Op, p: int, q: int)
    requires RepliesOk(log) && SameSubmission(log + [op], p, q) && q < |log|
    ensures InReplyOrder(log + [op], p, q)
  {
    assert (log + [op])[p] == log[p] && (log + [op])[q] == log[q];
    RewritesBefore(log, op, p, q);
    assert SameSubmission(log, p, q) && InReplyOrder(log, p, q);
    var s, i, j :| i < j && FromReply(log, s, p, i) && FromReply(log, s, q, j);
    FromReplyLater(log, op, s, p, i);
    FromReplyLater(log, op, s, q, j);
  }

  lemma RepliesAfterOther(log: seq<Op>, op: Op)
    requires RepliesOk(log) && !op.Inserted?
    ensures RepliesOk(log + [op])
  {
    var log' := log + [op];
    forall p | 0 <= p < |log'| && log'[p].Inserted?
      ensures HasSource(log', p)
    {
      assert log'[p] == log[p] && HasSource(log, p);
      SourceStays(log, op, p);
    }
    forall p, q | SameSubmission(log', p, q)
      ensures InReplyOrder(log', p, q)
    {
      OrderStays(log, op, p, q);
    }
  }

  lemma NewInsertFromReply(log: seq<Op>, op: Op, s: int, j: int)
    requires op.Inserted? && MayInsert(log, s, j, op.fact.text)
    ensures FromReply(log + [op], s, |log|, j)
  {
    var log' := log + [op];
    assert forall k :: 0 <= k < |log| ==> log'[k] == log[k];
  }

  lemma NewInsertInOrder(log: seq<Op>, op: Op, s: int, j: int, p: int)
    requires op.Inserted? && MayInsert(log, s, j, op.fact.text) && SameSubmission(log + [op], p, |log|)
    ensures InReplyOrder(log + [op], p, |log|)
  {
    NewInsertFromReply(log, op, s, j);
    assert (log + [op])[p] == log[p] && (log + [op])[s] == log[s];
    assert s < p;
    var i :| i < j && FromReply(log, s, p, i);
    FromReplyLater(log, op, s, p, i);
  }

  lemma RepliesAfterInsert(log: seq<Op>, op: Op, s: int, j: int)
    requires RepliesOk(log) && op.Inserted? && MayInsert(log, s, j, op.fact.text)
    ensures RepliesOk(log + [op])
  {
    var log' := log + [op];
    NewInsertFromReply(log, op, s, j);
    forall p | 0 <= p < |log'| && log'[p].Inserted?
      ensures HasSource(log', p)
    {
      if p < |log| {
        assert log'[p] == log[p] && HasSource(log, p);
        SourceStays(log, op, p);
      }
    }
    forall p, q | SameSubmission(log', p, q)
      ensures InReplyOrder(log', p, q)
    {
      if q < |log| {
        OrderStays(log, op, p, q);
      } else {
        NewInsertInOrder(log, op, s, j, p);
      }
    }
  }

  ghost predicate SoundRun(init: map<int, Fact>, facts: map<int, Fact>, log: seq<Op>, lineage: map<int, set<int>>) {
    && init.Keys <= lineage.Keys
    && Covered(init.Keys, facts.Keys, lineage)
    && NothingLost(init.Keys, log, lineage)
    && DeletesAreJustified(log)
    && OthersUntouched(init, facts, log)
    && AllRecent(init.Keys, facts.Keys, log)
    && StoredAsLogged(init, facts, log)
    && RepliesOk(log)
  }

  function FactId(): Fact -> int {
    (f: Fact) => f.id
  }

  function FactOrder(): (Fact, Fact) -> bool {
    (f: Fact, g: Fact) => f.id < g.id
  }

  /** SELECT ... ORDER BY id: all rows, each once, in ascending ID order. */
  method RowsById(facts: map<int, Fact>) returns (all: seq<Fact>)
    requires forall id :: id in facts ==> facts[id].id == id
    ensures UniqueBy(all, FactId()) && Sorted(all, FactOrder())
    ensures forall f :: f in all <==> f.id in facts && facts[f.id] == f
  {
    all := [];
    var rest := facts.Keys;
    while rest != {}
      invariant rest <= facts.Keys
      invariant UniqueBy(all, FactId())
      invariant forall f :: f in all <==> f.id in facts && facts[f.id] == f && f.id !in rest
      decreases |rest|
    {
      EmptyOrNotInts(rest);
      var id :| id in rest;
      rest := rest - {id};
      all := all + [facts[id]];
    }
    SortIsPermutation(all, FactOrder());
    SortKeepsElements(all, FactOrder());
    SortIsSorted(all, FactOrder());
    UniquePermutes(all, Sort(all, FactOrder()), FactId());
    all := Sort(all, FactOrder());
  }

  /** In every call, `up` says whether the database is known to answer. */
  class Store {
    var facts: map<int, Fact>
    var nextId: int
    var watermark: int
    ghost var log: seq<Op>
    ghost var lineage: map<int, set<int>>

    ghost predicate Valid()
      reads this`facts, this`nextId, this`lineage
    {
      && nextId > 0
      && (forall id :: id in facts ==> facts[id].id == id && 0 < id < nextId && facts[id].emb != [])
      && facts.Keys <= lineage.Keys
      && (forall id :: id in lineage ==> id < nextId)
    }

    /** What holds of the store and the history throughout a run. */
    ghost predicate Sound(init: map<int, Fact>)
      reads this`facts, this`nextId, this`lineage, this`log
    {
      Valid() && SoundRun(init, facts, log, lineage)
    }

    /** INSERT ... RETURNING id: a BIGSERIAL hands out a larger ID every time. The ghost
        argument records which facts the new one stands for. */
    method InsertFact(text: string, emb: Vec, up: bool, ghost parents: set<int>) returns (id: int, ok: bool)
      requires Valid() && emb != []
      modifies this
      ensures Valid() && watermark == old(watermark) && nextId >= old(nextId)
      ensures up ==> ok
      ensures !ok ==> facts == old(facts) && log == old(log) && lineage == old(lineage)
      ensures ok ==> && old(nextId) <= id && id !in old(lineage) && id !in old(facts)
                     && facts == old(facts)[id := Fact(id, text, 1, emb)]
                     && |facts| == |old(facts)| + 1
                     && lineage == old(lineage)[id := LineageOf(old(lineage), parents)]
                     && log == old(log) + [Inserted(id, facts[id], facts.Keys)]
    {
      ok := *;
      ok := ok || up;
      id :| id >= nextId;
      nextId := id + 1;
      if ok {
        facts := facts[id := Fact(id, text, 1, emb)];
        assert facts.Keys == old(facts).Keys + {id};
        lineage := lineage[id := LineageOf(lineage, parents)];
        log := log + [Inserted(id, facts[id], facts.Keys)];
      }
    }

    method ReinforceFact(id: int, up: bool) returns (ok: bool)
      requires Valid()
      modifies this`facts
      ensures Valid()
      ensures !ok ==> facts == old(facts)
      ensures up && id in old(facts) ==> ok
      ensures ok ==> id in old(facts) &&
                     facts == old(facts)[id := old(facts)[id].(reinforced := old(facts)[id].reinforced + 1)]
    {
      ok := *;
      ok := (ok || up) && id in facts;
      if ok {
        facts := facts[id := facts[id].(reinforced := facts[id].reinforced + 1)];
      }
    }

    method DeleteFact(id: int, up: bool) returns (ok: bool)
      requires Valid()
      modifies this`facts, this`log
      ensures Valid()
      ensures up && id in old(facts) ==> ok
      ensures !ok ==> facts == old(facts) && log == old(log)
      ensures ok ==> && id in old(facts) && facts == old(facts) - {id} && |facts| == |old(facts)| - 1
                     && log == old(log) + [Deleted(id, facts.Keys)]
    {
      ok := *;
      ok := (ok || up) && id in facts;
      if ok {
        facts := facts - {id};
        assert facts.Keys == old(facts).Keys - {id};
        log := log + [Deleted(id, facts.Keys)];
      }
    }

    method AllFacts() returns (all: seq<Fact>)
      requires Valid()
      modifies this`log
      ensures Valid() && log == old(log) + [Read(all, facts.Keys)]
      ensures UniqueBy(all, FactId())
      ensures forall f :: f in all <==> f.id in facts && facts[f.id] == f
    {
      all := RowsById(facts);
      log := log + [Read(all, facts.Keys)];
    }

    /** The upsert keeps the larger of the stored and the offered watermark. */
    method UpdateWatermark(candidate: int, up: bool) returns (ok: bool)
      modifies this`watermark
      ensures up ==> ok
      ensures !ok ==> watermark == old(watermark)
      ensures ok ==> watermark == Max(candidate, old(watermark))
    {
      ok := *;
      ok := ok || up;
      if ok && candidate > watermark {
        watermark := candidate;
      }
    }
  }

  // ----- Coverage -----

  lemma CoveredByMore(
    init: set<int>, live: set<int>, live': set<int>, lineage: map<int, set<int>>, lineage': map<int, set<int>>)
    requires Covered(init, live, lineage) && live <= live'
    requires forall f :: f in lineage ==> f in lineage' && lineage'[f] == lineage[f]
    ensures Covered(init, live', lineage')
  {
    forall o | o in init
      ensures exists f :: f in live' && f in lineage' && o in lineage'[f]
    {
      var f :| f in live && f in lineage && o in lineage[f];
      assert f in live' && f in lineage' && o in lineage'[f];
    }
  }

  /** Deleting s loses nothing while n, which stands for all that s stands for, is stored. */
  lemma CoveredWithout(init: set<int>, live: set<int>, lineage: map<int, set<int>>, s: int, n: int)
    requires Covered(init, live, lineage)
    requires n in live && n != s && n in lineage && (s in lineage ==> lineage[s] <= lineage[n])
    ensures Covered(init, live - {s}, lineage)
  {
    forall o | o in init
      ensures exists f :: f in live - {s} && f in lineage && o in lineage[f]
    {
      var f :| f in live && f in lineage && o in lineage[f];
      if f == s {
        assert n in live - {s} && o in lineage[n];
      } else {
        assert f in live - {s};
      }
    }
  }

  lemma ParentsAreInherited(lineage: map<int, set<int>>, parents: set<int>, p: int)
    requires p in parents && p in lineage
    ensures lineage[p] <= LineageOf(lineage, parents)
  {
    forall o | o in lineage[p]
      ensures o in LineageOf(lineage, parents)
    {
    }
  }

  // ----- Extending the history -----

  lemma NothingLostLater(
    init: set<int>, log: seq<Op>, op: Op, lineage: map<int, set<int>>, lineage': map<int, set<int>>)
    requires NothingLost(init, log, lineage)
    requires forall f :: f in lineage ==> f in lineage' && lineage'[f] == lineage[f]
    requires !op.Submitted? ==> Covered(init, op.live, lineage')
    ensures NothingLost(init, log + [op], lineage')
  {
    var log' := log + [op];
    forall k | 0 <= k < |log'| && !log'[k].Submitted?
      ensures Covered(init, log'[k].live, lineage')
    {
      if k < |log| {
        assert log'[k] == log[k];
        CoveredByMore(init, log[k].live, log[k].live, lineage, lineage');
      }
    }
  }

  lemma JustifiedLater(log: seq<Op>, op: Op)
    requires DeletesAreJustified(log)
    requires op.Deleted? ==> exists s, i :: Justified(log + [op], s, i, |log|)
    ensures DeletesAreJustified(log + [op])
  {
    var log' := log + [op];
    forall k | 0 <= k < |log'| && log'[k].Deleted?
      ensures exists s, i :: Justified(log', s, i, k)
    {
      if k < |log| {
        assert log'[k] == log[k];
        var s, i :| Justified(log, s, i, k);
        assert Justified(log', s, i, k);
      }
    }
  }

  lemma SubmittedLater(log: seq<Op>, op: Op, id: int)
    ensures WasSubmitted(log + [op], id) <==> WasSubmitted(log, id) || (op.Submitted? && id in op.ids)
  {
    var log' := log + [op];
    if WasSubmitted(log, id) {
      var k :| 0 <= k < |log| && log[k].Submitted? && id in log[k].ids;
      assert log'[k] == log[k];
    }
    if op.Submitted? && id in op.ids {
      assert log'[|log|] == op;
    }
    if WasSubmitted(log', id) {
      var k :| 0 <= k < |log'| && log'[k].Submitted? && id in log'[k].ids;
      assert k < |log| ==> log[k] == log'[k];
    }
  }

  lemma GenuineLater(init: map<int, Fact>, log: seq<Op>, op: Op, f: Fact)
    requires Genuine(init, log, f)
    ensures Genuine(init, log + [op], f)
  {
    if !(f.id in init && init[f.id] == f) {
      var k :| 0 <= k < |log| && log[k].Inserted? && log[k].id == f.id && SameBut(f, log[k].fact);
      assert (log + [op])[k] == log[k];
    }
  }

  lemma LiveNowStep(init: set<int>, log: seq<Op>, op: Op)
    ensures LiveNow(init, log + [op]) == if op.Submitted? then LiveNow(init, log) else op.live
  {
    assert (log + [op])[..|log|] == log;
  }

  lemma ReadsGenuineLater(init: map<int, Fact>, log: seq<Op>, op: Op)
    requires ReadsGenuine(init, log)
    requires op.Read? ==> forall f :: f in op.rows ==> Genuine(init, log, f)
    ensures ReadsGenuine(init, log + [op])
  {
    var log' := log + [op];
    forall k, f | 0 <= k < |log'| && log'[k].Read? && f in log'[k].rows
      ensures Genuine(init, log', f)
    {
      assert k < |log| ==> log'[k] == log[k];
      assert Genuine(init, log, f);
      GenuineLater(init, log, op, f);
    }
  }

  /** What each event must satisfy for the store to stay as logged. */
  lemma StoredAsLoggedLater(init: map<int, Fact>, facts: map<int, Fact>, facts': map<int, Fact>, log: seq<Op>, op: Op)
    requires StoredAsLogged(init, facts, log)
    requires if op.Submitted? then facts' == facts else op.live == facts'.Keys
    requires op.Read? ==> forall f :: f in op.rows ==> f.id in facts && facts[f.id] == f
    requires RowsComplete(op)
    requires forall id :: id in facts' ==> (id in facts && facts'[id] == facts[id]) || (op.Inserted? && op.id == id)
    requires op.Inserted? ==> op.id !in facts && op.id in facts' && facts'[op.id] == op.fact && op.fact.id == op.id
    requires forall id :: id in facts && id !in facts' ==> WasSubmitted(log, id)
    ensures StoredAsLogged(init, facts', log + [op])
  {
    var log' := log + [op];
    LiveNowStep(init.Keys, log, op);
    forall f | op.Read? && f in op.rows
      ensures Genuine(init, log, f)
    {
      assert Genuine(init, log, facts[f.id]);
    }
    ReadsGenuineLater(init, log, op);
    forall k | 0 <= k < |log'|
      ensures RowsComplete(log'[k])
    {
      assert k < |log| ==> log'[k] == log[k] && RowsComplete(log[k]);
    }
    forall id | id in facts'
      ensures Genuine(init, log', facts'[id])
    {
      if id in facts && facts'[id] == facts[id] {
        assert Genuine(init, log, facts[id]);
        GenuineLater(init, log, op, facts[id]);
      } else {
        assert log'[|log|] == op && SameBut(op.fact, op.fact);
      }
    }
    forall k | 0 <= k < |log'|
      ensures StillStored(facts', log', log'[k])
    {
      if k < |log| {
        assert log'[k] == log[k] && StillStored(facts, log, log[k]);
        if log[k].Inserted? {
          SubmittedLater(log, op, log[k].id);
        }
      } else {
        assert op.Inserted? ==> SameBut(op.fact, op.fact);
      }
    }
  }

  // ----- Every kind of event keeps a run sound -----

  lemma SoundAfterSubmit(
    init: map<int, Fact>, facts: map<int, Fact>, log: seq<Op>, lineage: map<int, set<int>>, ids: seq<int>,
    reply: Option<seq<string>>)
    requires SoundRun(init, facts, log, lineage)
    ensures SoundRun(init, facts, log + [Submitted(ids, reply)], lineage)
  {
    var op := Submitted(ids, reply);
    NothingLostLater(init.Keys, log, op, lineage, lineage);
    JustifiedLater(log, op);
    RepliesAfterOther(log, op);
    RecentStep(init.Keys, facts.Keys, facts.Keys, log, op);
    StoredAsLoggedLater(init, facts, facts, log, op);
    forall id | id in init && !WasSubmitted(log + [op], id)
      ensures id in facts && facts[id] == init[id]
    {
      SubmittedLater(log, op, id);
    }
  }

  lemma SoundAfterRead(
    init: map<int, Fact>, facts: map<int, Fact>, log: seq<Op>, lineage: map<int, set<int>>, rows: seq<Fact>)
    requires SoundRun(init, facts, log, lineage)
    requires forall f :: f in rows <==> f.id in facts && facts[f.id] == f
    requires forall id :: id in facts ==> facts[id].id == id
    ensures SoundRun(init, facts, log + [Read(rows, facts.Keys)], lineage)
  {
    var op := Read(rows, facts.Keys);
    forall id | id in op.live
      ensures exists f :: f in rows && f.id == id
    {
      assert facts[id] in rows;
    }
    NothingLostLater(init.Keys, log, op, lineage, lineage);
    JustifiedLater(log, op);
    RepliesAfterOther(log, op);
    RecentStep(init.Keys, facts.Keys, facts.Keys, log, op);
    StoredAsLoggedLater(init, facts, facts, log, op);
    forall id | id in init && !WasSubmitted(log + [op], id)
      ensures id in facts && facts[id] == init[id]
    {
      SubmittedLater(log, op, id);
    }
  }

  lemma SoundAfterInsert(
    init: map<int, Fact>, facts: map<int, Fact>, log: seq<Op>, lineage: map<int, set<int>>,
    f: Fact, stands: set<int>, s: int, j: int)
    requires SoundRun(init, facts, log, lineage)
    requires f.id !in facts && f.id !in lineage && MayInsert(log, s, j, f.text)
    ensures SoundRun(init, facts[f.id := f], log + [Inserted(f.id, f, facts[f.id := f].Keys)], lineage[f.id := stands])
  {
    var facts', lineage' := facts[f.id := f], lineage[f.id := stands];
    var op := Inserted(f.id, f, facts'.Keys);
    CoveredByMore(init.Keys, facts.Keys, facts'.Keys, lineage, lineage');
    NothingLostLater(init.Keys, log, op, lineage, lineage');
    JustifiedLater(log, op);
    RepliesAfterInsert(log, op, s, j);
    RecentStep(init.Keys, facts.Keys, facts'.Keys, log, op);
    StoredAsLoggedLater(init, facts, facts', log, op);
    forall id | id in init && !WasSubmitted(log + [op], id)
      ensures id in facts' && facts'[id] == init[id]
    {
      SubmittedLater(log, op, id);
    }
  }

  lemma SoundAfterDelete(
    init: map<int, Fact>, facts: map<int, Fact>, log: seq<Op>, lineage: map<int, set<int>>,
    src: int, n: int, s: nat, i: nat)
    requires SoundRun(init, facts, log, lineage)
    requires n in facts && n != src && n in lineage && (src in lineage ==> lineage[src] <= lineage[n])
    requires s < i < |log| && log[s].Submitted? && log[i].Inserted? && src in log[s].ids
    requires OnlyRewrites(log, s + 1, |log|)
    ensures SoundRun(init, facts - {src}, log + [Deleted(src, (facts - {src}).Keys)], lineage)
  {
    var facts' := facts - {src};
    var op := Deleted(src, facts'.Keys);
    var log' := log + [op];
    assert facts'.Keys == facts.Keys - {src};
    CoveredWithout(init.Keys, facts.Keys, lineage, src, n);
    NothingLostLater(init.Keys, log, op, lineage, lineage);
    assert Justified(log', s, i, |log|);
    JustifiedLater(log, op);
    RepliesAfterOther(log, op);
    RecentStep(init.Keys, facts.Keys, facts'.Keys, log, op);
    StoredAsLoggedLater(init, facts, facts', log, op);
    forall id | id in init && !WasSubmitted(log', id)
      ensures id in facts' && facts'[id] == init[id]
    {
      SubmittedLater(log, op, id);
      assert src in log[s].ids;
    }
  }

  lemma SoundAfterReinforce(
    init: map<int, Fact>, facts: map<int, Fact>, log: seq<Op>, lineage: map<int, set<int>>, f: Fact)
    requires SoundRun(init, facts, log, lineage)
    requires f.id in facts && f.id !in init && SameBut(f, facts[f.id])
    ensures SoundRun(init, facts[f.id := f], log, lineage)
  {
    var facts' := facts[f.id := f];
    assert facts'.Keys == facts.Keys;
    forall id | id in facts'
      ensures Genuine(init, log, facts'[id])
    {
      assert Genuine(init, log, facts[id]);
      if id == f.id {
        ReinforcedIsInserted(log, facts[id], f);
      }
    }
    forall k | 0 <= k < |log|
      ensures StillStored(facts', log, log[k])
    {
      assert StillStored(facts, log, log[k]);
    }
  }

  lemma ReinforcedIsInserted(log: seq<Op>, f: Fact, more: Fact)
    requires WasInserted(log, f) && SameBut(more, f)
    ensures WasInserted(log, more)
  {
    var k :| 0 <= k < |log| && log[k].Inserted? && log[k].id == f.id && SameBut(f, log[k].fact);
    assert SameBut(more, log[k].fact);
  }
}
