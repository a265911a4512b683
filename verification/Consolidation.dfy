/** The fact consolidation ("dreaming") run of services/coven/extractor.go: up to three passes, each
    of which finds cliques of similar facts, asks a model for a replacement, inserts it and deletes
    the sources. The model, the embedder, the database and cancellation are nondeterministic. */
module Consolidation {
  import opened Wrappers
  import opened Cliques
  import opened CliqueLaws
  import opened Sorting
  import opened Signature
  import opened GoStrings
  import opened FactStore

  const EXPECTED_DIM := 384
  const MAX_PASSES := 3
  const CONSOLIDATION_LIMITS := Limits(0.75, 1.0, 2, 2)

  function FactSpace(sim: (Vec, Vec) -> real): Space<Fact> {
    Space(FactId(), (f: Fact) => f.emb, sim)
  }

  function IdsOf(clique: seq<Fact>): seq<int> {
    seq(|clique|, i requires 0 <= i < |clique| => clique[i].id)
  }

  ghost function IdSet(ids: seq<int>): set<int> {
    set i | i in ids
  }

  function SmallerOf(x: int, y: int): int {
    if x <= y then x else y
  }

  // ----- Replacement texts -----

  /** The first two non-blank texts, trimmed. */
  function ReplacementTexts(texts: seq<string>, room: nat): seq<string>
    decreases |texts|
  {
    if texts == [] || room == 0 then []
    else
      var t := TrimSpace(texts[0]);
      if t == "" then ReplacementTexts(texts[1..], room)
      else [t] + ReplacementTexts(texts[1..], room - 1)
  }

  method ExtractConsolidatedTexts(texts: seq<string>) returns (candidates: seq<string>)
    ensures candidates == ReplacementTexts(texts, 2)
  {
    candidates := [];
    var rest := texts;
    while rest != []
      invariant |candidates| < 2
      invariant ReplacementTexts(texts, 2) == candidates + ReplacementTexts(rest, 2 - |candidates|)
      decreases |rest|
    {
      var t := TrimSpace(rest[0]);
      rest := rest[1..];
      if t != "" {
        ghost var later := ReplacementTexts(rest, 1 - |candidates|);
        assert candidates + ([t] + later) == candidates + [t] + later;
        candidates := candidates + [t];
        if |candidates| == 2 {
          break;
        }
      }
    }
    assert candidates + [] == candidates;
  }

  lemma {:induction false} ReplacementTextsLaws(texts: seq<string>, room: nat)
    ensures |ReplacementTexts(texts, room)| <= room
    ensures forall t :: t in ReplacementTexts(texts, room) ==> t != "" && Trimmed(t)
    decreases |texts|
  {
    if texts != [] && room > 0 {
      TrimSpaceTrims(texts[0]);
      if TrimSpace(texts[0]) == "" {
        ReplacementTextsLaws(texts[1..], room);
      } else {
        ReplacementTextsLaws(texts[1..], room - 1);
      }
    }
  }

  /** The position of the k-th text that is not blank. */
  ghost function NthUsable(texts: seq<string>, k: nat): nat
    decreases |texts|
  {
    if texts == [] then 0
    else if TrimSpace(texts[0]) == "" then 1 + NthUsable(texts[1..], k)
    else if k == 0 then 0
    else 1 + NthUsable(texts[1..], k - 1)
  }

  /** The candidates are texts of the reply, in order. */
  lemma {:induction false} CandidatesAreReplies(texts: seq<string>, room: nat, k: nat)
    requires k < |ReplacementTexts(texts, room)|
    ensures var j := NthUsable(texts, k);
      j < |texts| && TrimSpace(texts[j]) == ReplacementTexts(texts, room)[k] && TrimSpace(texts[j]) != ""
    decreases |texts|
  {
    if TrimSpace(texts[0]) == "" {
      CandidatesAreReplies(texts[1..], room, k);
    } else if k > 0 {
      CandidatesAreReplies(texts[1..], room - 1, k - 1);
    }
  }

  lemma {:induction false} LaterCandidatesComeLater(texts: seq<string>, room: nat, i: nat, k: nat)
    requires i < k < |ReplacementTexts(texts, room)|
    ensures NthUsable(texts, i) < NthUsable(texts, k)
    decreases |texts|
  {
    if TrimSpace(texts[0]) == "" {
      LaterCandidatesComeLater(texts[1..], room, i, k);
    } else if i > 0 {
      LaterCandidatesComeLater(texts[1..], room - 1, i - 1, k - 1);
    }
  }

  /** Fewer candidates than there is room for are all the texts there are. */
  lemma {:induction false} AllUsableAreCandidates(texts: seq<string>, room: nat, j: nat)
    requires |ReplacementTexts(texts, room)| < room && j < |texts| && TrimSpace(texts[j]) != ""
    ensures exists k :: 0 <= k < |ReplacementTexts(texts, room)| && NthUsable(texts, k) == j
    decreases |texts|
  {
    if TrimSpace(texts[0]) == "" {
      AllUsableAreCandidates(texts[1..], room, j - 1);
      var k :| 0 <= k < |ReplacementTexts(texts[1..], room)| && NthUsable(texts[1..], k) == j - 1;
      assert NthUsable(texts, k) == j;
    } else if j == 0 {
      assert NthUsable(texts, 0) == 0;
    } else {
      AllUsableAreCandidates(texts[1..], room - 1, j - 1);
      var k :| 0 <= k < |ReplacementTexts(texts[1..], room - 1)| && NthUsable(texts[1..], k) == j - 1;
      assert NthUsable(texts, k + 1) == j;
    }
  }

  /** Candidates that are fewer than the facts they replace are usable. */
  lemma CandidateIsUsable(ids: seq<int>, texts: seq<string>, k: nat)
    requires k < |ReplacementTexts(texts, 2)| < |ids|
    ensures Usable(ids, texts, NthUsable(texts, k)) &&
      TrimSpace(texts[NthUsable(texts, k)]) == ReplacementTexts(texts, 2)[k]
  {
    CandidatesAreReplies(texts, 2, k);
    forall i | 0 <= i < |texts| && TrimSpace(texts[i]) != "" && |ids| <= 2
      ensures i == NthUsable(texts, k)
    {
      AllUsableAreCandidates(texts, 2, i);
    }
  }

  // ----- One clique -----

  /** The clique's facts are stored as read, and the IDs differ. */
  ghost predicate Present(facts: map<int, Fact>, clique: seq<Fact>) {
    && (forall i :: 0 <= i < |clique| ==> clique[i].id in facts && facts[clique[i].id] == clique[i])
    && (forall i, j :: 0 <= i < j < |clique| ==> clique[i].id != clique[j].id)
  }

  /** Everything but the facts in `ids` is kept; whatever is new has a new ID. */
  ghost predicate KeepsOthers(before: map<int, Fact>, after: map<int, Fact>, ids: seq<int>, newFrom: int) {
    && (forall id :: id in before && id !in ids ==> id in after && after[id] == before[id])
    && (forall id :: id in after && id !in before ==> id >= newFrom)
  }

  method AskModel(up: bool) returns (reply: Option<seq<string>>)
    ensures up ==> reply.Some?
  {
    var answered: bool := *;
    var texts: seq<string> := *;
    reply := if answered || up then Some(texts) else None;
  }

  method GenerateEmbedding(text: string, up: bool) returns (emb: Option<Vec>)
    ensures up ==> emb.Some? && |emb.value| == EXPECTED_DIM
  {
    var answered: bool := *;
    var vector: Vec := *;
    if up && |vector| != EXPECTED_DIM {
      vector := seq(EXPECTED_DIM, _ => 0.0);
    }
    emb := if answered || up then Some(vector) else None;
  }

  /** Reinforces fact `id` up to `times` times; failures are only logged. `up` says whether the database
      is known to answer. */
  method Reinforce(store: Store, id: int, times: nat, up: bool, ghost init: map<int, Fact>)
    requires store.Sound(init) && id in store.facts && id !in init
    modifies store`facts
    ensures store.Sound(init) && id in store.facts
    ensures store.facts == old(store.facts)[id := store.facts[id]]
    ensures store.facts[id].text == old(store.facts[id].text)
    ensures old(store.facts[id].reinforced) <= store.facts[id].reinforced <= old(store.facts[id].reinforced) + times
    ensures up ==> store.facts[id].reinforced == old(store.facts[id].reinforced) + times
  {
    for n := 0 to times
      invariant store.Sound(init) && id in store.facts
      invariant store.facts == old(store.facts)[id := store.facts[id]]
      invariant store.facts[id].text == old(store.facts[id].text)
      invariant 0 <= store.facts[id].reinforced - old(store.facts[id].reinforced) <= n
      invariant up ==> store.facts[id].reinforced - old(store.facts[id].reinforced) == n
    {
      ghost var before := store.facts;
      var done := store.ReinforceFact(id, up);
      if done {
        SoundAfterReinforce(init, before, store.log, store.lineage, store.facts[id]);
      }
    }
  }

  /** Inserts a replacement and keeps the run sound. */
  method InsertOne(
    store: Store, text: string, emb: Vec, up: bool, ghost ids: seq<int>, ghost s: int, ghost j: int,
    ghost init: map<int, Fact>)
    returns (newId: int, ok: bool)
    requires store.Sound(init) && emb != [] && MayInsert(store.log, s, j, text)
    modifies store
    ensures store.Sound(init) && store.watermark == old(store.watermark) && store.nextId >= old(store.nextId)
    ensures up ==> ok
    ensures !ok ==>
      store.facts == old(store.facts) && store.log == old(store.log) && store.lineage == old(store.lineage)
    ensures ok ==> && newId >= old(store.nextId) && newId !in init
                   && newId !in old(store.facts) && newId !in old(store.lineage)
                   && store.facts == old(store.facts)[newId := Fact(newId, text, 1, emb)]
                   && store.lineage == old(store.lineage)[newId := LineageOf(old(store.lineage), IdSet(ids))]
                   && |store.log| == |old(store.log)| + 1 && old(store.log) <= store.log
                   && store.log[|old(store.log)|].Inserted? && store.log[|old(store.log)|].fact.text == text
  {
    ghost var facts, log, lineage := store.facts, store.log, store.lineage;
    newId, ok := store.InsertFact(text, emb, up, IdSet(ids));
    if ok {
      SoundAfterInsert(init, facts, log, lineage, store.facts[newId], store.lineage[newId], s, j);
    }
  }

  /** Inserts a replacement and reinforces it up to its sources' strongest count, at most ten. */
  method InsertAndReinforce(
    store: Store, text: string, maxReinforce: int, up: bool, ghost ids: seq<int>, ghost s: int, ghost j: int,
    ghost init: map<int, Fact>)
    returns (newId: int, ok: bool)
    requires store.Sound(init) && maxReinforce >= 1 && MayInsert(store.log, s, j, text)
    modifies store
    ensures store.Sound(init) && store.watermark == old(store.watermark) && store.nextId >= old(store.nextId)
    ensures up ==> ok
    ensures !ok ==>
      store.facts == old(store.facts) && store.log == old(store.log) && store.lineage == old(store.lineage)
    ensures ok ==> && newId >= old(store.nextId) && newId !in old(store.facts) && newId !in old(store.lineage)
                   && newId in store.facts && store.facts == old(store.facts)[newId := store.facts[newId]]
                   && |store.facts| == |old(store.facts)| + 1
                   && store.facts[newId].text == text
                   && 1 <= store.facts[newId].reinforced <= SmallerOf(maxReinforce, 10)
                   && (up ==> store.facts[newId].reinforced == SmallerOf(maxReinforce, 10))
                   && store.lineage == old(store.lineage)[newId := LineageOf(old(store.lineage), IdSet(ids))]
                   && |store.log| == |old(store.log)| + 1 && old(store.log) <= store.log
                   && store.log[|old(store.log)|].Inserted? && store.log[|old(store.log)|].fact.text == text
  {
    newId, ok := 0, false;
    var emb := GenerateEmbedding(text, up);
    if emb.None? || |emb.value| != EXPECTED_DIM {
      return;
    }
    newId, ok := InsertOne(store, text, emb.value, up, ids, s, j, init);
    if ok {
      Reinforce(store, newId, SmallerOf(maxReinforce, 10) - 1, up, init);
      KeysAfterInsert(old(store.facts), store.facts, newId);
    }
  }

  lemma KeysAfterInsert(before: map<int, Fact>, after: map<int, Fact>, id: int)
    requires id !in before && id in after && after == before[id := after[id]]
    ensures |after| == |before| + 1
  {
    assert after.Keys == before.Keys + {id};
  }

  method StrongestCount(clique: seq<Fact>) returns (most: int)
    ensures most >= 1 && forall f :: f in clique ==> f.reinforced <= most
    ensures most == 1 || exists f :: f in clique && f.reinforced == most
  {
    most := 1;
    for n := 0 to |clique|
      invariant most >= 1 && forall k :: 0 <= k < n ==> clique[k].reinforced <= most
      invariant most == 1 || exists f :: f in clique && f.reinforced == most
    {
      if clique[n].reinforced > most {
        most := clique[n].reinforced;
        assert clique[n] in clique;
      }
    }
  }

  /** The clique was submitted at `from`, only rewrites followed, and n stands for all of ids. */
  ghost predicate Replaces(
    log: seq<Op>, live: set<int>, lineage: map<int, set<int>>, ids: seq<int>, from: nat, n: int) {
    && from < |log| && log[from].Submitted? && log[from].ids == ids
    && OnlyRewrites(log, from + 1, |log|)
    && n in live && n in lineage && n !in ids
    && (forall s :: s in ids && s in lineage ==> lineage[s] <= lineage[n])
  }

  /** The log from position `from` on: the submission, then at least one insertion. */
  ghost predicate InsertedAfter(log: seq<Op>, from: nat) {
    from + 1 < |log| && log[from + 1].Inserted?
  }

  lemma KeepsOthersAfterInsert(
    before: map<int, Fact>, facts: map<int, Fact>, facts': map<int, Fact>, id: int, newFrom: int)
    requires KeepsOthers(before, facts, [], newFrom) && id !in facts && id in facts' &&
      facts' == facts[id := facts'[id]]
    requires id >= newFrom
    ensures KeepsOthers(before, facts', [], newFrom)
  {
  }

  lemma RewritesLater(log: seq<Op>, log': seq<Op>, from: nat)
    requires OnlyRewrites(log, from, |log|) && log <= log' && |log'| == |log| + 1
    requires log'[|log|].Inserted? || log'[|log|].Deleted?
    ensures OnlyRewrites(log', from, |log'|)
  {
    forall j | from <= j < |log'|
      ensures log'[j].Inserted? || log'[j].Deleted?
    {
      assert j < |log| ==> log'[j] == log[j];
    }
  }

  /** The first replacement to be inserted stands for its sources. */
  lemma FirstReplaces(
    log: seq<Op>, log': seq<Op>, facts: map<int, Fact>, facts': map<int, Fact>,
    lineage: map<int, set<int>>, lineage': map<int, set<int>>, ids: seq<int>, n: int)
    requires log != [] && log[|log| - 1].Submitted? && log[|log| - 1].ids == ids
    requires log <= log' && |log'| == |log| + 1 && log'[|log|].Inserted?
    requires n !in lineage && lineage' == lineage[n := LineageOf(lineage, IdSet(ids))]
    requires n in facts' && n !in facts && forall i :: i in ids ==> i in facts
    ensures Replaces(log', facts'.Keys, lineage', ids, |log| - 1, n) && InsertedAfter(log', |log| - 1)
  {
    forall s | s in ids && s in lineage
      ensures lineage[s] <= lineage'[n]
    {
      ParentsAreInherited(lineage, IdSet(ids), s);
    }
    assert log'[|log| - 1] == log[|log| - 1];
  }

  /** Later ones do not change that. */
  lemma StillReplaces(
    log: seq<Op>, log': seq<Op>, facts: map<int, Fact>, facts': map<int, Fact>,
    lineage: map<int, set<int>>, lineage': map<int, set<int>>, ids: seq<int>, from: nat, n: int, id: int)
    requires Replaces(log, facts.Keys, lineage, ids, from, n) && InsertedAfter(log, from)
    requires log <= log' && |log'| == |log| + 1 && log'[|log|].Inserted?
    requires id !in lineage && id !in ids && id in lineage' && lineage' == lineage[id := lineage'[id]]
    requires id in facts' && facts' == facts[id := facts'[id]]
    ensures Replaces(log', facts'.Keys, lineage', ids, from, n) && InsertedAfter(log', from)
  {
    RewritesLater(log, log', from + 1);
    assert log'[from] == log[from];
  }

  lemma ReplacesAfterDelete(
    log: seq<Op>, log': seq<Op>, facts: map<int, Fact>, facts': map<int, Fact>,
    lineage: map<int, set<int>>, ids: seq<int>, from: nat, n: int, id: int)
    requires Replaces(log, facts.Keys, lineage, ids, from, n) && InsertedAfter(log, from)
    requires log <= log' && |log'| == |log| + 1 && log'[|log|].Deleted? && id in ids && facts' == facts - {id}
    ensures Replaces(log', facts'.Keys, lineage, ids, from, n) && InsertedAfter(log', from)
  {
    RewritesLater(log, log', from + 1);
    assert log'[from] == log[from];
  }

  /** What was inserted since the submission at s are candidates before the k-th. */
  ghost predicate InsertedUpTo(log: seq<Op>, s: int, texts: seq<string>, k: nat) {
    forall p :: 0 <= s < p < |log| && log[p].Inserted? ==>
      exists i :: 0 <= i < k && FromReply(log, s, p, NthUsable(texts, i))
  }

  lemma CandidateMayBeInserted(log: seq<Op>, s: int, k: nat)
    requires 0 <= s < |log| && log[s].Submitted? && OnlyRewrites(log, s + 1, |log|) && log[s].reply.Some?
    requires k < |ReplacementTexts(log[s].reply.value, 2)| < |log[s].ids| && InsertedUpTo(log, s, log[s].reply.value, k)
    ensures MayInsert(log, s, NthUsable(log[s].reply.value, k), ReplacementTexts(log[s].reply.value, 2)[k])
  {
    var texts := log[s].reply.value;
    CandidateIsUsable(log[s].ids, texts, k);
    forall p | s < p < |log| && log[p].Inserted?
      ensures exists i :: i < NthUsable(texts, k) && FromReply(log, s, p, i)
    {
      var i :| 0 <= i < k && FromReply(log, s, p, NthUsable(texts, i));
      LaterCandidatesComeLater(texts, 2, i, k);
    }
  }

  lemma InsertedUpToLater(log: seq<Op>, log': seq<Op>, s: int, texts: seq<string>, k: nat, text: string)
    requires InsertedUpTo(log, s, texts, k) && log <= log' && |log'| == |log| + 1
    requires log'[|log|].Inserted? && log'[|log|].fact.text == text && MayInsert(log, s, NthUsable(texts, k), text)
    ensures InsertedUpTo(log', s, texts, k + 1)
  {
    var op := log'[|log|];
    assert log' == log + [op];
    NewInsertFromReply(log, op, s, NthUsable(texts, k));
    forall p | s < p < |log'| && log'[p].Inserted?
      ensures exists i :: 0 <= i < k + 1 && FromReply(log', s, p, NthUsable(texts, i))
    {
      if p < |log| {
        assert log'[p] == log[p];
        var i :| 0 <= i < k && FromReply(log, s, p, NthUsable(texts, i));
        FromReplyLater(log, op, s, p, NthUsable(texts, i));
      }
    }
  }

  /** The store's facts, log and lineage at some point. */
  datatype Point = Point(facts: map<int, Fact>, log: seq<Op>, lineage: map<int, set<int>>)

  /** From a to b the facts in `inserted` were added, the first k candidates having been tried. */
  ghost predicate Replacing(
    a: Point, b: Point, ids: seq<int>, reply: seq<string>, inserted: seq<int>, k: nat, newFrom: int) {
    && a.log != [] && KeepsOthers(a.facts, b.facts, [], newFrom) && |b.facts| == |a.facts| + |inserted|
    && a.log <= b.log && OnlyRewrites(b.log, |a.log|, |b.log|) && InsertedUpTo(b.log, |a.log| - 1, reply, k)
    && (inserted == [] ==> b.facts == a.facts && b.log == a.log)
    && (inserted != [] ==> Replaces(b.log, b.facts.Keys, b.lineage, ids, |a.log| - 1, inserted[0])
                           && InsertedAfter(b.log, |a.log| - 1))
  }

  /** One more fact is stored. */
  ghost predicate AddsOne(b: Point, c: Point, ids: seq<int>, id: int, text: string, newFrom: int) {
    && id >= newFrom && id !in b.facts && id !in b.lineage && id in c.facts && c.facts == b.facts[id := c.facts[id]]
    && |c.facts| == |b.facts| + 1 && c.lineage == b.lineage[id := LineageOf(b.lineage, IdSet(ids))]
    && b.log <= c.log && |c.log| == |b.log| + 1 && c.log[|b.log|].Inserted? && c.log[|b.log|].fact.text == text
  }

  lemma ReplacingStep(
    a: Point, b: Point, c: Point, ids: seq<int>, reply: seq<string>, inserted: seq<int>, k: nat, newFrom: int,
    id: int, text: string)
    requires Replacing(a, b, ids, reply, inserted, k, newFrom) && AddsOne(b, c, ids, id, text, newFrom)
    requires a.log[|a.log| - 1].Submitted? && a.log[|a.log| - 1].ids == ids && id !in ids
    requires forall i :: i in ids ==> i in a.facts
    requires inserted == [] ==> b.lineage == a.lineage
    requires MayInsert(b.log, |a.log| - 1, NthUsable(reply, k), text)
    ensures Replacing(a, c, ids, reply, inserted + [id], k + 1, newFrom)
  {
    InsertedUpToLater(b.log, c.log, |a.log| - 1, reply, k, text);
    KeepsOthersAfterInsert(a.facts, b.facts, c.facts, id, newFrom);
    RewritesLater(b.log, c.log, |a.log|);
    if inserted == [] {
      FirstReplaces(b.log, c.log, b.facts, c.facts, b.lineage, c.lineage, ids, id);
    } else {
      StillReplaces(b.log, c.log, b.facts, c.facts, b.lineage, c.lineage, ids, |a.log| - 1, inserted[0], id);
    }
  }

  lemma ReplacingSkip(a: Point, b: Point, ids: seq<int>, reply: seq<string>, inserted: seq<int>, k: nat, newFrom: int)
    requires Replacing(a, b, ids, reply, inserted, k, newFrom)
    ensures Replacing(a, b, ids, reply, inserted, k + 1, newFrom)
  {
    forall p | |a.log| - 1 < p < |b.log| && b.log[p].Inserted?
      ensures exists i :: 0 <= i < k + 1 && FromReply(b.log, |a.log| - 1, p, NthUsable(reply, i))
    {
      var i :| 0 <= i < k && FromReply(b.log, |a.log| - 1, p, NthUsable(reply, i));
    }
  }

  lemma ReplacingStarts(a: Point, ids: seq<int>, reply: seq<string>, newFrom: int)
    requires a.log != []
    ensures Replacing(a, a, ids, reply, [], 0, newFrom)
  {
  }

  lemma NextMayBeInserted(
    a: Point, b: Point, ids: seq<int>, reply: seq<string>, inserted: seq<int>, k: nat, newFrom: int)
    requires Replacing(a, b, ids, reply, inserted, k, newFrom) && a.log[|a.log| - 1] == Submitted(ids, Some(reply))
    requires k < |ReplacementTexts(reply, 2)| < |ids|
    ensures MayInsert(b.log, |a.log| - 1, NthUsable(reply, k), ReplacementTexts(reply, 2)[k])
  {
    var s := |a.log| - 1;
    assert b.log[s] == a.log[s] && OnlyRewrites(b.log, s + 1, |b.log|) && InsertedUpTo(b.log, s, reply, k);
    CandidateMayBeInserted(b.log, s, k);
  }

  /** Inserts the replacements one by one; the first inserted one stands for the whole clique. */
  method InsertReplacements(
    store: Store, texts: seq<string>, maxReinforce: int, up: bool, ghost ids: seq<int>, ghost reply: seq<string>,
    ghost init: map<int, Fact>)
    returns (inserted: seq<int>)
    requires store.Sound(init) && maxReinforce >= 1
    requires store.log != [] && store.log[|store.log| - 1] == Submitted(ids, Some(reply))
    requires texts == ReplacementTexts(reply, 2) && |texts| < |ids|
    requires forall i :: i in ids ==> i in store.facts
    modifies store
    ensures store.Sound(init) && store.watermark == old(store.watermark) && store.nextId >= old(store.nextId)
    ensures |inserted| <= |texts| && (up ==> |inserted| == |texts|)
    ensures Replacing(old(Point(store.facts, store.log, store.lineage)), Point(store.facts, store.log, store.lineage),
      ids, reply, inserted, |texts|, old(store.nextId))
  {
    inserted := [];
    ghost var a := Point(store.facts, store.log, store.lineage);
    ghost var b := a;
    ReplacingStarts(a, ids, reply, old(store.nextId));
    for k := 0 to |texts|
      invariant store.Sound(init) && store.watermark == old(store.watermark) && store.nextId >= old(store.nextId)
      invariant |inserted| <= k && (up ==> |inserted| == k) && b == Point(store.facts, store.log, store.lineage)
      invariant inserted == [] ==> b.lineage == a.lineage
      invariant Replacing(a, b, ids, reply, inserted, k, old(store.nextId))
    {
      NextMayBeInserted(a, b, ids, reply, inserted, k, old(store.nextId));
      var newId, ok := InsertAndReinforce(store, texts[k], maxReinforce, up, ids, |a.log| - 1, NthUsable(reply, k),
        init);
      ghost var c := Point(store.facts, store.log, store.lineage);
      if ok {
        assert AddsOne(b, c, ids, newId, texts[k], old(store.nextId));
        ReplacingStep(a, b, c, ids, reply, inserted, k, old(store.nextId), newId, texts[k]);
        inserted := inserted + [newId];
      } else {
        ReplacingSkip(a, b, ids, reply, inserted, k, old(store.nextId));
      }
      b := c;
    }
  }

  /** Deletes the sources; n, already stored, stands for all of them. */
  method DeleteSources(
    store: Store, clique: seq<Fact>, up: bool, ghost from: nat, ghost n: int, ghost init: map<int, Fact>)
    returns (failed: bool)
    requires forall i, j :: 0 <= i < j < |clique| ==> clique[i].id != clique[j].id
    requires forall i :: 0 <= i < |clique| ==> clique[i].id in store.facts
    requires store.Sound(init) && InsertedAfter(store.log, from)
    requires Replaces(store.log, store.facts.Keys, store.lineage, IdsOf(clique), from, n)
    modifies store`facts, store`log
    ensures store.Sound(init)
    ensures KeepsOthers(old(store.facts), store.facts, IdsOf(clique), store.nextId)
    ensures !failed ==> |store.facts| == |old(store.facts)| - |clique|
    ensures up ==> !failed
    ensures old(store.log) <= store.log
    ensures OnlyRewrites(store.log, |old(store.log)|, |store.log|)
  {
    failed := false;
    ghost var ids := IdsOf(clique);
    for k := 0 to |clique|
      invariant store.Sound(init) && Replaces(store.log, store.facts.Keys, store.lineage, ids, from, n)
      invariant old(store.log) <= store.log && InsertedAfter(store.log, from)
      invariant OnlyRewrites(store.log, |old(store.log)|, |store.log|)
      invariant KeepsOthers(old(store.facts), store.facts, ids, store.nextId)
      invariant !failed ==> |store.facts| == |old(store.facts)| - k
      invariant up ==> !failed
      invariant forall i :: k <= i < |clique| ==> clique[i].id in store.facts
    {
      ghost var facts, log := store.facts, store.log;
      assert ids[k] == clique[k].id && clique[k].id in ids;
      var ok := store.DeleteFact(clique[k].id, up);
      if ok {
        SoundAfterDelete(init, facts, log, store.lineage, clique[k].id, n, from, from + 1);
        RewritesLater(log, store.log, |old(store.log)|);
        ReplacesAfterDelete(log, store.log, facts, store.facts, store.lineage, ids, from, n, clique[k].id);
      } else {
        failed := true;
      }
    }
  }

  /** One clique, with what the model replied: insert the replacements, and only then delete the sources.
      `consolidated` and `failed` are the two flags the caller counts by. */
  method ConsolidateSingleFactClique(
    store: Store, clique: seq<Fact>, reply: Option<seq<string>>, up: bool, ghost init: map<int, Fact>)
    returns (consolidated: bool, failed: bool)
    requires store.Sound(init) && Present(store.facts, clique)
    modifies store
    ensures store.Sound(init) && store.watermark == old(store.watermark) && store.nextId >= old(store.nextId)
    ensures KeepsOthers(old(store.facts), store.facts, IdsOf(clique), old(store.nextId))
    ensures !consolidated ==> store.facts == old(store.facts)
    ensures |clique| == 2 && consolidated && !failed ==> |store.facts| == |old(store.facts)| - 1
    ensures |store.log| > |old(store.log)| && old(store.log) <= store.log
    ensures store.log[|old(store.log)|] == Submitted(IdsOf(clique), reply)
    ensures reply.None? ==> failed && !consolidated
    ensures up && reply.Some? && 0 < |ReplacementTexts(reply.value, 2)| < |clique| ==> consolidated && !failed
    ensures reply.Some? && !(0 < |ReplacementTexts(reply.value, 2)| < |clique|) ==> !failed && !consolidated
    ensures OnlyRewrites(store.log, |old(store.log)| + 1, |store.log|)
  {
    ghost var ids := IdsOf(clique);
    SoundAfterSubmit(init, store.facts, store.log, store.lineage, ids, reply);
    store.log := store.log + [Submitted(ids, reply)];
    consolidated, failed := false, false;
    if reply.None? {
      failed := true;
      return;
    }
    var candidates := ExtractConsolidatedTexts(reply.value);
    if |candidates| == 0 || |candidates| >= |clique| {
      return;
    }
    var maxReinforce := StrongestCount(clique);
    forall i | i in ids
      ensures i in store.facts
    {
      var k :| 0 <= k < |ids| && ids[k] == i;
      assert ids[k] == clique[k].id;
    }
    var inserted := InsertReplacements(store, candidates, maxReinforce, up, ids, reply.value, init);
    if |inserted| == 0 {
      failed := true;
      return;
    }
    ghost var mid := store.facts;
    failed := DeleteSources(store, clique, up, |old(store.log)|, inserted[0], init);
    consolidated := true;
    assert KeepsOthers(old(store.facts), mid, [], old(store.nextId));
  }

  // ----- A batch -----

  ghost predicate Disjoint(a: seq<Fact>, b: seq<Fact>) {
    forall i, j :: 0 <= i < |a| && 0 <= j < |b| ==> a[i].id != b[j].id
  }

  ghost predicate BatchPresent(facts: map<int, Fact>, cliques: seq<seq<Fact>>) {
    && (forall c :: 0 <= c < |cliques| ==> Present(facts, cliques[c]) && |cliques[c]| == 2)
    && (forall c, d :: 0 <= c < d < |cliques| ==> Disjoint(cliques[c], cliques[d]))
  }

  lemma StaysPresent(before: map<int, Fact>, after: map<int, Fact>, cliques: seq<seq<Fact>>, newFrom: int)
    requires cliques != [] && BatchPresent(before, cliques)
    requires KeepsOthers(before, after, IdsOf(cliques[0]), newFrom)
    ensures BatchPresent(after, cliques[1..])
  {
    var rest := cliques[1..];
    forall c | 0 <= c < |rest|
      ensures Present(after, rest[c])
    {
      assert rest[c] == cliques[c + 1];
      assert Disjoint(cliques[0], cliques[c + 1]);
      forall i | 0 <= i < |rest[c]|
        ensures rest[c][i].id in after && after[rest[c][i].id] == rest[c][i]
      {
        var ids := IdsOf(cliques[0]);
        assert forall k :: 0 <= k < |ids| ==> ids[k] == cliques[0][k].id;
      }
    }
  }

  /** No two submissions name the same IDs. */
  ghost predicate NeverResubmitted(log: seq<Op>) {
    forall i, j :: 0 <= i < j < |log| && log[i].Submitted? && log[j].Submitted? ==>
      multiset(log[i].ids) != multiset(log[j].ids)
  }

  /** No earlier submission names the IDs of a clique in the batch. */
  ghost predicate NotYetSubmitted(log: seq<Op>, cliques: seq<seq<Fact>>) {
    forall k, c :: 0 <= k < |log| && log[k].Submitted? && 0 <= c < |cliques| ==>
      multiset(log[k].ids) != multiset(IdsOf(cliques[c]))
  }

  /** `later` extends `log` by the handling of one clique. */
  ghost predicate HandledOne(log: seq<Op>, later: seq<Op>, clique: seq<Fact>) {
    && |log| < |later| && log <= later
    && later[|log|].Submitted? && later[|log|].ids == IdsOf(clique)
    && OnlyRewrites(later, |log| + 1, |later|)
  }

  lemma DisjointIdsDiffer(a: seq<Fact>, b: seq<Fact>)
    requires a != [] && Disjoint(a, b)
    ensures multiset(IdsOf(a)) != multiset(IdsOf(b))
  {
    assert IdsOf(a)[0] == a[0].id;
    assert a[0].id in multiset(IdsOf(a));
    forall j | 0 <= j < |b|
      ensures IdsOf(b)[j] != a[0].id
    {
    }
    assert a[0].id !in multiset(IdsOf(b));
  }

  lemma ResubmissionStep(log: seq<Op>, later: seq<Op>, cliques: seq<seq<Fact>>)
    requires cliques != [] && HandledOne(log, later, cliques[0])
    requires NeverResubmitted(log) && NotYetSubmitted(log, cliques)
    requires forall c, d :: 0 <= c < d < |cliques| ==> Disjoint(cliques[c], cliques[d])
    requires cliques[0] != []
    ensures NeverResubmitted(later) && NotYetSubmitted(later, cliques[1..])
  {
    forall i, j | 0 <= i < j < |later| && later[i].Submitted? && later[j].Submitted?
      ensures multiset(later[i].ids) != multiset(later[j].ids)
    {
      assert j <= |log| && later[i] == log[i];
    }
    var rest := cliques[1..];
    forall k, c | 0 <= k < |later| && later[k].Submitted? && 0 <= c < |rest|
      ensures multiset(later[k].ids) != multiset(IdsOf(rest[c]))
    {
      assert rest[c] == cliques[c + 1];
      if k < |log| {
        assert later[k] == log[k];
      } else {
        DisjointIdsDiffer(cliques[0], cliques[c + 1]);
      }
    }
  }

  /** Everything submitted since position `from` is a clique of the batch. */
  ghost predicate SubmittedFrom(log: seq<Op>, from: nat, cliques: seq<seq<Fact>>) {
    forall k :: from <= k < |log| && log[k].Submitted? ==>
      exists c :: 0 <= c < |cliques| && log[k].ids == IdsOf(cliques[c])
  }

  /** What a batch keeps while cliques n and later are still to be handled; `base` is the log it started from. */
  ghost predicate BatchState(facts: map<int, Fact>, log: seq<Op>, base: seq<Op>, cliques: seq<seq<Fact>>, n: nat)
    requires n <= |cliques|
  {
    && BatchPresent(facts, cliques[n..]) && NotYetSubmitted(log, cliques[n..])
    && NeverResubmitted(log) && base <= log
    && SubmittedFrom(log, |base|, cliques)
    && (forall k :: |base| <= k < |log| ==> !log[k].Read?)
  }

  lemma SubmittedFromStep(log: seq<Op>, later: seq<Op>, from: nat, cliques: seq<seq<Fact>>, n: nat)
    requires n < |cliques| && SubmittedFrom(log, from, cliques) && HandledOne(log, later, cliques[n])
    ensures SubmittedFrom(later, from, cliques)
  {
    forall k | from <= k < |later| && later[k].Submitted?
      ensures exists c :: 0 <= c < |cliques| && later[k].ids == IdsOf(cliques[c])
    {
      if k < |log| {
        assert later[k] == log[k];
        var c :| 0 <= c < |cliques| && log[k].ids == IdsOf(cliques[c]);
      } else {
        assert k == |log|;
      }
    }
  }

  lemma BatchStep(
    facts: map<int, Fact>, facts': map<int, Fact>, log: seq<Op>, log': seq<Op>, base: seq<Op>,
    cliques: seq<seq<Fact>>, n: nat, newFrom: int)
    requires n < |cliques| && BatchState(facts, log, base, cliques, n)
    requires HandledOne(log, log', cliques[n])
    requires KeepsOthers(facts, facts', IdsOf(cliques[n]), newFrom)
    ensures BatchState(facts', log', base, cliques, n + 1)
  {
    var rest := cliques[n..];
    assert rest[0] == cliques[n] && rest[1..] == cliques[n + 1..];
    StaysPresent(facts, facts', rest, newFrom);
    ResubmissionStep(log, log', rest);
    SubmittedFromStep(log, log', |base|, cliques, n);
    forall k | |base| <= k < |log'|
      ensures !log'[k].Read?
    {
      assert k < |log| ==> log'[k] == log[k];
    }
  }

  ghost predicate IsSubmitted(log: seq<Op>, ids: seq<int>) {
    exists k :: 0 <= k < |log| && log[k].Submitted? && log[k].ids == ids
  }

  ghost predicate AllSubmitted(log: seq<Op>, cliques: seq<seq<Fact>>) {
    forall c :: 0 <= c < |cliques| ==> IsSubmitted(log, IdsOf(cliques[c]))
  }

  lemma AllSubmittedStep(log: seq<Op>, later: seq<Op>, cliques: seq<seq<Fact>>, n: nat)
    requires n < |cliques| && AllSubmitted(log, cliques[..n]) && HandledOne(log, later, cliques[n])
    ensures AllSubmitted(later, cliques[..n + 1])
  {
    var shorter, longer := cliques[..n], cliques[..n + 1];
    forall c | 0 <= c < |longer|
      ensures IsSubmitted(later, IdsOf(longer[c]))
    {
      if c < n {
        assert shorter[c] == longer[c] && IsSubmitted(log, IdsOf(shorter[c]));
        var k :| 0 <= k < |log| && log[k].Submitted? && log[k].ids == IdsOf(shorter[c]);
        assert later[k] == log[k];
      } else {
        assert later[|log|].Submitted? && later[|log|].ids == IdsOf(cliques[n]);
      }
    }
  }

  method ConsolidateCliqueBatch(store: Store, cliques: seq<seq<Fact>>, up: bool, ghost init: map<int, Fact>)
    returns (count: nat, failed: bool, cancelled: bool)
    requires store.Sound(init) && BatchPresent(store.facts, cliques)
    requires NeverResubmitted(store.log) && NotYetSubmitted(store.log, cliques)
    modifies store
    ensures store.Sound(init) && store.watermark == old(store.watermark) && store.nextId >= old(store.nextId)
    ensures NeverResubmitted(store.log) && old(store.log) <= store.log
    ensures SubmittedFrom(store.log, |old(store.log)|, cliques)
    ensures !cancelled ==> AllSubmitted(store.log, cliques)
    ensures up ==> !cancelled && !failed
    ensures forall k :: |old(store.log)| <= k < |store.log| ==> !store.log[k].Read?
    ensures !failed ==> |store.facts| == |old(store.facts)| - count
    ensures count == 0 ==> store.facts == old(store.facts)
  {
    count, failed, cancelled := 0, false, false;
    assert cliques[0..] == cliques;
    for n := 0 to |cliques|
      invariant store.Sound(init) && store.watermark == old(store.watermark) && store.nextId >= old(store.nextId)
      invariant BatchState(store.facts, store.log, old(store.log), cliques, n)
      invariant !cancelled && AllSubmitted(store.log, cliques[..n]) && (up ==> !failed)
      invariant !failed ==> |store.facts| == |old(store.facts)| - count
      invariant count == 0 ==> store.facts == old(store.facts)
    {
      cancelled := *;
      cancelled := cancelled && !up;
      if cancelled {
        return;
      }
      ghost var facts, log, nextId := store.facts, store.log, store.nextId;
      assert cliques[n..][0] == cliques[n];
      var reply := AskModel(up);
      var consolidated, cliqueFailed := ConsolidateSingleFactClique(store, cliques[n], reply, up, init);
      BatchStep(facts, store.facts, log, store.log, old(store.log), cliques, n, nextId);
      AllSubmittedStep(log, store.log, cliques, n);
      if cliqueFailed {
        failed := true;
      }
      if consolidated {
        count := count + 1;
      }
    }
    assert cliques[..|cliques|] == cliques;
  }

  // ----- The run -----

  /** The cliques found among the stored facts make a batch: pairs, present and disjoint. */
  lemma FoundIsBatch(sim: (Vec, Vec) -> real, wm: int, facts: map<int, Fact>, all: seq<Fact>)
    requires Symmetric(sim) && UniqueBy(all, FactId())
    requires forall f :: f in all ==> f.id in facts && facts[f.id] == f
    ensures BatchPresent(facts, FoundCliques(FactSpace(sim), CONSOLIDATION_LIMITS, wm, all))
  {
    var sp := FactSpace(sim);
    var found := FoundCliques(sp, CONSOLIDATION_LIMITS, wm, all);
    GroupIsExact(sp, all);
    forall c | 0 <= c < |found|
      ensures Present(facts, found[c]) && |found[c]| == 2
    {
      CliquesAreSound(sp, CONSOLIDATION_LIMITS, wm, all, c);
      forall i | 0 <= i < |found[c]|
        ensures found[c][i].id in facts && facts[found[c][i].id] == found[c][i]
      {
        assert found[c][i] in found[c];
      }
      forall i, j | 0 <= i < j < |found[c]|
        ensures found[c][i].id != found[c][j].id
      {
        assert sp.idOf(found[c][i]) < sp.idOf(found[c][j]);
      }
    }
    forall c, d | 0 <= c < d < |found|
      ensures Disjoint(found[c], found[d])
    {
      CliquesAreSound(sp, CONSOLIDATION_LIMITS, wm, all, d);
      IdsApart(sp, found[c], found[d]);
    }
  }

  lemma IdsApart(sp: Space<Fact>, a: seq<Fact>, b: seq<Fact>)
    requires sp.idOf == FactId() && Ids(sp, a) !! Ids(sp, b)
    ensures Disjoint(a, b)
  {
    forall i, j | 0 <= i < |a| && 0 <= j < |b|
      ensures a[i].id != b[j].id
    {
      assert sp.idOf(a[i]) in Ids(sp, a) && sp.idOf(b[j]) in Ids(sp, b);
    }
  }

  ghost predicate AllTried(log: seq<Op>, tried: set<string>) {
    forall k :: 0 <= k < |log| && log[k].Submitted? ==> CliqueSignature(log[k].ids) in tried
  }

  /** A signature tried before, or that of a clique still to be tried. */
  ghost predicate KnownOrUntried(before: set<string>, untried: seq<seq<Fact>>, sig: string) {
    sig in before || exists c :: 0 <= c < |untried| && CliqueSignature(IdsOf(untried[c])) == sig
  }

  ghost predicate AllKnown(before: set<string>, tried: set<string>, untried: seq<seq<Fact>>) {
    forall sig {:trigger KnownOrUntried(before, untried, sig)} :: sig in tried ==> KnownOrUntried(before, untried, sig)
  }

  lemma AllKnownStep(before: set<string>, tried: set<string>, untried: seq<seq<Fact>>, clique: seq<Fact>)
    requires AllKnown(before, tried, untried)
    ensures AllKnown(before, tried + {CliqueSignature(IdsOf(clique))}, untried + [clique])
  {
    var more := untried + [clique];
    forall sig | sig in tried + {CliqueSignature(IdsOf(clique))}
      ensures KnownOrUntried(before, more, sig)
    {
      if sig in tried {
        assert KnownOrUntried(before, untried, sig);
        if sig !in before {
          var c :| 0 <= c < |untried| && CliqueSignature(IdsOf(untried[c])) == sig;
          assert more[c] == untried[c];
        }
      } else {
        assert more[|untried|] == clique;
      }
    }
  }

  /** Some submission has this signature. */
  ghost predicate Tried(log: seq<Op>, sig: string) {
    exists k :: 0 <= k < |log| && log[k].Submitted? && CliqueSignature(log[k].ids) == sig
  }

  ghost predicate AllInLog(log: seq<Op>, tried: set<string>) {
    forall sig {:trigger Tried(log, sig)} :: sig in tried ==> Tried(log, sig)
  }

  lemma TriedLater(log: seq<Op>, later: seq<Op>, sig: string)
    requires Tried(log, sig) && log <= later
    ensures Tried(later, sig)
  {
    var k :| 0 <= k < |log| && log[k].Submitted? && CliqueSignature(log[k].ids) == sig;
    assert later[k] == log[k];
  }

  /** After a batch that was not cancelled, every signature that counts as tried was submitted. */
  lemma AllInLogAfter(log: seq<Op>, later: seq<Op>, before: set<string>, tried: set<string>, untried: seq<seq<Fact>>)
    requires AllInLog(log, before) && log <= later && AllKnown(before, tried, untried) && AllSubmitted(later, untried)
    ensures AllInLog(later, tried)
  {
    forall sig | sig in tried
      ensures Tried(later, sig)
    {
      assert KnownOrUntried(before, untried, sig);
      if sig in before {
        assert Tried(log, sig);
        TriedLater(log, later, sig);
      } else {
        var c :| 0 <= c < |untried| && CliqueSignature(IdsOf(untried[c])) == sig;
        assert IsSubmitted(later, IdsOf(untried[c]));
        var k :| 0 <= k < |later| && later[k].Submitted? && later[k].ids == IdsOf(untried[c]);
      }
    }
  }

  // ----- What is submitted -----

  /** The cliques that the finder emits among some rows. */
  function Emitted(sim: (Vec, Vec) -> real, wm: int, rows: seq<Fact>): seq<seq<Fact>> {
    FoundCliques(FactSpace(sim), CONSOLIDATION_LIMITS, wm, rows)
  }

  ghost predicate IsEmitted(sim: (Vec, Vec) -> real, wm: int, rows: seq<Fact>, ids: seq<int>) {
    exists c :: 0 <= c < |Emitted(sim, wm, rows)| && ids == IdsOf(Emitted(sim, wm, rows)[c])
  }

  /** Two of the rows, at least 0.75 similar, the later one above a positive watermark. */
  ghost predicate ClosePair(sim: (Vec, Vec) -> real, wm: int, f: Fact, g: Fact) {
    f.id < g.id && sim(f.emb, g.emb) >= 0.75 && (wm > 0 ==> g.id > wm)
  }

  ghost predicate IsClosePair(sim: (Vec, Vec) -> real, wm: int, rows: seq<Fact>, ids: seq<int>) {
    exists f, g :: f in rows && g in rows && ids == [f.id, g.id] && ClosePair(sim, wm, f, g)
  }

  /** r is the last read before position k. */
  ghost predicate ReadBefore(log: seq<Op>, r: int, k: int) {
    0 <= r < k <= |log| && log[r].Read? && forall j :: r < j < k ==> !log[j].Read?
  }

  /** The submission at k is a clique that the finder emits among the facts of the read before it. */
  ghost predicate SubmissionOk(sim: (Vec, Vec) -> real, wm: int, log: seq<Op>, k: int)
    requires 0 <= k < |log| && log[k].Submitted?
  {
    exists r :: ReadBefore(log, r, k) && IsEmitted(sim, wm, log[r].rows, log[k].ids) &&
      IsClosePair(sim, wm, log[r].rows, log[k].ids)
  }

  ghost predicate SubmissionsOk(sim: (Vec, Vec) -> real, wm: int, log: seq<Op>) {
    forall k :: 0 <= k < |log| && log[k].Submitted? ==> SubmissionOk(sim, wm, log, k)
  }

  lemma GoodPairIsClose(sim: (Vec, Vec) -> real, wm: int, rows: seq<Fact>, group: seq<Fact>, clique: seq<Fact>)
    requires GoodClique(FactSpace(sim), CONSOLIDATION_LIMITS, wm, group, clique)
    requires forall f :: f in group ==> f in rows
    ensures IsClosePair(sim, wm, rows, IdsOf(clique))
  {
    var sp := FactSpace(sim);
    var f, g := clique[0], clique[1];
    assert f in clique && g in clique && sp.idOf(f) < sp.idOf(g);
    assert Linked(sp, CONSOLIDATION_LIMITS, f, g);
    assert IdsOf(clique) == [f.id, g.id];
    assert forall m :: m in clique ==> m == f || m == g;
    assert ClosePair(sim, wm, f, g);
  }

  lemma EmittedIsClosePair(sim: (Vec, Vec) -> real, wm: int, rows: seq<Fact>, c: nat)
    requires Symmetric(sim) && UniqueBy(rows, FactId()) && c < |Emitted(sim, wm, rows)|
    ensures IsClosePair(sim, wm, rows, IdsOf(Emitted(sim, wm, rows)[c]))
  {
    var sp := FactSpace(sim);
    CliquesAreSound(sp, CONSOLIDATION_LIMITS, wm, rows, c);
    GroupIsExact(sp, rows);
    GoodPairIsClose(sim, wm, rows, Group(sp, rows), Emitted(sim, wm, rows)[c]);
  }

  lemma SubmissionOkLater(sim: (Vec, Vec) -> real, wm: int, log: seq<Op>, later: seq<Op>, k: nat)
    requires k < |log| && log[k].Submitted? && SubmissionOk(sim, wm, log, k) && log <= later
    ensures SubmissionOk(sim, wm, later, k)
  {
    var r :| ReadBefore(log, r, k) && IsEmitted(sim, wm, log[r].rows, log[k].ids) &&
      IsClosePair(sim, wm, log[r].rows, log[k].ids);
    assert forall j :: 0 <= j < |log| ==> later[j] == log[j];
    assert ReadBefore(later, r, k);
  }

  /** A pass reads, and then submits only what the finder emits among the rows. */
  lemma SubmissionsStayOk(
    sim: (Vec, Vec) -> real, wm: int, log: seq<Op>, read: Op, later: seq<Op>, untried: seq<seq<Fact>>)
    requires Symmetric(sim) && SubmissionsOk(sim, wm, log)
    requires FollowsRead(log, read, later, untried) && UniqueBy(read.rows, FactId())
    requires forall c :: 0 <= c < |untried| ==> untried[c] in Emitted(sim, wm, read.rows)
    ensures SubmissionsOk(sim, wm, later)
  {
    assert log <= later && later[|log|] == read;
    forall k | 0 <= k < |later| && later[k].Submitted?
      ensures SubmissionOk(sim, wm, later, k)
    {
      if k < |log| {
        assert later[k] == log[k];
        SubmissionOkLater(sim, wm, log, later, k);
      } else {
        var c :| 0 <= c < |untried| && later[k].ids == IdsOf(untried[c]);
        var emitted := Emitted(sim, wm, read.rows);
        var d :| 0 <= d < |emitted| && emitted[d] == untried[c];
        EmittedIsClosePair(sim, wm, read.rows, d);
        assert ReadBefore(later, |log|, k);
      }
    }
  }

  /** Every clique among the facts of the last read was submitted in this run. */
  ghost predicate LastReadExhausted(sim: (Vec, Vec) -> real, wm: int, log: seq<Op>) {
    exists r :: ReadBefore(log, r, |log|) && RowsExhausted(sim, wm, log[r].rows, log)
  }

  ghost predicate RowsExhausted(sim: (Vec, Vec) -> real, wm: int, rows: seq<Fact>, log: seq<Op>) {
    forall d :: 0 <= d < |Emitted(sim, wm, rows)| ==> Tried(log, CliqueSignature(IdsOf(Emitted(sim, wm, rows)[d])))
  }

  lemma ExhaustedAfter(
    sim: (Vec, Vec) -> real, wm: int, log: seq<Op>, read: Op, later: seq<Op>, before: set<string>,
    untried: seq<seq<Fact>>)
    requires FollowsRead(log, read, later, untried) && FromEmitted(Emitted(sim, wm, read.rows), before, untried)
    requires AllInLog(log, before) && AllSubmitted(later, untried)
    ensures LastReadExhausted(sim, wm, later)
  {
    assert log <= later && later[|log|] == read;
    var found := Emitted(sim, wm, read.rows);
    forall d | 0 <= d < |found|
      ensures Tried(later, CliqueSignature(IdsOf(found[d])))
    {
      var sig := CliqueSignature(IdsOf(found[d]));
      assert KnownOrUntried(before, untried, sig);
      if sig in before {
        assert Tried(log, sig);
        TriedLater(log, later, sig);
      } else {
        var c :| 0 <= c < |untried| && CliqueSignature(IdsOf(untried[c])) == sig;
        assert IsSubmitted(later, IdsOf(untried[c]));
        var k :| 0 <= k < |later| && later[k].Submitted? && later[k].ids == IdsOf(untried[c]);
      }
    }
    assert ReadBefore(later, |log|, |later|);
  }

  /** Keeps the cliques whose signature is new, and remembers it. */
  method KeepUntried(found: seq<seq<Fact>>, before: set<string>, ghost facts: map<int, Fact>)
    returns (untried: seq<seq<Fact>>, tried: set<string>)
    requires BatchPresent(facts, found)
    ensures BatchPresent(facts, untried) && before <= tried && AllKnown(before, tried, untried)
    ensures forall c :: 0 <= c < |untried| ==> CliqueSignature(IdsOf(untried[c])) in tried - before
    ensures forall c :: 0 <= c < |untried| ==> untried[c] in found
    ensures forall d :: 0 <= d < |found| ==> KnownOrUntried(before, untried, CliqueSignature(IdsOf(found[d])))
  {
    untried, tried := [], before;
    for n := 0 to |found|
      invariant Kept(facts, found, n, untried) && before <= tried && AllKnown(before, tried, untried)
      invariant forall c :: 0 <= c < |untried| ==> CliqueSignature(IdsOf(untried[c])) in tried - before
      invariant forall d :: 0 <= d < n ==> CliqueSignature(IdsOf(found[d])) in tried
    {
      var sig := CliqueSignature(IdsOf(found[n]));
      KeptStep(facts, found, n, untried);
      if sig !in tried {
        AllKnownStep(before, tried, untried, found[n]);
        tried := tried + {sig};
        untried := untried + [found[n]];
      }
    }
    assert forall d :: 0 <= d < |found| ==> KnownOrUntried(before, untried, CliqueSignature(IdsOf(found[d])));
  }

  /** What is kept comes from the first n cliques found. */
  ghost predicate Kept(facts: map<int, Fact>, found: seq<seq<Fact>>, n: nat, untried: seq<seq<Fact>>) {
    && BatchPresent(facts, untried)
    && (forall c, d :: 0 <= c < |untried| && n <= d < |found| ==> Disjoint(untried[c], found[d]))
    && (forall c :: 0 <= c < |untried| ==> untried[c] in found)
  }

  lemma KeptStep(facts: map<int, Fact>, found: seq<seq<Fact>>, n: nat, untried: seq<seq<Fact>>)
    requires BatchPresent(facts, found) && n < |found| && Kept(facts, found, n, untried)
    ensures Kept(facts, found, n + 1, untried) && Kept(facts, found, n + 1, untried + [found[n]])
  {
  }

  lemma UntriedIsNotSubmitted(log: seq<Op>, tried: set<string>, untried: seq<seq<Fact>>)
    requires AllTried(log, tried)
    requires forall c :: 0 <= c < |untried| ==> CliqueSignature(IdsOf(untried[c])) !in tried
    ensures NotYetSubmitted(log, untried)
  {
    forall k, c | 0 <= k < |log| && log[k].Submitted? && 0 <= c < |untried|
      ensures multiset(log[k].ids) != multiset(IdsOf(untried[c]))
    {
      SignatureIdentifiesIds(log[k].ids, IdsOf(untried[c]));
    }
  }

  lemma StillAllTried(base: seq<Op>, log: seq<Op>, tried: set<string>, untried: seq<seq<Fact>>)
    requires AllTried(base, tried) && base <= log && SubmittedFrom(log, |base|, untried)
    requires forall c :: 0 <= c < |untried| ==> CliqueSignature(IdsOf(untried[c])) in tried
    ensures AllTried(log, tried)
  {
    forall k | 0 <= k < |log| && log[k].Submitted?
      ensures CliqueSignature(log[k].ids) in tried
    {
      if k < |base| {
        assert log[k] == base[k];
      } else {
        var c :| 0 <= c < |untried| && log[k].ids == IdsOf(untried[c]);
      }
    }
  }

  method MaxFactId(facts: seq<Fact>, prevMax: int) returns (maxId: int)
    ensures maxId >= prevMax && forall f :: f in facts ==> f.id <= maxId
    ensures maxId == prevMax || exists f :: f in facts && f.id == maxId
  {
    maxId := prevMax;
    for n := 0 to |facts|
      invariant maxId >= prevMax && forall k :: 0 <= k < n ==> facts[k].id <= maxId
      invariant maxId == prevMax || exists f :: f in facts && f.id == maxId
    {
      if facts[n].id > maxId {
        maxId := facts[n].id;
        assert facts[n] in facts;
      }
    }
  }

  /** Every ID any pass has read is at most `bound`. */
  ghost predicate ReadsUpTo(log: seq<Op>, bound: int) {
    forall k, id :: 0 <= k < |log| && log[k].Read? && id in log[k].live ==> id <= bound
  }

  ghost predicate HasRead(log: seq<Op>) {
    exists k :: 0 <= k < |log| && log[k].Read?
  }

  /** Facts above a bound on all reads were inserted after the last one. */
  lemma {:induction false} AboveAllReads(init: set<int>, log: seq<Op>, bound: int, id: int)
    requires ReadsUpTo(log, bound) && HasRead(log) && Recent(init, log, id) && id > bound
    ensures InsertedLast(log, id)
  {
    var front, last := log[..|log| - 1], log[|log| - 1];
    if last.Inserted? && last.id == id {
      assert log[|log| - 1] == last;
    } else {
      var k :| 0 <= k < |log| && log[k].Read?;
      assert !last.Read?;
      assert forall j :: 0 <= j < |front| ==> front[j] == log[j];
      assert front[k].Read?;
      AboveAllReads(init, front, bound, id);
      var i :| 0 <= i < |front| && front[i].Inserted? && front[i].id == id && forall j :: i < j < |front| ==>
        !front[j].Read?;
      assert log[i] == front[i];
    }
  }

  lemma RestIsInsertedLast(init: set<int>, live: set<int>, log: seq<Op>, bound: int)
    requires ReadsUpTo(log, bound) && HasRead(log) && AllRecent(init, live, log)
    ensures forall id :: id in live && id > bound ==> InsertedLast(log, id)
  {
    forall id | id in live && id > bound
      ensures InsertedLast(log, id)
    {
      assert Recent(init, log, id);
      AboveAllReads(init, log, bound, id);
    }
  }

  datatype PassResult = ReadError | Converged | Ran(count: nat, failed: bool) | Cancelled(count: nat, failed: bool)

  /** What the passes keep about the history, beside its soundness. */
  ghost predicate History(sim: (Vec, Vec) -> real, wm: int, log: seq<Op>, bound: int) {
    NeverResubmitted(log) && SubmissionsOk(sim, wm, log) && ReadsUpTo(log, bound)
  }

  /** Reads all facts and raises the largest ID seen. */
  method ReadFacts(store: Store, prevMax: int, up: bool, ghost init: map<int, Fact>)
    returns (all: Option<seq<Fact>>, maxFactId: int)
    requires store.Sound(init) && ReadsUpTo(store.log, prevMax)
    modifies store`log
    ensures store.Sound(init) && maxFactId >= prevMax && ReadsUpTo(store.log, maxFactId)
    ensures up ==> all.Some?
    ensures all.None? ==> store.log == old(store.log) && maxFactId == prevMax
    ensures all.Some? ==>
      && store.log == old(store.log) + [Read(all.value, store.facts.Keys)] && UniqueBy(all.value, FactId())
      && forall f :: f in all.value <==> f.id in store.facts && store.facts[f.id] == f
  {
    maxFactId, all := prevMax, None;
    var readable: bool := *;
    if readable || up {
      var rows := store.AllFacts();
      SoundAfterRead(init, store.facts, old(store.log), store.lineage, rows);
      maxFactId := MaxFactId(rows, prevMax);
      ReadsStayUpTo(old(store.log), prevMax, maxFactId);
      ReadIsBounded(old(store.log), store.facts, rows, maxFactId);
      all := Some(rows);
    }
  }

  lemma ReadsStayUpTo(log: seq<Op>, low: int, high: int)
    requires ReadsUpTo(log, low) && low <= high
    ensures ReadsUpTo(log, high)
  {
  }

  /** The emitted cliques that were not tried before. */
  method FindUntried(sim: (Vec, Vec) -> real, wm: int, all: seq<Fact>, before: set<string>, ghost facts: map<int, Fact>)
    returns (untried: seq<seq<Fact>>, tried: set<string>)
    requires Symmetric(sim) && UniqueBy(all, FactId())
    requires forall f :: f in all ==> f.id in facts && facts[f.id] == f
    ensures BatchPresent(facts, untried) && before <= tried && AllKnown(before, tried, untried)
    ensures forall c :: 0 <= c < |untried| ==> CliqueSignature(IdsOf(untried[c])) in tried - before
    ensures FromEmitted(Emitted(sim, wm, all), before, untried)
  {
    var found := FindCompleteLinkageCliques(FactSpace(sim), CONSOLIDATION_LIMITS, wm, all);
    FoundIsBatch(sim, wm, facts, all);
    untried, tried := KeepUntried(found, before, facts);
  }

  /** Untried cliques are among the emitted ones, and each emitted one has its signature known or is to be tried. */
  ghost predicate FromEmitted(found: seq<seq<Fact>>, before: set<string>, untried: seq<seq<Fact>>) {
    && (forall c :: 0 <= c < |untried| ==> untried[c] in found)
    && (forall d :: 0 <= d < |found| ==> KnownOrUntried(before, untried, CliqueSignature(IdsOf(found[d]))))
  }

  /** Nothing but rewrites and submissions of `untried` since the read that followed `log`. */
  ghost predicate FollowsRead(log: seq<Op>, read: Op, later: seq<Op>, untried: seq<seq<Fact>>) {
    && read.Read? && log + [read] <= later && SubmittedFrom(later, |log| + 1, untried)
    && forall k :: |log| < k < |later| ==> !later[k].Read?
  }

  lemma JustRead(log: seq<Op>, read: Op, tried: set<string>, untried: seq<seq<Fact>>)
    requires read.Read? && NeverResubmitted(log) && AllTried(log, tried)
    ensures FollowsRead(log, read, log + [read], untried)
    ensures NeverResubmitted(log + [read]) && AllTried(log + [read], tried)
  {
  }

  /** Submits the untried cliques of a pass that has just read. */
  method RunBatch(
    store: Store, untried: seq<seq<Fact>>, up: bool, ghost log: seq<Op>, ghost read: Op, ghost before: set<string>,
    ghost tried: set<string>,
    ghost bound: int, ghost init: map<int, Fact>)
    returns (count: nat, failed: bool, cancelled: bool)
    requires store.Sound(init) && BatchPresent(store.facts, untried) && read.Read? && store.log == log + [read]
    requires NeverResubmitted(log) && AllTried(log, before) && before <= tried && ReadsUpTo(store.log, bound)
    requires forall c :: 0 <= c < |untried| ==> CliqueSignature(IdsOf(untried[c])) in tried - before
    modifies store
    ensures store.Sound(init) && store.watermark == old(store.watermark)
    ensures NeverResubmitted(store.log) && AllTried(store.log, tried) && ReadsUpTo(store.log, bound)
    ensures FollowsRead(log, read, store.log, untried)
    ensures !cancelled ==> AllSubmitted(store.log, untried)
    ensures up ==> !cancelled && !failed
    ensures !failed ==> |store.facts| == |old(store.facts)| - count
    ensures count == 0 ==> store.facts == old(store.facts)
  {
    JustRead(log, read, before, untried);
    UntriedIsNotSubmitted(store.log, before, untried);
    ghost var log1 := store.log;
    count, failed, cancelled := ConsolidateCliqueBatch(store, untried, up, init);
    StillAllTried(log1, store.log, tried, untried);
    ReadsStayBounded(log1, store.log, bound);
  }

  /** One pass over the store. */
  method RunPass(
    store: Store, sim: (Vec, Vec) -> real, wm: int, prevMax: int, triedBefore: set<string>, up: bool,
    ghost init: map<int, Fact>)
    returns (result: PassResult, maxFactId: int, tried: set<string>)
    requires store.Sound(init) && Symmetric(sim) && History(sim, wm, store.log, prevMax)
    requires AllTried(store.log, triedBefore) && AllInLog(store.log, triedBefore)
    modifies store
    ensures store.Sound(init) && store.watermark == old(store.watermark)
    ensures maxFactId >= prevMax && History(sim, wm, store.log, maxFactId)
    ensures AllTried(store.log, tried)
    ensures up ==> !result.ReadError? && !result.Cancelled? && (result.Ran? ==> !result.failed)
    ensures result.ReadError? ==> store.log == old(store.log)
    ensures !result.ReadError? && !result.Cancelled? ==>
      AllInLog(store.log, tried) && LastReadExhausted(sim, wm, store.log)
    ensures result.ReadError? || result.Converged? ==> store.facts == old(store.facts)
    ensures result.Ran? || result.Cancelled? ==>
      && (!result.failed ==> |store.facts| == |old(store.facts)| - result.count)
      && (result.count == 0 ==> store.facts == old(store.facts))
  {
    tried := triedBefore;
    ghost var log := store.log;
    var all;
    all, maxFactId := ReadFacts(store, prevMax, up, init);
    if all.None? {
      return ReadError, maxFactId, tried;
    }
    ghost var read := Read(all.value, store.facts.Keys);
    var untried;
    untried, tried := FindUntried(sim, wm, all.value, triedBefore, store.facts);
    if |all.value| == 0 || |untried| == 0 {
      NothingToTry(sim, wm, all.value);
      JustRead(log, read, triedBefore, untried);
      PassEnds(sim, wm, log, read, store.log, triedBefore, tried, untried);
      return Converged, maxFactId, tried;
    }
    var count, failed, cancelled := RunBatch(store, untried, up, log, read, triedBefore, tried, maxFactId, init);
    if cancelled {
      SubmissionsStayOk(sim, wm, log, read, store.log, untried);
      return Cancelled(count, failed), maxFactId, tried;
    }
    PassEnds(sim, wm, log, read, store.log, triedBefore, tried, untried);
    return Ran(count, failed), maxFactId, tried;
  }

  /** Without facts there are no cliques. */
  lemma NothingToTry(sim: (Vec, Vec) -> real, wm: int, all: seq<Fact>)
    ensures all == [] ==> Emitted(sim, wm, all) == []
  {
  }

  lemma PassEnds(
    sim: (Vec, Vec) -> real, wm: int, log: seq<Op>, read: Op, later: seq<Op>,
    before: set<string>, tried: set<string>, untried: seq<seq<Fact>>)
    requires Symmetric(sim) && SubmissionsOk(sim, wm, log)
    requires FollowsRead(log, read, later, untried) && UniqueBy(read.rows, FactId())
    requires FromEmitted(Emitted(sim, wm, read.rows), before, untried)
    requires AllInLog(log, before) && AllKnown(before, tried, untried) && AllSubmitted(later, untried)
    ensures SubmissionsOk(sim, wm, later) && AllInLog(later, tried) && LastReadExhausted(sim, wm, later)
  {
    SubmissionsStayOk(sim, wm, log, read, later, untried);
    ExhaustedAfter(sim, wm, log, read, later, before, untried);
    assert log <= log + [read];
    AllInLogAfter(log, later, before, tried, untried);
  }

  lemma ReadIsBounded(log: seq<Op>, facts: map<int, Fact>, all: seq<Fact>, bound: int)
    requires forall id :: id in facts ==> facts[id].id == id
    requires forall f :: f in all <==> f.id in facts && facts[f.id] == f
    requires forall f :: f in all ==> f.id <= bound
    requires ReadsUpTo(log, bound)
    ensures ReadsUpTo(log + [Read(all, facts.Keys)], bound)
  {
    var log' := log + [Read(all, facts.Keys)];
    forall k, id | 0 <= k < |log'| && log'[k].Read? && id in log'[k].live
      ensures id <= bound
    {
      if k < |log| {
        assert log'[k] == log[k];
      } else {
        assert facts[id] in all;
      }
    }
  }

  lemma ReadsStayBounded(log: seq<Op>, later: seq<Op>, bound: int)
    requires ReadsUpTo(log, bound) && log <= later
    requires forall k :: |log| <= k < |later| ==> !later[k].Read?
    ensures ReadsUpTo(later, bound)
  {
    forall k, id | 0 <= k < |later| && later[k].Read? && id in later[k].live
      ensures id <= bound
    {
      assert later[k] == log[k];
    }
  }

  /** At the start of a run every fact stands for itself. */
  ghost function SelfLineage(ids: set<int>): (lineage: map<int, set<int>>)
    ensures lineage.Keys == ids
  {
    map id | id in ids :: {id}
  }

  lemma FreshIsCovered(facts: map<int, Fact>)
    ensures Covered(facts.Keys, facts.Keys, SelfLineage(facts.Keys))
  {
    var lineage := SelfLineage(facts.Keys);
    forall o | o in facts.Keys
      ensures exists f :: f in facts.Keys && f in lineage && o in lineage[f]
    {
      assert o in lineage && o in lineage[o];
    }
  }

  lemma FreshIsAsLogged(facts: map<int, Fact>)
    requires forall id :: id in facts ==> facts[id].id == id
    ensures StoredAsLogged(facts, facts, [])
  {
    forall id | id in facts
      ensures Genuine(facts, [], facts[id])
    {
    }
  }

  lemma FreshRunIsSound(facts: map<int, Fact>)
    requires forall id :: id in facts ==> facts[id].id == id
    ensures SoundRun(facts, facts, [], SelfLineage(facts.Keys))
  {
    FreshIsCovered(facts);
    FreshIsAsLogged(facts);
  }

  /** Opens the history of a run. */
  ghost method StartRun(store: Store)
    requires store.Valid()
    modifies store`log, store`lineage
    ensures store.Sound(store.facts) && store.log == []
  {
    store.log, store.lineage := [], SelfLineage(store.facts.Keys);
    FreshRunIsSound(store.facts);
  }

  /** Up to MAX_PASSES passes, until nothing changes or something fails. */
  method RunPasses(store: Store, sim: (Vec, Vec) -> real, wm: int, up: bool, ghost init: map<int, Fact>)
    returns (total: nat, error: bool, failed: bool, maxFactId: int)
    requires store.Sound(init) && Symmetric(sim) && store.log == [] && store.facts == init
    modifies store
    ensures store.Sound(init) && store.watermark == old(store.watermark)
    ensures History(sim, wm, store.log, maxFactId)
    ensures !error ==> LastReadExhausted(sim, wm, store.log)
    ensures up ==> !error && !failed
    ensures !failed ==> |store.facts| == |init| - total
  {
    total, error, failed := 0, false, false;
    var tried: set<string> := {};
    maxFactId := wm;
    var pass := 0;
    while pass < MAX_PASSES
      invariant store.Sound(init) && store.watermark == old(store.watermark)
      invariant History(sim, wm, store.log, maxFactId) && AllTried(store.log, tried) && AllInLog(store.log, tried)
      invariant pass > 0 ==> LastReadExhausted(sim, wm, store.log)
      invariant up ==> !failed
      invariant !failed ==> |store.facts| == |init| - total
    {
      var result;
      result, maxFactId, tried := RunPass(store, sim, wm, maxFactId, tried, up, init);
      if result.ReadError? {
        error := true;
        return;
      }
      if result.Converged? {
        return;
      }
      total := total + result.count;
      failed := failed || result.failed;
      if result.Cancelled? {
        error := true;
        return;
      }
      if result.count == 0 || result.failed {
        return;
      }
      pass := pass + 1;
    }
  }

  /** Above a watermark that bounds every read there are only facts inserted after the last read. */
  ghost predicate OnlyNewAbove(live: set<int>, log: seq<Op>, watermark: int) {
    forall id :: id in live && id > watermark ==> InsertedLast(log, id)
  }

  lemma EndOfRun(sim: (Vec, Vec) -> real, wm: int, init: map<int, Fact>, facts: map<int, Fact>, log: seq<Op>,
    lineage: map<int, set<int>>, bound: int)
    requires SoundRun(init, facts, log, lineage) && History(sim, wm, log, bound) && LastReadExhausted(sim, wm, log)
    ensures OnlyNewAbove(facts.Keys, log, bound)
  {
    var r :| ReadBefore(log, r, |log|) && RowsExhausted(sim, wm, log[r].rows, log);
    assert HasRead(log);
    RestIsInsertedLast(init.Keys, facts.Keys, log, bound);
  }

  lemma HigherBound(live: set<int>, log: seq<Op>, low: int, high: int)
    requires low <= high
    ensures OnlyNewAbove(live, log, low) ==> OnlyNewAbove(live, log, high)
    ensures ReadsUpTo(log, low) ==> ReadsUpTo(log, high)
  {
  }

  /** The passes and, after them, the watermark. */
  method RunToEnd(store: Store, sim: (Vec, Vec) -> real, wm: int, up: bool, ghost init: map<int, Fact>)
    returns (total: nat, error: bool, failed: bool, moved: bool)
    requires store.Sound(init) && Symmetric(sim) && store.log == [] && store.facts == init
    modifies store
    ensures store.Sound(init)
    ensures NeverResubmitted(store.log) && SubmissionsOk(sim, wm, store.log)
    ensures !error ==> LastReadExhausted(sim, wm, store.log)
    ensures !failed ==> |store.facts| == |init| - total
    ensures store.watermark >= old(store.watermark)
    ensures up ==> !failed && !error && moved
    ensures failed || error || !moved ==> store.watermark == old(store.watermark)
    ensures moved ==> ReadsUpTo(store.log, store.watermark)
    ensures moved ==> OnlyNewAbove(store.facts.Keys, store.log, store.watermark)
  {
    var maxFactId;
    total, error, failed, maxFactId := RunPasses(store, sim, wm, up, init);
    moved := false;
    if !failed && !error {
      EndOfRun(sim, wm, init, store.facts, store.log, store.lineage, maxFactId);
      moved := store.UpdateWatermark(maxFactId, up);
      if moved {
        HigherBound(store.facts.Keys, store.log, maxFactId, store.watermark);
      }
    }
  }

  /** The run, over arbitrary failures of the model, the embedder and the database, and cancellation
      at any clique. `readable` says whether the old watermark could be read, `up` whether everything outside
      is known to answer, `failed` whether any clique failed, and `moved` whether the new watermark was written. */
  method ConsolidateFactClusters(store: Store, sim: (Vec, Vec) -> real, readable: bool, up: bool)
    returns (total: nat, error: bool, failed: bool, moved: bool)
    requires store.Valid() && Symmetric(sim)
    modifies store
    ensures store.Sound(old(store.facts))
    ensures NeverResubmitted(store.log)
    ensures SubmissionsOk(sim, if readable then old(store.watermark) else 0, store.log)
    ensures !error ==> LastReadExhausted(sim, if readable then old(store.watermark) else 0, store.log)
    ensures !failed ==> |store.facts| == |old(store.facts)| - total
    ensures store.watermark >= old(store.watermark)
    ensures up ==> !failed && !error && moved
    ensures failed || error || !moved ==> store.watermark == old(store.watermark)
    ensures moved ==> ReadsUpTo(store.log, store.watermark)
    ensures moved ==> OnlyNewAbove(store.facts.Keys, store.log, store.watermark)
  {
    ghost var init := store.facts;
    StartRun(store);
    var wm := if readable then store.watermark else 0;
    total, error, failed, moved := RunToEnd(store, sim, wm, up, init);
  }
}
