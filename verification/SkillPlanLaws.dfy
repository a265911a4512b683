/** What every skill plan guarantees, for candidates with distinct IDs and a symmetric similarity. */
module SkillPlanLaws {
  import opened Wrappers
  import opened Sorting
  import opened GoStrings
  import opened Cliques
  import opened CliqueLaws
  import opened SkillPlans

  function IdsOf(b: Batch): set<int> {
    set i | 0 <= i < |b.candidates| :: b.candidates[i].id
  }

  ghost predicate DistinctIds(s: seq<Candidate>) {
    forall i, j :: 0 <= i < j < |s| ==> s[i].id != s[j].id
  }

  ghost predicate Disjoint(batches: seq<Batch>) {
    forall i, j :: 0 <= i < j < |batches| ==> IdsOf(batches[i]) !! IdsOf(batches[j])
  }

  // ----- Filtering -----

  lemma {:induction false} FilterIsExact(s: seq<Candidate>, p: Candidate -> bool)
    ensures forall c :: c in Filter(s, p) <==> c in s && p(c)
    ensures DistinctIds(s) ==> DistinctIds(Filter(s, p))
  {
    if s != [] {
      var front, last := s[..|s| - 1], s[|s| - 1];
      FilterIsExact(front, p);
      assert s == front + [last];
      var kept := Filter(front, p);
      forall i | 0 <= i < |kept| && DistinctIds(s)
        ensures kept[i].id != last.id
      {
        assert kept[i] in kept;
        var k :| 0 <= k < |front| && front[k] == kept[i];
        assert s[k] == kept[i];
      }
    }
  }

  // ----- Skills -----

  /** The best match is the first of the closest embedded skills, and closer than -1. */
  lemma {:induction false} BestMatchIsFirstClosest(sim: Similarity, emb: Vec, disk: seq<DiskSkill>)
    ensures var best := BestMatch(sim, emb, disk);
      && (forall i :: 0 <= i < |disk| && disk[i].embedding != [] ==> sim(emb, disk[i].embedding) <= best.sim)
      && (best.skill.None? ==> best.sim == -1.0)
      && (best.skill.Some? ==> exists k :: IsFirstClosest(sim, emb, disk, best, k))
  {
    if disk != [] {
      var front := disk[..|disk| - 1];
      BestMatchIsFirstClosest(sim, emb, front);
      var best, before := BestMatch(sim, emb, disk), BestMatch(sim, emb, front);
      assert forall i :: 0 <= i < |front| ==> front[i] == disk[i];
      if best == before && best.skill.Some? {
        var k :| IsFirstClosest(sim, emb, front, best, k);
        assert IsFirstClosest(sim, emb, disk, best, k);
      } else if best.skill.Some? {
        assert IsFirstClosest(sim, emb, disk, best, |disk| - 1);
      }
    }
  }

  ghost predicate IsFirstClosest(sim: Similarity, emb: Vec, disk: seq<DiskSkill>, best: Best, k: int) {
    && 0 <= k < |disk| && best.skill == Some(disk[k]) && disk[k].embedding != []
    && best.sim == sim(emb, disk[k].embedding) > -1.0
    && forall i :: 0 <= i < k && disk[i].embedding != [] ==> sim(emb, disk[i].embedding) < best.sim
  }

  lemma {:induction false} ByNameKeepsNames(disk: seq<DiskSkill>)
    ensures forall name :: name in ByName(disk) ==> ByName(disk)[name].name == name && ByName(disk)[name] in disk
  {
    if disk != [] {
      ByNameKeepsNames(disk[..|disk| - 1]);
    }
  }

  // ----- Edit batches -----

  /** b is the batch of everything filed under the name of its target. */
  ghost predicate IsWholeGroup(b: Batch, byName: map<string, DiskSkill>, s: seq<Candidate>, key: Key) {
    && b.target.Some? && b.target.value.name in byName
    && b == EditBatch(byName[b.target.value.name], Keep(s, key, b.target.value.name))
  }

  lemma {:induction false} EditBatchesAreGroups(
    names: seq<string>, byName: map<string, DiskSkill>, s: seq<Candidate>, key: Key, always: bool)
    requires forall i :: 0 <= i < |names| ==> names[i] in byName && byName[names[i]].name == names[i]
    requires forall i, j :: 0 <= i < j < |names| ==> names[i] != names[j]
    ensures var bs := EditBatches(names, byName, s, key, always);
      && (forall i :: 0 <= i < |bs| ==> IsWholeGroup(bs[i], byName, s, key) && bs[i].target.value.name in names)
      && (forall i :: 0 <= i < |bs| ==> always || WorthEditing(bs[i].candidates))
      && (forall i, j :: 0 <= i < j < |bs| ==> bs[i].target.value.name != bs[j].target.value.name)
      && (forall name :: name in names && (always || WorthEditing(Keep(s, key, name))) ==>
            EditBatch(byName[name], Keep(s, key, name)) in bs)
  {
    if names != [] {
      var front, name := names[..|names| - 1], names[|names| - 1];
      assert names == front + [name] && name !in front;
      EditBatchesAreGroups(front, byName, s, key, always);
    }
  }

  lemma SortedNamesAreDistinct(s: seq<Candidate>, key: Key)
    ensures var names := SortedNames(s, key);
      && (forall i, j :: 0 <= i < j < |names| ==> names[i] != names[j])
      && (forall name :: name in names <==> Keep(s, key, name) != [])
  {
    var raw, names := Names(s, key), SortedNames(s, key);
    NamesAreKeys(s, key);
    SortKeepsElements(raw, NameOrder());
    SortIsPermutation(raw, NameOrder());
    forall i, j | 0 <= i < j < |names|
      ensures names[i] != names[j]
    {
      CountOfDistinct(raw, names[i]);
      TwiceCounts(names, i, j);
    }
  }

  lemma TwiceCounts(s: seq<string>, i: nat, j: nat)
    requires i < j < |s|
    ensures s[i] == s[j] ==> multiset(s)[s[i]] >= 2
  {
    assert s == s[..j] + [s[j]] + s[j + 1..];
    assert s[..j][i] == s[i];
    assert s[i] in s[..j];
  }

  // ----- Kinds -----

  datatype Kind = AtLoaded(name: string) | AtRouted(name: string) | AtLong | AtShort | AtNothing

  /** Where a candidate belongs, decided on its own. */
  function KindOf(sim: Similarity, disk: seq<DiskSkill>, c: Candidate): Kind {
    var loaded, routed := LoadedKey(ByName(disk))(c), RouteKey(sim, disk)(c);
    if loaded.Some? then AtLoaded(loaded.value)
    else if routed.Some? then AtRouted(routed.value)
    else if Long(c) then AtLong
    else if Short(c) then AtShort
    else AtNothing
  }

  /** A batch of pending candidates of one kind. */
  ghost predicate OfKind(sim: Similarity, disk: seq<DiskSkill>, pending: seq<Candidate>, b: Batch, kind: Kind) {
    b.candidates != [] && DistinctIds(b.candidates)
    && forall i :: 0 <= i < |b.candidates| ==> b.candidates[i] in pending && KindOf(sim, disk, b.candidates[i]) == kind
  }

  lemma SameIdSameCandidate(pending: seq<Candidate>, a: Candidate, b: Candidate)
    requires DistinctIds(pending) && a in pending && b in pending
    ensures a.id == b.id ==> a == b
  {
    var i :| 0 <= i < |pending| && pending[i] == a;
    var j :| 0 <= j < |pending| && pending[j] == b;
    assert i != j ==> pending[i].id != pending[j].id;
  }

  lemma KindsAreDisjoint(
    sim: Similarity, disk: seq<DiskSkill>, pending: seq<Candidate>, a: Batch, k: Kind, b: Batch, l: Kind)
    requires DistinctIds(pending) && OfKind(sim, disk, pending, a, k) && OfKind(sim, disk, pending, b, l) && k != l
    ensures IdsOf(a) !! IdsOf(b)
  {
    forall i, j | 0 <= i < |a.candidates| && 0 <= j < |b.candidates|
      ensures a.candidates[i].id != b.candidates[j].id
    {
      SameIdSameCandidate(pending, a.candidates[i], b.candidates[j]);
    }
  }

  ghost predicate OnDisk(disk: seq<DiskSkill>, name: string) {
    exists i :: 0 <= i < |disk| && disk[i].name == name
  }

  /** The first of the closest embedded skills, close enough to take the candidate. */
  ghost predicate TakesCandidate(sim: Similarity, disk: seq<DiskSkill>, emb: Vec, k: int) {
    && 0 <= k < |disk| && disk[k].embedding != [] && sim(emb, disk[k].embedding) >= 0.72
    && (forall i :: 0 <= i < |disk| && disk[i].embedding != [] ==>
          sim(emb, disk[i].embedding) <= sim(emb, disk[k].embedding))
    && (forall i :: 0 <= i < k && disk[i].embedding != [] ==>
          sim(emb, disk[i].embedding) < sim(emb, disk[k].embedding))
  }

  ghost predicate IsRoutedTo(sim: Similarity, disk: seq<DiskSkill>, c: Candidate, name: string) {
    c.embedding != [] && exists k :: TakesCandidate(sim, disk, c.embedding, k) && disk[k].name == name
  }

  lemma {:induction false} ByNameHasAll(disk: seq<DiskSkill>)
    ensures forall name :: name in ByName(disk) <==> OnDisk(disk, name)
  {
    if disk != [] {
      var front := disk[..|disk| - 1];
      ByNameHasAll(front);
      assert forall i :: 0 <= i < |front| ==> front[i] == disk[i];
      forall name
        ensures name in ByName(disk) <==> OnDisk(disk, name)
      {
        if OnDisk(disk, name) {
          var i :| 0 <= i < |disk| && disk[i].name == name;
          assert i < |front| ==> front[i].name == name;
        }
        if OnDisk(front, name) {
          var i :| 0 <= i < |front| && front[i].name == name;
          assert disk[i].name == name;
        }
        assert disk[|disk| - 1].name == name ==> OnDisk(disk, name);
      }
    }
  }

  lemma LoadedMeans(disk: seq<DiskSkill>, c: Candidate, name: string)
    ensures LoadedKey(ByName(disk))(c) == Some(name) <==> c.loadedSkill == name && name != "" && OnDisk(disk, name)
  {
    ByNameHasAll(disk);
  }

  lemma RoutedMeans(sim: Similarity, disk: seq<DiskSkill>, c: Candidate, name: string)
    ensures RouteKey(sim, disk)(c) == Some(name) <==> IsRoutedTo(sim, disk, c, name)
  {
    var best := BestMatch(sim, c.embedding, disk);
    BestMatchIsFirstClosest(sim, c.embedding, disk);
    if best.skill.Some? {
      var k :| IsFirstClosest(sim, c.embedding, disk, best, k);
      assert best.sim >= 0.72 ==> TakesCandidate(sim, disk, c.embedding, k);
      forall j | TakesCandidate(sim, disk, c.embedding, j)
        ensures j == k
      {
        assert sim(c.embedding, disk[j].embedding) == sim(c.embedding, disk[k].embedding);
      }
    } else {
      forall j | 0 <= j < |disk| && disk[j].embedding != []
        ensures !TakesCandidate(sim, disk, c.embedding, j)
      {
        assert sim(c.embedding, disk[j].embedding) <= -1.0;
      }
    }
  }

  /** What the kinds of candidates mean. */
  lemma KindsMean(sim: Similarity, disk: seq<DiskSkill>, c: Candidate, name: string)
    ensures var kind, loaded := KindOf(sim, disk, c), c.loadedSkill != "" && OnDisk(disk, c.loadedSkill);
      && (kind == AtLoaded(name) <==> loaded && name == c.loadedSkill)
      && (kind == AtRouted(name) <==> !loaded && IsRoutedTo(sim, disk, c, name))
      && (kind == AtLong ==> !loaded && !IsRoutedTo(sim, disk, c, name) && c.embedding != [] && |c.steps| >= 3)
      && (kind == AtShort ==> !loaded && !IsRoutedTo(sim, disk, c, name) && c.embedding != [] && |c.steps| < 3)
      && (kind == AtNothing ==> !loaded && c.embedding == [])
  {
    LoadedMeans(disk, c, name);
    LoadedMeans(disk, c, c.loadedSkill);
    RoutedMeans(sim, disk, c, name);
  }

  // ----- The four parts of a plan -----

  /** Review is asked for exactly if some candidate had a core skill loaded. */
  ghost predicate ReviewIsRight(b: Batch) {
    b.requireReview <==> exists c :: c in b.candidates && TrimSpace(c.loadedSkill) in CORE_SKILLS
  }

  /** The domain is that of the member with the least ID, or "discord" if that has none. */
  ghost predicate DomainIsRight(b: Batch) {
    exists c :: c in b.candidates && (forall d :: d in b.candidates ==> c.id <= d.id)
                && b.domain == if c.domain != "" then c.domain else "discord"
  }

  ghost predicate GoodEdit(sim: Similarity, disk: seq<DiskSkill>, pending: seq<Candidate>, b: Batch) {
    && b.action == Edit && b.target.Some? && b.target.value in disk && b.domain == b.target.value.domain
    && ReviewIsRight(b)
    && (|| (OfKind(sim, disk, pending, b, AtLoaded(b.target.value.name)) &&
      (|b.candidates| >= 2 || SomeAvoid(b.candidates)))
        || OfKind(sim, disk, pending, b, AtRouted(b.target.value.name)))
  }

  ghost predicate SomeAvoid(cands: seq<Candidate>) {
    exists c :: c in cands && c.avoid != []
  }

  ghost predicate CloseTogether(sim: Similarity, cands: seq<Candidate>) {
    forall x, y :: x in cands && y in cands && x != y ==> sim(x.embedding, y.embedding) >= 0.70
  }

  ghost predicate GoodCreate(sim: Similarity, disk: seq<DiskSkill>, pending: seq<Candidate>, b: Batch) {
    && b.action == Create && b.target.None? && OfKind(sim, disk, pending, b, AtLong)
    && 2 <= |b.candidates| <= 5 && CloseTogether(sim, b.candidates)
    && ReviewIsRight(b) && DomainIsRight(b)
  }

  ghost predicate GoodAlert(sim: Similarity, disk: seq<DiskSkill>, pending: seq<Candidate>, b: Batch) {
    && b.action == Alert && b.target.None? && OfKind(sim, disk, pending, b, AtShort)
    && |b.candidates| == 5 && CloseTogether(sim, b.candidates)
    && !b.requireReview && DomainIsRight(b)
  }

  lemma ReviewMeans(cands: seq<Candidate>)
    ensures RequiresReview(cands) <==> exists c :: c in cands && TrimSpace(c.loadedSkill) in CORE_SKILLS
  {
    if exists c :: c in cands && TrimSpace(c.loadedSkill) in CORE_SKILLS {
      var c :| c in cands && TrimSpace(c.loadedSkill) in CORE_SKILLS;
      var i :| 0 <= i < |cands| && cands[i] == c;
    }
  }

  lemma AvoidMeans(cands: seq<Candidate>)
    ensures HasAvoid(cands) <==> SomeAvoid(cands)
  {
    if SomeAvoid(cands) {
      var c :| c in cands && c.avoid != [];
      var i :| 0 <= i < |cands| && cands[i] == c;
    }
  }

  /** A clique in ID order takes its domain from its first member. */
  lemma CliqueDomain(action: Action, clique: seq<Candidate>)
    requires clique != [] && forall k, l :: 0 <= k < l < |clique| ==> clique[k].id < clique[l].id
    ensures DomainIsRight(CliqueBatch(action, clique))
  {
    var c := clique[0];
    assert c in clique;
    forall d | d in clique
      ensures c.id <= d.id
    {
      var k :| 0 <= k < |clique| && clique[k] == d;
    }
  }

  lemma LoadedGroupKind(sim: Similarity, pending: seq<Candidate>, disk: seq<DiskSkill>, b: Batch)
    requires DistinctIds(pending) && IsWholeGroup(b, ByName(disk), pending, LoadedKey(ByName(disk))) &&
      b.candidates != []
    ensures OfKind(sim, disk, pending, b, AtLoaded(b.target.value.name))
  {
    FilterIsExact(pending, Under(LoadedKey(ByName(disk)), Some(b.target.value.name)));
    assert forall i :: 0 <= i < |b.candidates| ==> b.candidates[i] in b.candidates;
  }

  lemma RoutedGroupKind(sim: Similarity, pending: seq<Candidate>, disk: seq<DiskSkill>, b: Batch)
    requires DistinctIds(pending) && IsWholeGroup(b, ByName(disk), Unloaded(pending, disk), RouteKey(sim, disk)) &&
      b.candidates != []
    ensures OfKind(sim, disk, pending, b, AtRouted(b.target.value.name))
  {
    FilterIsExact(pending, Under(LoadedKey(ByName(disk)), None));
    FilterIsExact(Unloaded(pending, disk), Under(RouteKey(sim, disk), Some(b.target.value.name)));
    assert forall i :: 0 <= i < |b.candidates| ==> b.candidates[i] in b.candidates;
  }

  lemma LoadedPart(sim: Similarity, pending: seq<Candidate>, disk: seq<DiskSkill>)
    requires DistinctIds(pending)
    ensures var bs := LoadedBatches(pending, disk);
      && (forall i :: 0 <= i < |bs| ==>
        GoodEdit(sim, disk, pending, bs[i]) && OfKind(sim, disk, pending, bs[i], AtLoaded(bs[i].target.value.name)))
      && Disjoint(bs)
  {
    var byName, bs := ByName(disk), LoadedBatches(pending, disk);
    var key := LoadedKey(byName);
    ByNameKeepsNames(disk);
    LoadedNamesAreKnown(pending, byName);
    SortedNamesAreDistinct(pending, key);
    var names := SortedNames(pending, key);
    EditBatchesAreGroups(names, byName, pending, key, false);
    assert bs == EditBatches(names, byName, pending, key, false);
    forall i | 0 <= i < |bs|
      ensures GoodEdit(sim, disk, pending, bs[i]) &&
        OfKind(sim, disk, pending, bs[i], AtLoaded(bs[i].target.value.name))
    {
      assert IsWholeGroup(bs[i], byName, pending, key);
      LoadedGroupKind(sim, pending, disk, bs[i]);
      ReviewMeans(bs[i].candidates);
      AvoidMeans(bs[i].candidates);
    }
    forall i, j | 0 <= i < j < |bs|
      ensures IdsOf(bs[i]) !! IdsOf(bs[j])
    {
      KindsAreDisjoint(sim, disk, pending, bs[i], AtLoaded(bs[i].target.value.name), bs[j],
        AtLoaded(bs[j].target.value.name));
    }
  }

  lemma RoutedPart(sim: Similarity, pending: seq<Candidate>, disk: seq<DiskSkill>)
    requires DistinctIds(pending)
    ensures var bs := RoutedBatches(sim, Unloaded(pending, disk), disk);
      && (forall i :: 0 <= i < |bs| ==>
        GoodEdit(sim, disk, pending, bs[i]) && OfKind(sim, disk, pending, bs[i], AtRouted(bs[i].target.value.name)))
      && Disjoint(bs)
  {
    var byName, s := ByName(disk), Unloaded(pending, disk);
    var bs, key := RoutedBatches(sim, s, disk), RouteKey(sim, disk);
    ByNameKeepsNames(disk);
    RoutedNamesAreKnown(sim, s, disk);
    SortedNamesAreDistinct(s, key);
    var names := SortedNames(s, key);
    EditBatchesAreGroups(names, byName, s, key, true);
    assert bs == EditBatches(names, byName, s, key, true);
    forall i | 0 <= i < |bs|
      ensures GoodEdit(sim, disk, pending, bs[i]) &&
        OfKind(sim, disk, pending, bs[i], AtRouted(bs[i].target.value.name))
    {
      assert IsWholeGroup(bs[i], byName, s, key);
      RoutedGroupKind(sim, pending, disk, bs[i]);
      ReviewMeans(bs[i].candidates);
    }
    forall i, j | 0 <= i < j < |bs|
      ensures IdsOf(bs[i]) !! IdsOf(bs[j])
    {
      KindsAreDisjoint(sim, disk, pending, bs[i], AtRouted(bs[i].target.value.name), bs[j],
        AtRouted(bs[j].target.value.name));
    }
  }

  /** Pending candidates of no skill's kind. */
  ghost predicate LeftOvers(sim: Similarity, disk: seq<DiskSkill>, pending: seq<Candidate>, left: seq<Candidate>) {
    && DistinctIds(left)
    && forall c :: c in left ==> c in pending && LoadedKey(ByName(disk))(c) == None && RouteKey(sim, disk)(c) == None
  }

  lemma LeftOver(sim: Similarity, pending: seq<Candidate>, disk: seq<DiskSkill>)
    requires DistinctIds(pending)
    ensures LeftOvers(sim, disk, pending, Unmatched(sim, pending, disk))
  {
    FilterIsExact(pending, Under(LoadedKey(ByName(disk)), None));
    FilterIsExact(Unloaded(pending, disk), Under(RouteKey(sim, disk), None));
  }

  ghost predicate AllOfKind(
    sim: Similarity, disk: seq<DiskSkill>, pending: seq<Candidate>, s: seq<Candidate>, kind: Kind) {
    DistinctIds(s) && forall c :: c in s ==> c in pending && KindOf(sim, disk, c) == kind
  }

  lemma LongOnes(sim: Similarity, disk: seq<DiskSkill>, pending: seq<Candidate>, left: seq<Candidate>)
    requires LeftOvers(sim, disk, pending, left)
    ensures AllOfKind(sim, disk, pending, Filter(left, Long), AtLong)
  {
    FilterIsExact(left, Long);
  }

  lemma ShortOnes(sim: Similarity, disk: seq<DiskSkill>, pending: seq<Candidate>, left: seq<Candidate>)
    requires LeftOvers(sim, disk, pending, left)
    ensures AllOfKind(sim, disk, pending, Filter(left, Short), AtShort)
  {
    FilterIsExact(left, Short);
  }

  lemma CliqueIsOfKind(
    sim: Similarity, disk: seq<DiskSkill>, pending: seq<Candidate>, group: seq<Candidate>, kind: Kind, b: Batch)
    requires AllOfKind(sim, disk, pending, group, kind) && b.candidates != [] && DistinctIds(b.candidates)
    requires forall c :: c in b.candidates ==> c in group
    ensures OfKind(sim, disk, pending, b, kind)
  {
    assert forall k :: 0 <= k < |b.candidates| ==> b.candidates[k] in b.candidates;
  }

  /** What one emitted clique of candidates looks like. */
  ghost predicate GoodCandidates(sim: Similarity, lim: Limits, group: seq<Candidate>, clique: seq<Candidate>) {
    && lim.minSize <= |clique| <= lim.maxSize && CloseTogether(sim, clique) && DistinctIds(clique)
    && (forall k, l :: 0 <= k < l < |clique| ==> clique[k].id < clique[l].id)
    && forall c :: c in clique ==> c in group
  }

  lemma GoodCliqueIsGood(
    sim: Similarity, lim: Limits, group: seq<Candidate>, embedded: seq<Candidate>, clique: seq<Candidate>)
    requires GoodClique(SpaceOf(sim), lim, 0, embedded, clique) && forall c :: c in embedded ==> c in group
    requires 2 <= lim.minSize <= lim.maxSize && lim.minSim == CLIQUE_MIN_SIM
    ensures GoodCandidates(sim, lim, group, clique)
  {
    var sp := SpaceOf(sim);
    forall x, y | x in clique && y in clique && x != y
      ensures sim(x.embedding, y.embedding) >= CLIQUE_MIN_SIM
    {
      assert Linked(sp, lim, x, y);
    }
    forall k, l | 0 <= k < l < |clique|
      ensures clique[k].id < clique[l].id
    {
      assert sp.idOf(clique[k]) < sp.idOf(clique[l]);
    }
  }

  lemma BatchHasIds(sim: Similarity, action: Action, clique: seq<Candidate>)
    ensures IdsOf(CliqueBatch(action, clique)) == Ids(SpaceOf(sim), clique)
  {
    var sp := SpaceOf(sim);
    forall x | x in Ids(sp, clique)
      ensures x in IdsOf(CliqueBatch(action, clique))
    {
      var m :| 0 <= m < |clique| && sp.idOf(clique[m]) == x;
      assert clique[m].id == x;
    }
  }

  lemma CliquePart(sim: Similarity, action: Action, lim: Limits, group: seq<Candidate>, i: nat)
    requires CliqueLaws.Symmetric(sim) && DistinctIds(group)
    requires lim == Normalize(lim) && lim.minSize >= 2 && lim.minSim == CLIQUE_MIN_SIM
    requires i < |FoundCliques(SpaceOf(sim), lim, 0, group)|
    ensures var cs := FoundCliques(SpaceOf(sim), lim, 0, group);
      && GoodCandidates(sim, lim, group, cs[i])
      && forall j :: 0 <= j < i ==> IdsOf(CliqueBatch(action, cs[j])) !! IdsOf(CliqueBatch(action, cs[i]))
  {
    var sp := SpaceOf(sim);
    var cs: seq<seq<Candidate>> := FoundCliques(sp, lim, 0, group);
    CliquesAreSound(sp, lim, 0, group, i);
    GroupIsExact(sp, group);
    GoodCliqueIsGood(sim, lim, group, Group(sp, group), cs[i]);
    forall j | 0 <= j < i
      ensures IdsOf(CliqueBatch(action, cs[j])) !! IdsOf(CliqueBatch(action, cs[i]))
    {
      BatchHasIds(sim, action, cs[j]);
      BatchHasIds(sim, action, cs[i]);
    }
  }

  lemma CreatePart(sim: Similarity, pending: seq<Candidate>, disk: seq<DiskSkill>, left: seq<Candidate>)
    requires LeftOvers(sim, disk, pending, left) && CliqueLaws.Symmetric(sim)
    ensures var bs := CliqueBatches(Create, CreateCliques(sim, left));
      (forall i :: 0 <= i < |bs| ==> GoodCreate(sim, disk, pending, bs[i])) && Disjoint(bs)
  {
    var group, bs := Filter(left, Long), CliqueBatches(Create, CreateCliques(sim, left));
    LongOnes(sim, disk, pending, left);
    forall i | 0 <= i < |bs|
      ensures GoodCreate(sim, disk, pending, bs[i]) && forall j :: 0 <= j < i ==> IdsOf(bs[j]) !! IdsOf(bs[i])
    {
      CliquePart(sim, Create, CREATE_LIMITS, group, i);
      assert bs[i] == CliqueBatch(Create, CreateCliques(sim, left)[i]);
      CliqueIsOfKind(sim, disk, pending, group, AtLong, bs[i]);
      ReviewMeans(bs[i].candidates);
      CliqueDomain(Create, bs[i].candidates);
    }
  }

  lemma AlertPart(sim: Similarity, pending: seq<Candidate>, disk: seq<DiskSkill>, left: seq<Candidate>)
    requires LeftOvers(sim, disk, pending, left) && CliqueLaws.Symmetric(sim)
    ensures var bs := CliqueBatches(Alert, AlertCliques(sim, left));
      (forall i :: 0 <= i < |bs| ==> GoodAlert(sim, disk, pending, bs[i])) && Disjoint(bs)
  {
    var group, bs := Filter(left, Short), CliqueBatches(Alert, AlertCliques(sim, left));
    ShortOnes(sim, disk, pending, left);
    forall i | 0 <= i < |bs|
      ensures GoodAlert(sim, disk, pending, bs[i]) && forall j :: 0 <= j < i ==> IdsOf(bs[j]) !! IdsOf(bs[i])
    {
      CliquePart(sim, Alert, ALERT_LIMITS, group, i);
      assert bs[i] == CliqueBatch(Alert, AlertCliques(sim, left)[i]);
      CliqueIsOfKind(sim, disk, pending, group, AtShort, bs[i]);
      CliqueDomain(Alert, bs[i].candidates);
    }
  }

  // ----- The whole plan -----

  ghost predicate GoodBatch(sim: Similarity, disk: seq<DiskSkill>, pending: seq<Candidate>, b: Batch) {
    GoodEdit(sim, disk, pending, b) || GoodCreate(sim, disk, pending, b) || GoodAlert(sim, disk, pending, b)
  }

  /** The order of the four parts. */
  function Rank(kind: Kind): nat {
    match kind
    case AtLoaded(_) => 0
    case AtRouted(_) => 1
    case AtLong => 2
    case AtShort => 3
    case AtNothing => 4
  }

  ghost predicate Ranked(sim: Similarity, disk: seq<DiskSkill>, pending: seq<Candidate>, b: Batch, lo: nat, hi: nat) {
    && GoodBatch(sim, disk, pending, b)
    && b.candidates != [] && lo <= Rank(KindOf(sim, disk, b.candidates[0])) < hi
    && OfKind(sim, disk, pending, b, KindOf(sim, disk, b.candidates[0]))
  }

  /** Good disjoint batches with ranks in [lo, hi). */
  ghost predicate GoodPart(
    sim: Similarity, disk: seq<DiskSkill>, pending: seq<Candidate>, bs: seq<Batch>, lo: nat, hi: nat) {
    Disjoint(bs) && forall i :: 0 <= i < |bs| ==> Ranked(sim, disk, pending, bs[i], lo, hi)
  }

  lemma RankedIfOfKind(sim: Similarity, disk: seq<DiskSkill>, pending: seq<Candidate>, b: Batch, kind: Kind)
    requires GoodBatch(sim, disk, pending, b) && OfKind(sim, disk, pending, b, kind)
    ensures Ranked(sim, disk, pending, b, Rank(kind), Rank(kind) + 1)
  {
    assert KindOf(sim, disk, b.candidates[0]) == kind;
  }

  lemma AppendPart(
    sim: Similarity, disk: seq<DiskSkill>, pending: seq<Candidate>, a: seq<Batch>, b: seq<Batch>, lo: nat, mid: nat,
    hi: nat)
    requires DistinctIds(pending) && lo <= mid <= hi
    requires GoodPart(sim, disk, pending, a, lo, mid) && GoodPart(sim, disk, pending, b, mid, hi)
    ensures GoodPart(sim, disk, pending, a + b, lo, hi)
  {
    var all := a + b;
    forall i | 0 <= i < |all|
      ensures Ranked(sim, disk, pending, all[i], lo, hi)
    {
      if i < |a| {
        assert Ranked(sim, disk, pending, a[i], lo, mid);
      } else {
        assert Ranked(sim, disk, pending, b[i - |a|], mid, hi);
      }
    }
    forall i, j | 0 <= i < |a| && 0 <= j < |b|
      ensures IdsOf(a[i]) !! IdsOf(b[j])
    {
      assert Ranked(sim, disk, pending, a[i], lo, mid) && Ranked(sim, disk, pending, b[j], mid, hi);
      var k, l := KindOf(sim, disk, a[i].candidates[0]), KindOf(sim, disk, b[j].candidates[0]);
      assert k != l;
      KindsAreDisjoint(sim, disk, pending, a[i], k, b[j], l);
    }
  }

  lemma LoadedPartIsGood(sim: Similarity, pending: seq<Candidate>, disk: seq<DiskSkill>)
    requires DistinctIds(pending)
    ensures GoodPart(sim, disk, pending, LoadedBatches(pending, disk), 0, 1)
  {
    var bs := LoadedBatches(pending, disk);
    LoadedPart(sim, pending, disk);
    forall i | 0 <= i < |bs|
      ensures Ranked(sim, disk, pending, bs[i], 0, 1)
    {
      RankedIfOfKind(sim, disk, pending, bs[i], AtLoaded(bs[i].target.value.name));
    }
  }

  lemma RoutedPartIsGood(sim: Similarity, pending: seq<Candidate>, disk: seq<DiskSkill>)
    requires DistinctIds(pending)
    ensures GoodPart(sim, disk, pending, RoutedBatches(sim, Unloaded(pending, disk), disk), 1, 2)
  {
    var bs := RoutedBatches(sim, Unloaded(pending, disk), disk);
    RoutedPart(sim, pending, disk);
    forall i | 0 <= i < |bs|
      ensures Ranked(sim, disk, pending, bs[i], 1, 2)
    {
      RankedIfOfKind(sim, disk, pending, bs[i], AtRouted(bs[i].target.value.name));
    }
  }

  lemma CreatesAreRanked(sim: Similarity, disk: seq<DiskSkill>, pending: seq<Candidate>, bs: seq<Batch>)
    requires Disjoint(bs) && forall i :: 0 <= i < |bs| ==> GoodCreate(sim, disk, pending, bs[i])
    ensures GoodPart(sim, disk, pending, bs, 2, 3)
  {
    forall i | 0 <= i < |bs|
      ensures Ranked(sim, disk, pending, bs[i], 2, 3)
    {
      assert GoodCreate(sim, disk, pending, bs[i]);
      RankedIfOfKind(sim, disk, pending, bs[i], AtLong);
    }
  }

  lemma AlertsAreRanked(sim: Similarity, disk: seq<DiskSkill>, pending: seq<Candidate>, bs: seq<Batch>)
    requires Disjoint(bs) && forall i :: 0 <= i < |bs| ==> GoodAlert(sim, disk, pending, bs[i])
    ensures GoodPart(sim, disk, pending, bs, 3, 4)
  {
    forall i | 0 <= i < |bs|
      ensures Ranked(sim, disk, pending, bs[i], 3, 4)
    {
      assert GoodAlert(sim, disk, pending, bs[i]);
      RankedIfOfKind(sim, disk, pending, bs[i], AtShort);
    }
  }

  /** No pending candidate is in two batches or twice in one; edits collect what belongs to their target,
      new skills come from two to five close long candidates, alerts from five close short ones. */
  lemma PlanIsSound(sim: Similarity, pending: seq<Candidate>, disk: seq<DiskSkill>)
    requires DistinctIds(pending) && CliqueLaws.Symmetric(sim)
    ensures var plan := Plan(sim, pending, disk);
      Disjoint(plan) && forall i :: 0 <= i < |plan| ==> GoodBatch(sim, disk, pending, plan[i])
  {
    var left := Unmatched(sim, pending, disk);
    var loaded, routed := LoadedBatches(pending, disk), RoutedBatches(sim, Unloaded(pending, disk), disk);
    var creates, alerts := CliqueBatches(Create, CreateCliques(sim, left)),
      CliqueBatches(Alert, AlertCliques(sim, left));
    LoadedPartIsGood(sim, pending, disk);
    RoutedPartIsGood(sim, pending, disk);
    LeftOver(sim, pending, disk);
    CreatePart(sim, pending, disk, left);
    CreatesAreRanked(sim, disk, pending, creates);
    AlertPart(sim, pending, disk, left);
    AlertsAreRanked(sim, disk, pending, alerts);
    AppendPart(sim, disk, pending, loaded, routed, 0, 1, 2);
    AppendPart(sim, disk, pending, loaded + routed, creates, 0, 2, 3);
    AppendPart(sim, disk, pending, loaded + routed + creates, alerts, 0, 3, 4);
  }

  /** Some batch of the plan holds the candidate. */
  ghost predicate IsPlanned(plan: seq<Batch>, c: Candidate) {
    exists i :: 0 <= i < |plan| && c in plan[i].candidates
  }

  /** The batch of a group that is worth an edit holds everyone in the group. */
  lemma GroupHasBatch(
    names: seq<string>, byName: map<string, DiskSkill>, s: seq<Candidate>, key: Key, always: bool, c: Candidate)
    requires forall i :: 0 <= i < |names| ==> names[i] in byName && byName[names[i]].name == names[i]
    requires forall i, j :: 0 <= i < j < |names| ==> names[i] != names[j]
    requires c in s && key(c).Some? && key(c).value in names
    requires always || WorthEditing(Keep(s, key, key(c).value))
    ensures IsPlanned(EditBatches(names, byName, s, key, always), c)
  {
    var name, bs := key(c).value, EditBatches(names, byName, s, key, always);
    var group := Keep(s, key, name);
    FilterIsExact(s, Under(key, Some(name)));
    EditBatchesAreGroups(names, byName, s, key, always);
    var i :| 0 <= i < |bs| && bs[i] == EditBatch(byName[name], group);
    assert c in bs[i].candidates;
  }

  /** Some batch that creates a skill holds the candidate. */
  ghost predicate IsCreated(plan: seq<Batch>, c: Candidate) {
    exists i :: 0 <= i < |plan| && plan[i].action == Create && c in plan[i].candidates
  }

  lemma CliqueIsCreated(cs: seq<seq<Candidate>>, k: nat, c: Candidate)
    requires k < |cs| && c in cs[k]
    ensures IsCreated(CliqueBatches(Create, cs), c)
  {
    assert CliqueBatches(Create, cs)[k] == CliqueBatch(Create, cs[k]);
  }

  lemma CreatedInPart(a: seq<Batch>, b: seq<Batch>, c: seq<Batch>, d: seq<Batch>, x: Candidate)
    requires IsCreated(c, x)
    ensures IsCreated(a + b + c + d, x)
  {
    var plan := a + b + c + d;
    var i :| 0 <= i < |c| && c[i].action == Create && x in c[i].candidates;
    assert plan[|a| + |b| + i] == c[i];
  }

  lemma PlannedInPart(a: seq<Batch>, b: seq<Batch>, c: seq<Batch>, d: seq<Batch>, x: Candidate)
    requires IsPlanned(a, x) || IsPlanned(b, x)
    ensures IsPlanned(a + b + c + d, x)
  {
    var plan := a + b + c + d;
    if IsPlanned(a, x) {
      var i :| 0 <= i < |a| && x in a[i].candidates;
      assert plan[i] == a[i];
    } else {
      var i :| 0 <= i < |b| && x in b[i].candidates;
      assert plan[|a| + i] == b[i];
    }
  }

  lemma NamedGroup(s: seq<Candidate>, key: Key, c: Candidate)
    requires c in s && key(c).Some?
    ensures key(c).value in SortedNames(s, key)
  {
    FilterIsExact(s, Under(key, Some(key(c).value)));
    SortedNamesAreDistinct(s, key);
    assert c in Keep(s, key, key(c).value);
  }

  lemma InLoadedBatches(pending: seq<Candidate>, disk: seq<DiskSkill>, c: Candidate)
    requires c in pending && LoadedKey(ByName(disk))(c) != None
    requires WorthEditing(Keep(pending, LoadedKey(ByName(disk)), c.loadedSkill))
    ensures IsPlanned(LoadedBatches(pending, disk), c)
  {
    var byName := ByName(disk);
    var key := LoadedKey(byName);
    ByNameKeepsNames(disk);
    LoadedNamesAreKnown(pending, byName);
    SortedNamesAreDistinct(pending, key);
    NamedGroup(pending, key, c);
    GroupHasBatch(SortedNames(pending, key), byName, pending, key, false, c);
  }

  lemma InRoutedBatches(sim: Similarity, s: seq<Candidate>, disk: seq<DiskSkill>, c: Candidate)
    requires c in s && RouteKey(sim, disk)(c) != None
    ensures IsPlanned(RoutedBatches(sim, s, disk), c)
  {
    var key := RouteKey(sim, disk);
    ByNameKeepsNames(disk);
    RoutedNamesAreKnown(sim, s, disk);
    SortedNamesAreDistinct(s, key);
    NamedGroup(s, key, c);
    GroupHasBatch(SortedNames(s, key), ByName(disk), s, key, true, c);
  }

  /** A candidate with a known loaded skill is in a batch if its group is worth an edit, and a candidate
      that is routed to a skill always is. */
  lemma SkillCandidatesArePlanned(sim: Similarity, pending: seq<Candidate>, disk: seq<DiskSkill>, c: Candidate)
    requires c in pending
    requires || (LoadedKey(ByName(disk))(c) != None &&
      WorthEditing(Keep(pending, LoadedKey(ByName(disk)), c.loadedSkill)))
             || (LoadedKey(ByName(disk))(c) == None && RouteKey(sim, disk)(c) != None)
    ensures IsPlanned(Plan(sim, pending, disk), c)
  {
    var s, left := Unloaded(pending, disk), Unmatched(sim, pending, disk);
    if LoadedKey(ByName(disk))(c) != None {
      InLoadedBatches(pending, disk, c);
    } else {
      FilterIsExact(pending, Under(LoadedKey(ByName(disk)), None));
      InRoutedBatches(sim, s, disk, c);
    }
    PlannedInPart(LoadedBatches(pending, disk), RoutedBatches(sim, s, disk),
      CliqueBatches(Create, CreateCliques(sim, left)), CliqueBatches(Alert, AlertCliques(sim, left)), c);
  }

  lemma {:induction false} InSomeClique(sim: Similarity, cs: seq<seq<Candidate>>, id: int)
    requires id in AllIds(SpaceOf(sim), cs)
    ensures exists k, m :: 0 <= k < |cs| && 0 <= m < |cs[k]| && cs[k][m].id == id
  {
    if id in Ids(SpaceOf(sim), cs[0]) {
      var m :| 0 <= m < |cs[0]| && SpaceOf(sim).idOf(cs[0][m]) == id;
      assert cs[0][m].id == id;
    } else {
      InSomeClique(sim, cs[1..], id);
      var k, m :| 0 <= k < |cs[1..]| && 0 <= m < |cs[1..][k]| && cs[1..][k][m].id == id;
      assert cs[k + 1][m].id == id;
    }
  }

  /** Of two close long candidates that fit no skill, one is in a batch that creates a skill. */
  lemma ClosePairsAreCovered(sim: Similarity, pending: seq<Candidate>, disk: seq<DiskSkill>, x: Candidate, y: Candidate)
    requires DistinctIds(pending) && CliqueLaws.Symmetric(sim) && x in pending && y in pending && x != y
    requires KindOf(sim, disk, x) == AtLong && KindOf(sim, disk, y) == AtLong
    requires sim(x.embedding, y.embedding) >= CLIQUE_MIN_SIM
    ensures IsCreated(Plan(sim, pending, disk), x) || IsCreated(Plan(sim, pending, disk), y)
  {
    var left := Unmatched(sim, pending, disk);
    LeftOver(sim, pending, disk);
    LeftOversAreExact(sim, pending, disk, x);
    LeftOversAreExact(sim, pending, disk, y);
    var k := CoveredByCreate(sim, left, x, y);
    var cs := CreateCliques(sim, left);
    var c := if x in cs[k] then x else y;
    CliqueIsCreated(cs, k, c);
    CreatedInPart(LoadedBatches(pending, disk), RoutedBatches(sim, Unloaded(pending, disk), disk),
      CliqueBatches(Create, cs), CliqueBatches(Alert, AlertCliques(sim, left)), c);
  }

  /** Five close short candidates that fit no skill raise an alert, if two of them have no other close
      short one in common. */
  lemma CloseShortOnesRaiseAlert(
    sim: Similarity, pending: seq<Candidate>, disk: seq<DiskSkill>, g: seq<Candidate>, x: Candidate, y: Candidate)
    requires DistinctIds(pending) && CliqueLaws.Symmetric(sim) && DistinctIds(g) && |g| >= 5
    requires forall c :: c in g ==> c in pending && KindOf(sim, disk, c) == AtShort
    requires forall a, b :: a in g && b in g && a != b ==> sim(a.embedding, b.embedding) >= 0.70
    requires x in g && y in g && x.id < y.id
    requires forall c :: (c in pending && KindOf(sim, disk, c) == AtShort && sim(x.embedding, c.embedding) >= 0.70
                          && sim(y.embedding, c.embedding) >= 0.70) ==> c in g
    ensures exists b :: b in Plan(sim, pending, disk) && b.action == Alert
  {
    var left := Unmatched(sim, pending, disk);
    var cs := AlertCliques(sim, left);
    LeftOver(sim, pending, disk);
    forall c | c in pending
      ensures c in Filter(left, Short) && c.embedding != [] <==> KindOf(sim, disk, c) == AtShort
    {
      LeftOversAreExact(sim, pending, disk, c);
      FilterIsExact(left, Short);
    }
    AlertIsRaised(sim, pending, left, g, x, y);
    CliqueIsAlerted(cs, 0);
    var b := CliqueBatches(Alert, cs)[0];
    assert b in Plan(sim, pending, disk);
  }

  lemma AlertIsRaised(
    sim: Similarity, pending: seq<Candidate>, left: seq<Candidate>, g: seq<Candidate>, x: Candidate, y: Candidate)
    requires DistinctIds(left) && CliqueLaws.Symmetric(sim) && DistinctIds(g) && |g| >= 5
    requires forall c :: c in left ==> c in pending
    requires forall c :: c in g ==> c in Filter(left, Short) && c.embedding != []
    requires forall a, b :: a in g && b in g && a != b ==> sim(a.embedding, b.embedding) >= 0.70
    requires x in g && y in g && x.id < y.id
    requires forall c :: (c in pending && c in Filter(left, Short) && c.embedding != []
                          && sim(x.embedding, c.embedding) >= 0.70 && sim(y.embedding, c.embedding) >= 0.70) ==> c in g
    ensures AlertCliques(sim, left) != []
  {
    var sp, group := SpaceOf(sim), Filter(left, Short);
    FilterIsExact(left, Short);
    assert Normalize(ALERT_LIMITS).minSize == 5;
    LinkedGroupIsFound(sp, ALERT_LIMITS, 0, group, g, x, y);
  }

  lemma CliqueIsAlerted(cs: seq<seq<Candidate>>, k: nat)
    requires k < |cs|
    ensures |CliqueBatches(Alert, cs)| == |cs| && CliqueBatches(Alert, cs)[k].action == Alert
  {
  }

  lemma LeftOversAreExact(sim: Similarity, pending: seq<Candidate>, disk: seq<DiskSkill>, c: Candidate)
    requires c in pending
    ensures c in Unmatched(sim, pending, disk) <==> LoadedKey(ByName(disk))(c) == None && RouteKey(sim, disk)(c) == None
  {
    FilterIsExact(pending, Under(LoadedKey(ByName(disk)), None));
    FilterIsExact(Unloaded(pending, disk), Under(RouteKey(sim, disk), None));
  }

  lemma CoveredByCreate(sim: Similarity, left: seq<Candidate>, x: Candidate, y: Candidate) returns (k: nat)
    requires DistinctIds(left) && CliqueLaws.Symmetric(sim) && x in left && y in left && x != y && Long(x) && Long(y)
    requires sim(x.embedding, y.embedding) >= CLIQUE_MIN_SIM
    ensures k < |CreateCliques(sim, left)| && (x in CreateCliques(sim, left)[k] || y in CreateCliques(sim, left)[k])
  {
    var sp, group, cs := SpaceOf(sim), Filter(left, Long), CreateCliques(sim, left);
    FilterIsExact(left, Long);
    assert Eligible(sp, CREATE_LIMITS, 0, x, y);
    CliquesCover(sp, CREATE_LIMITS, 0, group, x, y);
    var c := if sp.idOf(x) in AllIds(sp, cs) then x else y;
    InSomeClique(sim, cs, c.id);
    var p, m :| 0 <= p < |cs| && 0 <= m < |cs[p]| && cs[p][m].id == c.id;
    k := p;
    CliquePart(sim, Create, CREATE_LIMITS, group, p);
    assert cs[p][m] in cs[p];
    SameIdSameCandidate(group, cs[p][m], c);
  }
}
