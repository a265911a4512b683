/** Which procedural candidates go into which skill batch (services/coven/skills.go): candidates of a
    known loaded skill, candidates routed to the closest skill, and cliques of what is left. */
module SkillPlans {
  import opened Wrappers
  import opened Sorting
  import opened GoStrings
  import opened Cliques

  datatype Candidate = Candidate(
    id: int, domain: string, loadedSkill: string, steps: seq<string>, avoid: seq<string>, embedding: Vec)

  datatype DiskSkill = DiskSkill(name: string, domain: string, relPath: string, rawContent: string, embedding: Vec)

  datatype Action = Edit | Create | Alert

  datatype Batch = Batch(
    action: Action, target: Option<DiskSkill>, domain: string, candidates: seq<Candidate>, requireReview: bool)

  const MATCH_MIN_SIM := 0.72
  const CLIQUE_MIN_SIM := 0.70
  const CLIQUE_MIN_SIZE := 2
  const CLIQUE_MAX_SIZE := 5
  const CREATE_MIN_STEPS := 3
  const SHORT_MIN_REPEATS := 5

  const CORE_SKILLS: set<string> := {
    "self-improvement", "incident-triage", "transcript-search", "brainstorming", "writing-plans",
    "test-driven-development", "systematic-debugging", "verification-before-completion",
    "receiving-code-review", "dispatching-parallel-agents", "writing-skills", "agy-customizations",
    "antigravity-guide" }

  type Similarity = (Vec, Vec) -> real

  function SpaceOf(sim: Similarity): Space<Candidate> {
    Space((c: Candidate) => c.id, (c: Candidate) => c.embedding, sim)
  }

  // ----- Names -----

  /** The byte-wise order of sort.Strings. */
  predicate Before(a: string, b: string) {
    b != "" && (a == "" || a[0] < b[0] || (a[0] == b[0] && Before(a[1..], b[1..])))
  }

  function NameOrder(): (string, string) -> bool {
    (a: string, b: string) => Before(a, b)
  }

  lemma {:induction false} BeforeIsAsymmetric(a: string, b: string)
    ensures Before(a, b) ==> !Before(b, a)
    ensures a != b ==> Before(a, b) || Before(b, a)
  {
    if a != "" && b != "" {
      BeforeIsAsymmetric(a[1..], b[1..]);
      assert a == [a[0]] + a[1..] && b == [b[0]] + b[1..];
    }
  }

  lemma {:induction false} NotBeforeIsTransitive(a: string, b: string, c: string)
    ensures !Before(a, b) && !Before(b, c) ==> !Before(a, c)
  {
    if a != "" && b != "" && c != "" {
      NotBeforeIsTransitive(a[1..], b[1..], c[1..]);
    }
  }

  lemma NameOrderIsTotal()
    ensures WeakOrder(NameOrder())
    ensures forall s: seq<string> :: NoTies(s, NameOrder())
  {
    forall a, b
      ensures Before(a, b) ==> !Before(b, a)
      ensures a != b ==> Before(a, b) || Before(b, a)
    {
      BeforeIsAsymmetric(a, b);
    }
    forall a, b, c
      ensures !Before(a, b) && !Before(b, c) ==> !Before(a, c)
    {
      NotBeforeIsTransitive(a, b, c);
    }
  }

  // ----- Grouping by a key -----

  type Key = Candidate -> Option<string>

  function Filter(s: seq<Candidate>, p: Candidate -> bool): seq<Candidate> {
    if s == [] then []
    else Filter(s[..|s| - 1], p) + (if p(s[|s| - 1]) then [s[|s| - 1]] else [])
  }

  function Under(key: Key, name: Option<string>): Candidate -> bool {
    (c: Candidate) => key(c) == name
  }

  /** The candidates under one name, in order. */
  function Keep(s: seq<Candidate>, key: Key, name: string): seq<Candidate> {
    Filter(s, Under(key, Some(name)))
  }

  /** The candidates under no name, in order. */
  function Rest(s: seq<Candidate>, key: Key): seq<Candidate> {
    Filter(s, Under(key, None))
  }

  /** The names in order of first appearance. */
  function Names(s: seq<Candidate>, key: Key): seq<string> {
    if s == [] then []
    else
      var names, k := Names(s[..|s| - 1], key), key(s[|s| - 1]);
      if k.None? || k.value in names then names else names + [k.value]
  }

  function SortedNames(s: seq<Candidate>, key: Key): seq<string> {
    Sort(Names(s, key), NameOrder())
  }

  // ----- The plan as a function of candidates and skills -----

  /** Later skills of the same name win. */
  function ByName(disk: seq<DiskSkill>): map<string, DiskSkill> {
    if disk == [] then map[] else ByName(disk[..|disk| - 1])[disk[|disk| - 1].name := disk[|disk| - 1]]
  }

  function LoadedKey(byName: map<string, DiskSkill>): Key {
    (c: Candidate) => if c.loadedSkill != "" && c.loadedSkill in byName then Some(c.loadedSkill) else None
  }

  datatype Best = Best(skill: Option<DiskSkill>, sim: real)

  function BestMatch(sim: Similarity, emb: Vec, disk: seq<DiskSkill>): Best {
    if disk == [] then Best(None, -1.0)
    else
      var best, last := BestMatch(sim, emb, disk[..|disk| - 1]), disk[|disk| - 1];
      if last.embedding != [] &&
        sim(emb, last.embedding) > best.sim then Best(Some(last), sim(emb, last.embedding)) else best
  }

  function RouteKey(sim: Similarity, disk: seq<DiskSkill>): Key {
    (c: Candidate) =>
      if c.embedding == [] || disk == [] then None
      else
        var best := BestMatch(sim, c.embedding, disk);
        if best.skill.Some? && best.sim >= MATCH_MIN_SIM then Some(best.skill.value.name) else None
  }

  predicate RequiresReview(cands: seq<Candidate>) {
    exists i :: 0 <= i < |cands| && TrimSpace(cands[i].loadedSkill) in CORE_SKILLS
  }

  predicate HasAvoid(cands: seq<Candidate>) {
    exists i :: 0 <= i < |cands| && cands[i].avoid != []
  }

  /** One candidate is enough only if it says what to avoid. */
  predicate WorthEditing(cands: seq<Candidate>) {
    |cands| >= 2 || HasAvoid(cands)
  }

  function EditBatch(target: DiskSkill, cands: seq<Candidate>): Batch {
    Batch(Edit, Some(target), target.domain, cands, RequiresReview(cands))
  }

  function EditBatches(
    names: seq<string>, byName: map<string, DiskSkill>, s: seq<Candidate>, key: Key, always: bool): seq<Batch>
    requires forall i :: 0 <= i < |names| ==> names[i] in byName
  {
    if names == [] then []
    else
      var name := names[|names| - 1];
      var group := Keep(s, key, name);
      EditBatches(names[..|names| - 1], byName, s, key, always)
      + (if always || WorthEditing(group) then [EditBatch(byName[name], group)] else [])
  }

  predicate Long(c: Candidate) {
    c.embedding != [] && |c.steps| >= CREATE_MIN_STEPS
  }

  predicate Short(c: Candidate) {
    c.embedding != [] && |c.steps| < CREATE_MIN_STEPS
  }

  function CliqueBatch(action: Action, clique: seq<Candidate>): Batch {
    Batch(action, None, if clique != [] && clique[0].domain != "" then clique[0].domain else "discord",
      clique, action != Alert && RequiresReview(clique))
  }

  function CliqueBatches(action: Action, cliques: seq<seq<Candidate>>): seq<Batch> {
    seq(|cliques|, i requires 0 <= i < |cliques| => CliqueBatch(action, cliques[i]))
  }

  const CREATE_LIMITS := Limits(CLIQUE_MIN_SIM, 1.0, CLIQUE_MIN_SIZE, CLIQUE_MAX_SIZE)
  const ALERT_LIMITS := Limits(CLIQUE_MIN_SIM, 1.0, SHORT_MIN_REPEATS, SHORT_MIN_REPEATS)

  function LoadedBatches(pending: seq<Candidate>, disk: seq<DiskSkill>): seq<Batch> {
    var byName := ByName(disk);
    LoadedNamesAreKnown(pending, byName);
    EditBatches(SortedNames(pending, LoadedKey(byName)), byName, pending, LoadedKey(byName), false)
  }

  function Unloaded(pending: seq<Candidate>, disk: seq<DiskSkill>): seq<Candidate> {
    Rest(pending, LoadedKey(ByName(disk)))
  }

  function RoutedBatches(sim: Similarity, unloaded: seq<Candidate>, disk: seq<DiskSkill>): seq<Batch> {
    RoutedNamesAreKnown(sim, unloaded, disk);
    EditBatches(SortedNames(unloaded, RouteKey(sim, disk)), ByName(disk), unloaded, RouteKey(sim, disk), true)
  }

  function Unmatched(sim: Similarity, pending: seq<Candidate>, disk: seq<DiskSkill>): seq<Candidate> {
    Rest(Unloaded(pending, disk), RouteKey(sim, disk))
  }

  function CreateCliques(sim: Similarity, left: seq<Candidate>): seq<seq<Candidate>> {
    FoundCliques(SpaceOf(sim), CREATE_LIMITS, 0, Filter(left, Long))
  }

  function AlertCliques(sim: Similarity, left: seq<Candidate>): seq<seq<Candidate>> {
    FoundCliques(SpaceOf(sim), ALERT_LIMITS, 0, Filter(left, Short))
  }

  function Plan(sim: Similarity, pending: seq<Candidate>, disk: seq<DiskSkill>): seq<Batch> {
    var left := Unmatched(sim, pending, disk);
    LoadedBatches(pending, disk) + RoutedBatches(sim, Unloaded(pending, disk), disk)
    + CliqueBatches(Create, CreateCliques(sim, left)) + CliqueBatches(Alert, AlertCliques(sim, left))
  }

  lemma {:induction false} NamesAreKeys(s: seq<Candidate>, key: Key)
    ensures forall name :: name in Names(s, key) <==> Keep(s, key, name) != []
    ensures forall i, j :: 0 <= i < j < |Names(s, key)| ==> Names(s, key)[i] != Names(s, key)[j]
    ensures forall name :: name in Names(s, key) ==> exists i :: 0 <= i < |s| && key(s[i]) == Some(name)
  {
    if s != [] {
      var front, last := s[..|s| - 1], s[|s| - 1];
      NamesAreKeys(front, key);
      assert forall i :: 0 <= i < |front| ==> front[i] == s[i];
      forall name | name in Names(s, key)
        ensures exists i :: 0 <= i < |s| && key(s[i]) == Some(name)
      {
        if name in Names(front, key) {
          var i :| 0 <= i < |front| && key(front[i]) == Some(name);
          assert key(s[i]) == Some(name);
        } else {
          assert key(s[|s| - 1]) == Some(name);
        }
      }
    }
  }

  lemma LoadedNamesAreKnown(s: seq<Candidate>, byName: map<string, DiskSkill>)
    ensures var names := SortedNames(s, LoadedKey(byName)); forall i :: 0 <= i < |names| ==> names[i] in byName
  {
    var key := LoadedKey(byName);
    NamesAreKeys(s, key);
    SortKeepsElements(Names(s, key), NameOrder());
    var names := SortedNames(s, key);
    forall i | 0 <= i < |names|
      ensures names[i] in byName
    {
      assert names[i] in Names(s, key);
    }
  }

  lemma {:induction false} BestIsOnDisk(sim: Similarity, emb: Vec, disk: seq<DiskSkill>)
    ensures var best := BestMatch(sim, emb, disk); best.skill.Some? ==> best.skill.value.name in ByName(disk)
  {
    if disk != [] {
      BestIsOnDisk(sim, emb, disk[..|disk| - 1]);
    }
  }

  lemma RoutedNamesAreKnown(sim: Similarity, s: seq<Candidate>, disk: seq<DiskSkill>)
    ensures var names := SortedNames(s, RouteKey(sim, disk)); forall i :: 0 <= i < |names| ==> names[i] in ByName(disk)
  {
    var key := RouteKey(sim, disk);
    NamesAreKeys(s, key);
    SortKeepsElements(Names(s, key), NameOrder());
    var names := SortedNames(s, key);
    forall i | 0 <= i < |names|
      ensures names[i] in ByName(disk)
    {
      assert names[i] in Names(s, key);
      var k :| 0 <= k < |s| && key(s[k]) == Some(names[i]);
      BestIsOnDisk(sim, s[k].embedding, disk);
    }
  }

  // ----- The program -----

  method BatchRequiresReview(cands: seq<Candidate>) returns (r: bool)
    ensures r == RequiresReview(cands)
  {
    for n := 0 to |cands|
      invariant forall i :: 0 <= i < n ==> TrimSpace(cands[i].loadedSkill) !in CORE_SKILLS
    {
      if TrimSpace(cands[n].loadedSkill) in CORE_SKILLS {
        return true;
      }
    }
    return false;
  }

  method HasCandidateWithAvoid(cands: seq<Candidate>) returns (r: bool)
    ensures r == HasAvoid(cands)
  {
    for n := 0 to |cands|
      invariant forall i :: 0 <= i < n ==> cands[i].avoid == []
    {
      if cands[n].avoid != [] {
        return true;
      }
    }
    return false;
  }

  method FindBestMatchingDiskSkill(sim: Similarity, emb: Vec, disk: seq<DiskSkill>) returns (best: Best)
    ensures best == BestMatch(sim, emb, disk)
  {
    best := Best(None, -1.0);
    for n := 0 to |disk|
      invariant best == BestMatch(sim, emb, disk[..n])
    {
      assert disk[..n + 1][..n] == disk[..n];
      if disk[n].embedding == [] {
        continue;
      }
      var s := sim(emb, disk[n].embedding);
      if s > best.sim {
        best := Best(Some(disk[n]), s);
      }
    }
    assert disk[..|disk|] == disk;
  }

  /** The map of groups and the list of leftovers hold the whole of s. */
  ghost predicate Grouped(groups: map<string, seq<Candidate>>, rest: seq<Candidate>, s: seq<Candidate>, key: Key) {
    && (forall name :: name in groups <==> Keep(s, key, name) != [])
    && (forall name :: name in groups ==> groups[name] == Keep(s, key, name))
    && rest == Rest(s, key)
  }

  function AddTo(groups: map<string, seq<Candidate>>, name: string, c: Candidate): map<string, seq<Candidate>> {
    groups[name := (if name in groups then groups[name] else []) + [c]]
  }

  lemma FilterStep(s: seq<Candidate>, p: Candidate -> bool, c: Candidate)
    ensures Filter(s + [c], p) == if p(c) then Filter(s, p) + [c] else Filter(s, p)
  {
    assert (s + [c])[..|s|] == s;
    assert Filter(s, p) + [] == Filter(s, p);
  }

  lemma KeepStep(s: seq<Candidate>, key: Key, c: Candidate, name: string)
    ensures Keep(s + [c], key, name) == if key(c) == Some(name) then Keep(s, key, name) + [c] else Keep(s, key, name)
  {
    FilterStep(s, Under(key, Some(name)), c);
  }

  lemma GroupedStep(
    groups: map<string, seq<Candidate>>, rest: seq<Candidate>, s: seq<Candidate>, key: Key, c: Candidate)
    requires Grouped(groups, rest, s, key)
    ensures key(c).None? ==> Grouped(groups, rest + [c], s + [c], key)
    ensures key(c).Some? ==> Grouped(AddTo(groups, key(c).value, c), rest, s + [c], key)
  {
    FilterStep(s, Under(key, None), c);
    if key(c).None? {
      forall name
        ensures Keep(s + [c], key, name) == Keep(s, key, name)
      {
        KeepStep(s, key, c, name);
      }
    } else {
      var more := AddTo(groups, key(c).value, c);
      forall name
        ensures name in more <==> Keep(s + [c], key, name) != []
        ensures name in more ==> more[name] == Keep(s + [c], key, name)
      {
        KeepStep(s, key, c, name);
      }
    }
  }

  /** The keys of a map in some order, then sorted: the order of the map does not matter. */
  method SortedKeys(groups: map<string, seq<Candidate>>, ghost s: seq<Candidate>, ghost key: Key)
    returns (names: seq<string>)
    requires Grouped(groups, Rest(s, key), s, key)
    ensures names == SortedNames(s, key)
  {
    names := [];
    var left := groups.Keys;
    while left != {}
      invariant forall name :: name in groups <==> name in names || name in left
      invariant forall name :: name in names ==> name !in left
      invariant forall i, j :: 0 <= i < j < |names| ==> names[i] != names[j]
      decreases left
    {
      EmptyOrNot(left);
      var name :| name in left;
      names, left := names + [name], left - {name};
    }
    NamesAreKeys(s, key);
    SameNames(names, Names(s, key));
    NameOrderIsTotal();
    SortIgnoresOrder(names, Names(s, key), NameOrder());
    names := Sort(names, NameOrder());
  }

  lemma CountOfDistinct(s: seq<string>, x: string)
    requires forall i, j :: 0 <= i < j < |s| ==> s[i] != s[j]
    ensures multiset(s)[x] == if x in s then 1 else 0
  {
    if s != [] {
      CountOfDistinct(s[1..], x);
      assert s == [s[0]] + s[1..];
    }
  }

  lemma SameNames(s: seq<string>, t: seq<string>)
    requires forall i, j :: 0 <= i < j < |s| ==> s[i] != s[j]
    requires forall i, j :: 0 <= i < j < |t| ==> t[i] != t[j]
    requires forall x :: x in s <==> x in t
    ensures multiset(s) == multiset(t)
  {
    forall x
      ensures multiset(s)[x] == multiset(t)[x]
    {
      CountOfDistinct(s, x);
      CountOfDistinct(t, x);
    }
  }

  method BuildEditBatches(
    names: seq<string>, byName: map<string, DiskSkill>, groups: map<string, seq<Candidate>>, always: bool,
    ghost s: seq<Candidate>, ghost key: Key) returns (batches: seq<Batch>)
    requires Grouped(groups, Rest(s, key), s, key)
    requires forall i :: 0 <= i < |names| ==> names[i] in byName && names[i] in groups
    ensures batches == EditBatches(names, byName, s, key, always)
  {
    batches := [];
    for n := 0 to |names|
      invariant batches == EditBatches(names[..n], byName, s, key, always)
    {
      assert names[..n + 1][..n] == names[..n];
      var group := groups[names[n]];
      var avoid := HasCandidateWithAvoid(group);
      if always || |group| >= 2 || avoid {
        var review := BatchRequiresReview(group);
        var target := byName[names[n]];
        batches := batches + [Batch(Edit, Some(target), target.domain, group, review)];
      }
    }
    assert names[..|names|] == names;
  }

  method PlanLoadedSkillBatches(pending: seq<Candidate>, ghost disk: seq<DiskSkill>, byName: map<string, DiskSkill>)
    returns (batches: seq<Batch>, remaining: seq<Candidate>)
    requires byName == ByName(disk)
    ensures batches == LoadedBatches(pending, disk) && remaining == Unloaded(pending, disk)
  {
    var groups: map<string, seq<Candidate>> := map[];
    remaining := [];
    ghost var key := LoadedKey(byName);
    for n := 0 to |pending|
      invariant Grouped(groups, remaining, pending[..n], key)
    {
      var c := pending[n];
      GroupedStep(groups, remaining, pending[..n], key, c);
      assert pending[..n + 1] == pending[..n] + [c];
      if c.loadedSkill != "" && c.loadedSkill in byName {
        groups := AddTo(groups, c.loadedSkill, c);
      } else {
        remaining := remaining + [c];
      }
    }
    assert pending[..|pending|] == pending;
    var names := SortedKeys(groups, pending, key);
    NamesHaveGroups(pending, key);
    LoadedNamesAreKnown(pending, byName);
    batches := BuildEditBatches(names, byName, groups, false, pending, key);
  }

  lemma NamesHaveGroups(s: seq<Candidate>, key: Key)
    ensures var names := SortedNames(s, key); forall i :: 0 <= i < |names| ==> Keep(s, key, names[i]) != []
  {
    NamesAreKeys(s, key);
    SortKeepsElements(Names(s, key), NameOrder());
    var names := SortedNames(s, key);
    forall i | 0 <= i < |names|
      ensures Keep(s, key, names[i]) != []
    {
      assert names[i] in Names(s, key);
    }
  }

  method PlanUnloadedSkillBatches(
    sim: Similarity, remaining: seq<Candidate>, disk: seq<DiskSkill>, byName: map<string, DiskSkill>)
    returns (batches: seq<Batch>, unmatched: seq<Candidate>)
    requires byName == ByName(disk)
    ensures batches == RoutedBatches(sim, remaining, disk) && unmatched == Rest(remaining, RouteKey(sim, disk))
  {
    var groups: map<string, seq<Candidate>> := map[];
    unmatched := [];
    ghost var key := RouteKey(sim, disk);
    for n := 0 to |remaining|
      invariant Grouped(groups, unmatched, remaining[..n], key)
    {
      var c := remaining[n];
      GroupedStep(groups, unmatched, remaining[..n], key, c);
      assert remaining[..n + 1] == remaining[..n] + [c];
      if c.embedding == [] || disk == [] {
        unmatched := unmatched + [c];
        continue;
      }
      var best := FindBestMatchingDiskSkill(sim, c.embedding, disk);
      if best.skill.Some? && best.sim >= MATCH_MIN_SIM {
        groups := AddTo(groups, best.skill.value.name, c);
      } else {
        unmatched := unmatched + [c];
      }
    }
    assert remaining[..|remaining|] == remaining;
    var names := SortedKeys(groups, remaining, key);
    NamesHaveGroups(remaining, key);
    RoutedNamesAreKnown(sim, remaining, disk);
    batches := BuildEditBatches(names, byName, groups, true, remaining, key);
  }

  method FilterCandidates(s: seq<Candidate>, p: Candidate -> bool) returns (group: seq<Candidate>)
    ensures group == Filter(s, p)
  {
    group := [];
    for n := 0 to |s|
      invariant group == Filter(s[..n], p)
    {
      assert s[..n + 1][..n] == s[..n];
      if p(s[n]) {
        group := group + [s[n]];
      }
    }
    assert s[..|s|] == s;
  }

  /** The limits after defaults. */
  function CandidateLimits(minSim: real, minSize: int, maxSize: int): Limits {
    var size := if minSize <= 0 then CLIQUE_MIN_SIZE else minSize;
    Limits(if minSim <= 0.0 then CLIQUE_MIN_SIM else minSim, 1.0, size, if maxSize < size then CLIQUE_MAX_SIZE
      else maxSize)
  }

  method FindCandidateCliques(sim: Similarity, cands: seq<Candidate>, minSim: real, minSize: int, maxSize: int)
    returns (cliques: seq<seq<Candidate>>)
    ensures var lim := CandidateLimits(minSim, minSize, maxSize);
      cliques == FoundCliques(SpaceOf(sim), lim, 0, if lim.minSize < SHORT_MIN_REPEATS then Filter(cands, Long)
        else cands)
  {
    var lim := CandidateLimits(minSim, minSize, maxSize);
    var group := cands;
    if lim.minSize < SHORT_MIN_REPEATS {
      group := FilterCandidates(cands, Long);
    }
    cliques := FindCompleteLinkageCliques(SpaceOf(sim), lim, 0, group);
  }

  method AppendCliqueBatches(before: seq<Batch>, cliques: seq<seq<Candidate>>, action: Action)
    returns (batches: seq<Batch>)
    ensures batches == before + CliqueBatches(action, cliques)
  {
    batches := before;
    for n := 0 to |cliques|
      invariant batches == before + CliqueBatches(action, cliques)[..n]
    {
      var clique := cliques[n];
      var domain := "discord";
      if |clique| > 0 && clique[0].domain != "" {
        domain := clique[0].domain;
      }
      var review := BatchRequiresReview(clique);
      batches := batches + [Batch(action, None, domain, clique, action != Alert && review)];
      assert CliqueBatches(action, cliques)[..n + 1] ==
        CliqueBatches(action, cliques)[..n] + [CliqueBatch(action, clique)];
    }
    assert CliqueBatches(action, cliques)[..|cliques|] == CliqueBatches(action, cliques);
  }

  method IndexByName(disk: seq<DiskSkill>) returns (byName: map<string, DiskSkill>)
    ensures byName == ByName(disk)
  {
    byName := map[];
    for n := 0 to |disk|
      invariant byName == ByName(disk[..n])
    {
      assert disk[..n + 1][..n] == disk[..n];
      byName := byName[disk[n].name := disk[n]];
    }
    assert disk[..|disk|] == disk;
  }

  method PlanSkillConsolidation(sim: Similarity, pending: seq<Candidate>, disk: seq<DiskSkill>)
    returns (batches: seq<Batch>)
    ensures batches == Plan(sim, pending, disk)
  {
    var byName := IndexByName(disk);
    var loaded, remaining := PlanLoadedSkillBatches(pending, disk, byName);
    var routed, unmatched := PlanUnloadedSkillBatches(sim, remaining, disk, byName);
    var creates := FindCandidateCliques(sim, unmatched, CLIQUE_MIN_SIM, CLIQUE_MIN_SIZE, CLIQUE_MAX_SIZE);
    batches := AppendCliqueBatches(loaded + routed, creates, Create);
    var short := FilterCandidates(unmatched, Short);
    var alerts := FindCandidateCliques(sim, short, CLIQUE_MIN_SIM, SHORT_MIN_REPEATS, SHORT_MIN_REPEATS);
    batches := AppendCliqueBatches(batches, alerts, Alert);
  }
}
