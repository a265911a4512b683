/** Compiling skill batches into file changes (services/coven/skills.go and github.go). The designer's
    replies, the YAML parser and letter case are arbitrary; so is the outcome of every store and GitHub call. */
module SkillStaging {
  import opened Wrappers
  import opened Sorting
  import opened GoStrings
  import opened Cliques
  import CliqueLaws
  import opened SkillPlans
  import opened SkillPlanLaws

  // ----- Names and paths -----

  predicate ValidName(name: string) {
    name != "" && forall i :: 0 <= i < |name| ==> 'a' <= name[i] <= 'z' || '0' <= name[i] <= '9' || name[i] == '-'
  }

  const COMMON := "custom-skills/common/"
  const DISCORD := "custom-skills/discord/"
  const SUFFIX := "/SKILL.md"

  function Prefix(domain: string): string {
    "custom-skills/" + domain + "/"
  }

  function SkillPath(domain: string, name: string): string {
    Prefix(domain) + name + SUFFIX
  }

  predicate KnownDomain(domain: string) {
    domain == "common" || domain == "discord"
  }

  predicate Framed(path: string, prefix: string, suffix: string) {
    && |prefix| + |suffix| <= |path| && path[..|prefix|] == prefix && path[|path| - |suffix|..] == suffix
    && ValidName(path[|prefix|..|path| - |suffix|])
  }

  /** The publisher's path pattern. */
  predicate AcceptsPath(path: string) {
    Framed(path, COMMON, SUFFIX) || Framed(path, DISCORD, SUFFIX)
  }

  lemma FramedIff(path: string, prefix: string, suffix: string)
    ensures Framed(path, prefix, suffix) <==> exists name :: ValidName(name) && path == prefix + name + suffix
  {
    if Framed(path, prefix, suffix) {
      var name := path[|prefix|..|path| - |suffix|];
      assert path == path[..|prefix|] + name + path[|path| - |suffix|..];
    }
    if exists name :: ValidName(name) && path == prefix + name + suffix {
      var name :| ValidName(name) && path == prefix + name + suffix;
      assert path[..|prefix|] == prefix && path[|path| - |suffix|..] == suffix &&
        path[|prefix|..|path| - |suffix|] == name;
    }
  }

  /** Exactly the paths of validly named skills of a known domain pass. */
  lemma AcceptsExactlySkillPaths(path: string)
    ensures AcceptsPath(path) <==>
      exists domain, name :: KnownDomain(domain) && ValidName(name) && path == SkillPath(domain, name)
  {
    assert Prefix("common") == COMMON && Prefix("discord") == DISCORD;
    FramedIff(path, COMMON, SUFFIX);
    FramedIff(path, DISCORD, SUFFIX);
    if Framed(path, COMMON, SUFFIX) {
      var name :| ValidName(name) && path == COMMON + name + SUFFIX;
      assert path == SkillPath("common", name);
    } else if Framed(path, DISCORD, SUFFIX) {
      var name :| ValidName(name) && path == DISCORD + name + SUFFIX;
      assert path == SkillPath("discord", name);
    }
  }

  lemma SameFrame(prefix: string, a: string, b: string, suffix: string)
    requires prefix + a + suffix == prefix + b + suffix
    ensures a == b
  {
    var path := prefix + a + suffix;
    assert a == path[|prefix|..|path| - |suffix|] == b;
  }

  /** A path names one skill, whatever characters the name has. */
  lemma PathDetermines(d: string, a: string, e: string, b: string)
    requires KnownDomain(d) && KnownDomain(e) && SkillPath(d, a) == SkillPath(e, b)
    ensures d == e && a == b
  {
    assert SkillPath(d, a)[14] == d[0] && SkillPath(e, b)[14] == e[0];
    SameFrame(Prefix(d), a, b, SUFFIX);
  }

  // ----- Skills on disk -----

  ghost predicate WellFormed(s: DiskSkill) {
    KnownDomain(s.domain) && s.relPath == SkillPath(s.domain, s.name)
  }

  ghost predicate AllWellFormed(disk: seq<DiskSkill>) {
    forall i :: 0 <= i < |disk| ==> WellFormed(disk[i])
  }

  datatype Front = Front(name: string, description: string)

  /** What the program takes from elsewhere. */
  datatype Tools = Tools(clean: string -> string, front: string -> Option<Front>, upper: string -> string,
    lower: string -> string)

  function SkillOrder(): (DiskSkill, DiskSkill) -> bool {
    (a: DiskSkill, b: DiskSkill) => if a.domain != b.domain then Before(a.domain, b.domain) else Before(a.name, b.name)
  }

  ghost predicate ReadFrom(t: Tools, embed: string -> Option<Vec>, domain: string, content: string, s: DiskSkill) {
    var front := t.front(content);
    && front.Some? && s.name == front.value.name && s.domain == domain && s.rawContent == content
    && s.relPath == SkillPath(domain, s.name) && embed(s.name + ": " + front.value.description) == Some(s.embedding)
  }

  /** The file has front matter, and its embedding can be made. */
  predicate Readable(t: Tools, embed: string -> Option<Vec>, content: string) {
    var front := t.front(content);
    front.Some? && embed(front.value.name + ": " + front.value.description).Some?
  }

  /** One skill for each file, in order. */
  ghost predicate AllRead(
    t: Tools, embed: string -> Option<Vec>, domain: string, contents: seq<string>, found: seq<DiskSkill>) {
    |found| == |contents| && forall i :: 0 <= i < |found| ==> ReadFrom(t, embed, domain, contents[i], found[i])
  }

  method ScanDomain(t: Tools, domain: string, contents: seq<string>, embed: string -> Option<Vec>)
    returns (skills: Option<seq<DiskSkill>>)
    ensures skills.Some? ==> AllRead(t, embed, domain, contents, skills.value)
    ensures skills.Some? <==> forall i :: 0 <= i < |contents| ==> Readable(t, embed, contents[i])
  {
    var found: seq<DiskSkill> := [];
    for n := 0 to |contents|
      invariant AllRead(t, embed, domain, contents[..n], found)
      invariant forall i :: 0 <= i < n ==> Readable(t, embed, contents[i])
    {
      var front := t.front(contents[n]);
      if front.None? {
        return None;
      }
      var name := front.value.name;
      var vec := embed(name + ": " + front.value.description);
      if vec.None? {
        return None;
      }
      found := found + [DiskSkill(name, domain, SkillPath(domain, name), contents[n], vec.value)];
    }
    skills := Some(found);
  }

  /** Reads the skill files of both domains; one bad file or one failed embedding stops the scan. */
  method ScanCustomSkills(t: Tools, common: seq<string>, discord: seq<string>, embed: string -> Option<Vec>)
    returns (skills: Option<seq<DiskSkill>>, ghost found: seq<DiskSkill>, ghost more: seq<DiskSkill>)
    ensures skills.Some? ==> AllWellFormed(skills.value) && |skills.value| == |common| + |discord|
    ensures skills.Some? <==> forall content :: content in common || content in discord ==> Readable(t, embed, content)
    ensures skills.Some? ==>
      && multiset(skills.value) == multiset(found + more)
      && AllRead(t, embed, "common", common, found) && AllRead(t, embed, "discord", discord, more)
  {
    found, more, skills := [], [], None;
    var a := ScanDomain(t, "common", common, embed);
    if a.None? {
      return;
    }
    var b := ScanDomain(t, "discord", discord, embed);
    if b.None? {
      return;
    }
    found, more := a.value, b.value;
    var all := a.value + b.value;
    SortKeepsElements(all, SkillOrder());
    SortIsPermutation(all, SkillOrder());
    var sorted := Sort(all, SkillOrder());
    assert AllWellFormed(all);
    forall i | 0 <= i < |sorted|
      ensures WellFormed(sorted[i])
    {
      assert sorted[i] in sorted;
    }
    skills := Some(sorted);
  }

  // ----- Validation -----

  datatype Compiled = Rejected | Compiled(name: string, relPath: string, markdown: string)

  function NormDomain(t: Tools, domain: string): string {
    if t.lower(TrimSpace(domain)) == "common" then "common" else "discord"
  }

  predicate HasName(disk: seq<DiskSkill>, name: string) {
    exists i :: 0 <= i < |disk| && disk[i].name == name
  }

  /** ValidateCompiledSkillMarkdown. */
  function Validate(
    t: Tools, action: string, domain: string, raw: string, target: Option<DiskSkill>,
    existing: seq<DiskSkill>): Compiled {
    var md := t.clean(raw);
    var front := t.front(md);
    if front.None? then Rejected
    else
      var name, desc, act := front.value.name, front.value.description, t.upper(TrimSpace(action));
      if !ValidName(name) || |desc| < 20 || |desc| > 500 || |md| < 100 || |md| > 16384 ||
        name in CORE_SKILLS then Rejected
      else if act == "EDIT" then
        if target.None? || name != target.value.name ||
          |md| < (|target.value.rawContent| as real * 0.70).Floor then Rejected
        else Compiled(name, target.value.relPath, md)
      else if act == "CREATE" then
        if HasName(existing, name) then Rejected else Compiled(name, SkillPath(NormDomain(t, domain), name), md)
      else Rejected
  }

  /** What passes validation names a publishable file: the target's own for an edit, a new skill's otherwise. */
  lemma ValidatedIsPublishable(
    t: Tools, action: string, domain: string, raw: string, target: Option<DiskSkill>, existing: seq<DiskSkill>)
    requires target.Some? ==> WellFormed(target.value)
    ensures var r := Validate(t, action, domain, raw, target, existing);
      r.Compiled? ==>
        && AcceptsPath(r.relPath) && r.name !in CORE_SKILLS
        && (exists d :: KnownDomain(d) && r.relPath == SkillPath(d, r.name))
        && (HasName(existing, r.name) ==>
          target.Some? && r.name == target.value.name && r.relPath == target.value.relPath)
  {
    var r := Validate(t, action, domain, raw, target, existing);
    if r.Compiled? {
      var d := if t.upper(TrimSpace(action)) == "EDIT" then target.value.domain else NormDomain(t, domain);
      assert r.relPath == SkillPath(d, r.name);
      AcceptsExactlySkillPaths(r.relPath);
    }
  }

  // ----- Staging -----

  predicate Hits(s: DiskSkill, name: string, relPath: string) {
    s.relPath == relPath || s.name == name
  }

  ghost predicate FirstHit(disk: seq<DiskSkill>, name: string, relPath: string, k: int) {
    0 <= k < |disk| && Hits(disk[k], name, relPath) && forall i :: 0 <= i < k ==> !Hits(disk[i], name, relPath)
  }

  /** Replaces the content of the first skill with this path or name, or appends a new skill. No skill is renamed. */
  method StageCompiledSkillInMemory(
    t: Tools, disk: seq<DiskSkill>, name: string, relPath: string, domain: string, md: string, ghost home: string)
    returns (staged: seq<DiskSkill>)
    requires AllWellFormed(disk) && KnownDomain(home) && relPath == SkillPath(home, name)
    ensures (exists k :: FirstHit(disk, name, relPath, k) && staged == disk[k := disk[k].(rawContent := md)])
      || ((forall i :: 0 <= i < |disk| ==> !Hits(disk[i], name, relPath))
          && staged == disk + [DiskSkill(name, NormDomain(t, domain), relPath, md, [])])
  {
    for i := 0 to |disk|
      invariant forall j :: 0 <= j < i ==> !Hits(disk[j], name, relPath)
    {
      if disk[i].relPath == relPath || disk[i].name == name {
        if disk[i].relPath == relPath {
          PathDetermines(disk[i].domain, disk[i].name, home, name);
        }
        assert FirstHit(disk, name, relPath, i);
        return disk[i := disk[i].(rawContent := md, name := name)];
      }
    }
    return disk + [DiskSkill(name, NormDomain(t, domain), relPath, md, [])];
  }

  datatype Change = Change(relPath: string, content: string, action: string, skillName: string, candidateIds: seq<int>,
    requireReview: bool)

  /** What the designer answers. */
  datatype Reply = NoReply | Reply(action: string, domain: string, markdown: string)

  datatype Outcome = Nothing | Skipped | Staged

  function BatchIds(b: Batch): seq<int> {
    seq(|b.candidates|, i requires 0 <= i < |b.candidates| => b.candidates[i].id)
  }

  function IdSet(ids: seq<int>): set<int> {
    set i | 0 <= i < |ids| :: ids[i]
  }

  lemma BatchIdSet(b: Batch)
    ensures IdSet(BatchIds(b)) == IdsOf(b)
  {
    forall x | x in IdsOf(b)
      ensures x in IdSet(BatchIds(b))
    {
      var i :| 0 <= i < |b.candidates| && b.candidates[i].id == x;
      assert BatchIds(b)[i] == x;
    }
  }

  ghost predicate Distinct(changes: seq<Change>) {
    forall i, j :: 0 <= i < j < |changes| ==>
      changes[i].relPath != changes[j].relPath && changes[i].skillName != changes[j].skillName
  }

  ghost predicate Publishable(ch: Change) {
    AcceptsPath(ch.relPath) && ch.skillName !in CORE_SKILLS && exists d ::
      KnownDomain(d) && ch.relPath == SkillPath(d, ch.skillName)
  }

  ghost predicate AllPublishable(changes: seq<Change>) {
    forall i :: 0 <= i < |changes| ==> Publishable(changes[i])
  }

  function Paths(changes: seq<Change>): set<string> {
    set i | 0 <= i < |changes| :: changes[i].relPath
  }

  function NamesIn(changes: seq<Change>): set<string> {
    set i | 0 <= i < |changes| :: changes[i].skillName
  }

  /** The sets hold exactly the paths and names of the changes. */
  ghost predicate Seen(changes: seq<Change>, paths: set<string>, names: set<string>) {
    paths == Paths(changes) && names == NamesIn(changes)
  }

  lemma SeenStep(changes: seq<Change>, ch: Change)
    ensures Paths(changes + [ch]) == Paths(changes) + {ch.relPath}
    ensures NamesIn(changes + [ch]) == NamesIn(changes) + {ch.skillName}
  {
    var more := changes + [ch];
    forall x | x in Paths(changes) + {ch.relPath}
      ensures x in Paths(more)
    {
      if x in Paths(changes) {
        var i :| 0 <= i < |changes| && changes[i].relPath == x;
        assert more[i].relPath == x;
      } else {
        assert more[|changes|].relPath == x;
      }
    }
    forall x | x in NamesIn(changes) + {ch.skillName}
      ensures x in NamesIn(more)
    {
      if x in NamesIn(changes) {
        var i :| 0 <= i < |changes| && changes[i].skillName == x;
        assert more[i].skillName == x;
      } else {
        assert more[|changes|].skillName == x;
      }
    }
  }

  lemma DistinctStep(changes: seq<Change>, ch: Change)
    requires Distinct(changes) && AllPublishable(changes)
    requires Publishable(ch) && ch.relPath !in Paths(changes) && ch.skillName !in NamesIn(changes)
    ensures Distinct(changes + [ch]) && AllPublishable(changes + [ch])
  {
    forall i | 0 <= i < |changes|
      ensures changes[i].relPath != ch.relPath && changes[i].skillName != ch.skillName
    {
      assert changes[i].relPath in Paths(changes) && changes[i].skillName in NamesIn(changes);
    }
  }

  /** `after` has the names of `before` and this one. */
  ghost predicate AddsName(before: seq<DiskSkill>, after: seq<DiskSkill>, name: string) {
    forall n :: HasName(after, n) <==> HasName(before, n) || n == name
  }

  ghost predicate TargetOn(disk: seq<DiskSkill>, b: Batch) {
    b.target.Some? ==> WellFormed(b.target.value) && HasName(disk, b.target.value.name)
  }

  lemma StagedIsWellFormed(disk: seq<DiskSkill>, staged: seq<DiskSkill>, k: int, md: string)
    requires AllWellFormed(disk) && 0 <= k < |disk| && staged == disk[k := disk[k].(rawContent := md)]
    ensures AllWellFormed(staged) && AddsName(disk, staged, disk[k].name)
  {
    forall name
      ensures HasName(staged, name) <==> HasName(disk, name)
    {
      if HasName(disk, name) {
        var i :| 0 <= i < |disk| && disk[i].name == name;
        assert staged[i].name == name;
      }
      if HasName(staged, name) {
        var i :| 0 <= i < |staged| && staged[i].name == name;
        assert disk[i].name == name;
      }
    }
    assert HasName(disk, disk[k].name);
  }

  lemma AppendedIsWellFormed(disk: seq<DiskSkill>, s: DiskSkill)
    requires AllWellFormed(disk) && WellFormed(s)
    ensures AllWellFormed(disk + [s]) && AddsName(disk, disk + [s], s.name)
  {
    var more := disk + [s];
    forall name
      ensures HasName(more, name) <==> HasName(disk, name) || name == s.name
    {
      if HasName(disk, name) {
        var i :| 0 <= i < |disk| && disk[i].name == name;
        assert more[i].name == name;
      }
      if HasName(more, name) {
        var i :| 0 <= i < |more| && more[i].name == name;
        assert i < |disk| ==> disk[i].name == name;
      }
      assert more[|disk|].name == s.name;
    }
  }

  /** Staging an accepted result keeps the skills well-formed and adds its name to theirs. */
  method Stage(t: Tools, disk: seq<DiskSkill>, action: string, domain: string, raw: string, target: Option<DiskSkill>)
    returns (staged: seq<DiskSkill>)
    requires AllWellFormed(disk) && (target.Some? ==> WellFormed(target.value) && HasName(disk, target.value.name))
    requires Validate(t, action, domain, raw, target, disk).Compiled?
    ensures AllWellFormed(staged) && AddsName(disk, staged, Validate(t, action, domain, raw, target, disk).name)
  {
    var r := Validate(t, action, domain, raw, target, disk);
    ghost var home := if t.upper(TrimSpace(action)) == "EDIT" then target.value.domain else NormDomain(t, domain);
    staged := StageCompiledSkillInMemory(t, disk, r.name, r.relPath, domain, r.markdown, home);
    if k :| FirstHit(disk, r.name, r.relPath, k) && staged == disk[k := disk[k].(rawContent := r.markdown)] {
      StagedIsWellFormed(disk, staged, k, r.markdown);
      if disk[k].relPath == r.relPath {
        PathDetermines(disk[k].domain, disk[k].name, home, r.name);
      }
    } else {
      assert !HasName(disk, r.name);
      AppendedIsWellFormed(disk, DiskSkill(r.name, NormDomain(t, domain), r.relPath, r.markdown, []));
    }
  }

  /** The domain a batch is compiled for. */
  function BatchDomain(b: Batch, reply: Reply): string
    requires reply.Reply?
  {
    if b.domain != "" then b.domain else if reply.domain != "" then reply.domain else "discord"
  }

  function ActionOf(t: Tools, reply: Reply): string
    requires reply.Reply?
  {
    t.upper(TrimSpace(reply.action))
  }

  function Compile(t: Tools, disk: seq<DiskSkill>, b: Batch, reply: Reply): Compiled
    requires reply.Reply?
  {
    Validate(t, ActionOf(t, reply), BatchDomain(b, reply), reply.markdown, b.target, disk)
  }

  /** What the outside answers while one batch is compiled. */
  datatype Answer = Answer(reply: Reply, sent: bool, marked: bool)

  datatype Snapshot = Snapshot(disk: seq<DiskSkill>, changes: seq<Change>, skipped: set<int>)

  /** An alert that was sent, or a designer's NOOP, is skipped if the store could be told. */
  predicate IsSkipped(t: Tools, b: Batch, a: Answer) {
    a.marked && if b.action == Alert then a.sent else a.reply.Reply? && ActionOf(t, a.reply) == "NOOP"
  }

  /** A valid edit or new skill is staged if neither its path nor its name was staged before. */
  predicate IsStaged(t: Tools, b: Batch, a: Answer, s: Snapshot) {
    && b.action != Alert && a.reply.Reply? && ActionOf(t, a.reply) in {"EDIT", "CREATE"}
    && var r := Compile(t, s.disk, b, a.reply);
      r.Compiled? && r.relPath !in Paths(s.changes) && r.name !in NamesIn(s.changes)
  }

  function ChangeFor(t: Tools, b: Batch, reply: Reply, r: Compiled): Change
    requires reply.Reply? && r.Compiled?
  {
    Change(r.relPath, r.markdown, ActionOf(t, reply), r.name, BatchIds(b), b.requireReview)
  }

  /** What compiling one batch does. */
  ghost predicate CompileStep(t: Tools, b: Batch, a: Answer, s: Snapshot, s': Snapshot) {
    if IsSkipped(t, b, a) then s' == s.(skipped := s.skipped + IdsOf(b))
    else if IsStaged(t, b, a, s) then
      var r := Compile(t, s.disk, b, a.reply);
      && s'.changes == s.changes + [ChangeFor(t, b, a.reply, r)] && s'.skipped == s.skipped
      && AddsName(s.disk, s'.disk, r.name)
    else s' == s
  }

  /** A run of the compiler over the batches, batch by batch. */
  ghost predicate IsCompilation(t: Tools, batches: seq<Batch>, answers: nat -> Answer, trace: seq<Snapshot>) {
    && |trace| == |batches| + 1
    && forall i: nat {:trigger CompileStep(t, batches[i], answers(i), trace[i], trace[i + 1])} :: i < |batches| ==>
      CompileStep(t, batches[i], answers(i), trace[i], trace[i + 1])
  }

  lemma CompilationStep(
    t: Tools, batches: seq<Batch>, answers: nat -> Answer, trace: seq<Snapshot>, b: Batch, s: Snapshot)
    requires IsCompilation(t, batches, answers, trace)
    requires CompileStep(t, b, answers(|batches|), trace[|batches|], s)
    ensures IsCompilation(t, batches + [b], answers, trace + [s])
  {
    var more, longer := batches + [b], trace + [s];
    forall i: nat | i < |more|
      ensures CompileStep(t, more[i], answers(i), longer[i], longer[i + 1])
    {
      if i < |batches| {
        assert CompileStep(t, batches[i], answers(i), trace[i], trace[i + 1]);
      }
    }
  }

  class Compilation {
    var disk: seq<DiskSkill>
    var changes: seq<Change>
    var published: seq<int>
    var seenPaths: set<string>
    var seenNames: set<string>
    var skipped: set<int>              // what the store has been told to skip

    ghost predicate Valid()
      reads this
    {
      AllWellFormed(disk) && Distinct(changes) && AllPublishable(changes) && Seen(changes, seenPaths, seenNames)
    }

    function Now(): Snapshot
      reads this
    {
      Snapshot(disk, changes, skipped)
    }

    constructor (disk: seq<DiskSkill>)
      requires AllWellFormed(disk)
      ensures Valid() && this.disk == disk && changes == [] && published == [] && skipped == {}
    {
      this.disk := disk;
      changes, published, seenPaths, seenNames, skipped := [], [], {}, {}, {};
    }

    /** An alert batch is announced and then skipped; `sent` and `marked` are the outcomes of the two calls. */
    method HandleAlertBatch(b: Batch, sent: bool, marked: bool) returns (handled: bool)
      modifies this`skipped
      ensures handled == (b.action == Alert)
      ensures skipped == old(skipped) + if handled && sent && marked then IdsOf(b) else {}
    {
      if b.action != Alert {
        return false;
      }
      if sent && marked {
        skipped := skipped + IdsOf(b);
      }
      return true;
    }

    /** Validates a reply and stages it unless its name or path is taken. */
    method StageReply(t: Tools, b: Batch, reply: Reply) returns (staged: bool)
      requires Valid() && TargetOn(disk, b) && reply.Reply?
      modifies this`disk, this`changes, this`published, this`seenPaths, this`seenNames
      ensures Valid()
      ensures !staged ==> changes == old(changes) && published == old(published) && disk == old(disk)
      ensures staged <==> var r := Compile(t, old(disk), b, reply);
        r.Compiled? && r.relPath !in Paths(old(changes)) && r.name !in NamesIn(old(changes))
      ensures staged ==> var r := Compile(t, old(disk), b, reply);
        && changes == old(changes) + [ChangeFor(t, b, reply, r)]
        && published == old(published) + BatchIds(b) && AddsName(old(disk), disk, r.name)
    {
      var action, domain := ActionOf(t, reply), BatchDomain(b, reply);
      var r := Validate(t, action, domain, reply.markdown, b.target, disk);
      if r.Rejected? || r.relPath in seenPaths || r.name in seenNames {
        return false;
      }
      ValidatedIsPublishable(t, action, domain, reply.markdown, b.target, disk);
      var ch := Change(r.relPath, r.markdown, action, r.name, BatchIds(b), b.requireReview);
      DistinctStep(changes, ch);
      SeenStep(changes, ch);
      var skills := Stage(t, disk, action, domain, reply.markdown, b.target);
      seenPaths, seenNames := seenPaths + {r.relPath}, seenNames + {r.name};
      disk, changes, published := skills, changes + [ch], published + BatchIds(b);
      return true;
    }

    /** A batch is skipped, staged as one change, or left pending, and never two of these. */
    method CompileSkillBatch(t: Tools, b: Batch, a: Answer) returns (outcome: Outcome)
      requires Valid() && TargetOn(disk, b)
      modifies this
      ensures Valid() && CompileStep(t, b, a, old(Now()), Now())
      ensures outcome == if IsSkipped(t, b, a) then Skipped else if IsStaged(t, b, a, old(Now())) then Staged
        else Nothing
      ensures published == old(published) + if outcome == Staged then BatchIds(b) else []
    {
      var alert := HandleAlertBatch(b, a.sent, a.marked);
      if alert {
        return if a.sent && a.marked then Skipped else Nothing;
      }
      if a.reply.NoReply? {
        return Nothing;
      }
      var action := ActionOf(t, a.reply);
      if action == "NOOP" {
        if a.marked {
          skipped := skipped + IdsOf(b);
          return Skipped;
        }
        return Nothing;
      }
      if action != "EDIT" && action != "CREATE" {
        return Nothing;
      }
      var staged := StageReply(t, b, a.reply);
      return if staged then Staged else Nothing;
    }
  }

  // ----- A whole run -----

  ghost function IdsIn(batches: seq<Batch>): set<int> {
    if batches == [] then {} else IdsIn(batches[..|batches| - 1]) + IdsOf(batches[|batches| - 1])
  }

  lemma {:induction false} LaterIsNew(batches: seq<Batch>, n: nat)
    requires Disjoint(batches) && n < |batches|
    ensures IdsIn(batches[..n]) !! IdsOf(batches[n])
    ensures IdsIn(batches[..n + 1]) == IdsIn(batches[..n]) + IdsOf(batches[n])
  {
    assert batches[..n + 1][..n] == batches[..n];
    EarlierAreOther(batches, n, n);
  }

  lemma {:induction false} EarlierAreOther(batches: seq<Batch>, n: nat, m: nat)
    requires Disjoint(batches) && m <= n < |batches|
    ensures IdsIn(batches[..m]) !! IdsOf(batches[n])
    decreases m
  {
    if m > 0 {
      assert batches[..m][..m - 1] == batches[..m - 1];
      EarlierAreOther(batches, n, m - 1);
    }
  }

  ghost predicate IdsDisjoint(changes: seq<Change>) {
    forall i, j :: 0 <= i < j < |changes| ==> IdSet(changes[i].candidateIds) !! IdSet(changes[j].candidateIds)
  }

  /** Changes, published and skipped candidates all come from `ids`, and no candidate has two fates. */
  ghost predicate OneFate(changes: seq<Change>, published: seq<int>, skipped: set<int>, ids: set<int>) {
    && IdsDisjoint(changes) && (forall i :: 0 <= i < |changes| ==> IdSet(changes[i].candidateIds) <= ids)
    && IdSet(published) <= ids && skipped <= ids && IdSet(published) !! skipped
    && (forall x :: x in IdSet(published) <==> exists i :: 0 <= i < |changes| && x in IdSet(changes[i].candidateIds))
  }

  lemma IdSetAppend(a: seq<int>, b: seq<int>)
    ensures IdSet(a + b) == IdSet(a) + IdSet(b)
  {
    forall x | x in IdSet(a) + IdSet(b)
      ensures x in IdSet(a + b)
    {
      if x in IdSet(a) {
        var i :| 0 <= i < |a| && a[i] == x;
        assert (a + b)[i] == x;
      } else {
        var i :| 0 <= i < |b| && b[i] == x;
        assert (a + b)[|a| + i] == x;
      }
    }
  }

  lemma FateAfterSkip(changes: seq<Change>, published: seq<int>, skipped: set<int>, ids: set<int>, b: Batch)
    requires OneFate(changes, published, skipped, ids) && ids !! IdsOf(b)
    ensures OneFate(changes, published, skipped, ids + IdsOf(b))
    ensures OneFate(changes, published, skipped + IdsOf(b), ids + IdsOf(b))
  {
  }

  lemma FateAfterStage(
    changes: seq<Change>, published: seq<int>, skipped: set<int>, ids: set<int>, b: Batch, ch: Change)
    requires OneFate(changes, published, skipped, ids) && ids !! IdsOf(b) && ch.candidateIds == BatchIds(b)
    ensures OneFate(changes + [ch], published + BatchIds(b), skipped, ids + IdsOf(b))
  {
    BatchIdSet(b);
    IdSetAppend(published, BatchIds(b));
    var more, all := changes + [ch], published + BatchIds(b);
    forall x | x in IdSet(all)
      ensures exists i :: 0 <= i < |more| && x in IdSet(more[i].candidateIds)
    {
      if x in IdSet(published) {
        var i :| 0 <= i < |changes| && x in IdSet(changes[i].candidateIds);
        assert more[i] == changes[i];
      } else {
        assert x in IdSet(more[|changes|].candidateIds);
      }
    }
  }

  /** The publisher refuses everything if one path is wrong. */
  method PathsPass(changes: seq<Change>) returns (ok: bool)
    ensures ok == forall i :: 0 <= i < |changes| ==> AcceptsPath(changes[i].relPath)
  {
    for n := 0 to |changes|
      invariant forall i :: 0 <= i < n ==> AcceptsPath(changes[i].relPath)
    {
      if !AcceptsPath(changes[n].relPath) {
        return false;
      }
    }
    return true;
  }

  /** A target stays on disk whatever is staged. */
  lemma TargetsStay(t: Tools, b: Batch, a: Answer, s: Snapshot, s': Snapshot, batches: seq<Batch>)
    requires CompileStep(t, b, a, s, s') && forall i :: 0 <= i < |batches| ==> TargetOn(s.disk, batches[i])
    ensures forall i :: 0 <= i < |batches| ==> TargetOn(s'.disk, batches[i])
  {
    forall i | 0 <= i < |batches|
      ensures TargetOn(s'.disk, batches[i])
    {
      assert TargetOn(s.disk, batches[i]);
    }
  }

  lemma FateAfterStep(
    t: Tools, b: Batch, a: Answer, s: Snapshot, s': Snapshot, published: seq<int>, published': seq<int>, ids: set<int>)
    requires CompileStep(t, b, a, s, s') && OneFate(s.changes, published, s.skipped, ids) && ids !! IdsOf(b)
    requires published' == published + if !IsSkipped(t, b, a) && IsStaged(t, b, a, s) then BatchIds(b) else []
    ensures OneFate(s'.changes, published', s'.skipped, ids + IdsOf(b))
  {
    FateAfterSkip(s.changes, published, s.skipped, ids, b);
    if !IsSkipped(t, b, a) && IsStaged(t, b, a, s) {
      FateAfterStage(s.changes, published, s.skipped, ids, b, s'.changes[|s.changes|]);
    } else {
      assert published + [] == published;
    }
  }

  /** Compiles all batches in order. */
  method CompileAll(t: Tools, batches: seq<Batch>, answers: nat -> Answer, state: Compilation)
    returns (ghost trace: seq<Snapshot>)
    requires state.Valid() && state.changes == [] && state.published == [] && state.skipped == {}
    requires Disjoint(batches) && forall i :: 0 <= i < |batches| ==> TargetOn(state.disk, batches[i])
    modifies state
    ensures state.Valid() && OneFate(state.changes, state.published, state.skipped, IdsIn(batches))
    ensures IsCompilation(t, batches, answers, trace)
    ensures trace[0] == old(state.Now()) && trace[|batches|] == state.Now()
  {
    trace := [state.Now()];
    ghost var done: seq<Batch> := [];
    var n := 0;
    while n < |batches|
      invariant 0 <= n <= |batches| && done == batches[..n]
      invariant state.Valid() && OneFate(state.changes, state.published, state.skipped, IdsIn(batches[..n]))
      invariant forall i :: 0 <= i < |batches| ==> TargetOn(state.disk, batches[i])
      invariant IsCompilation(t, done, answers, trace)
      invariant trace[0] == old(state.Now()) && trace[n] == state.Now()
    {
      LaterIsNew(batches, n);
      var b := batches[n];
      ghost var s, published := state.Now(), state.published;
      var outcome := state.CompileSkillBatch(t, b, answers(n));
      TargetsStay(t, b, answers(n), s, state.Now(), batches);
      FateAfterStep(t, b, answers(n), s, state.Now(), published, state.published, IdsIn(batches[..n]));
      CompilationStep(t, done, answers, trace, b, state.Now());
      trace, done := trace + [state.Now()], done + [b];
      n := n + 1;
    }
    assert done == batches && batches[..|batches|] == batches;
  }

  /** The whole run after the scan: it compiles the plan batch by batch. Its changes have distinct names and
      paths, all pass the publisher's check, and no candidate is in two changes or both skipped and
      consolidated. `merged` and `marked` say whether the pull request was opened and the store told so. */
  method ConsolidateProceduralSkills(
    t: Tools, sim: Similarity, pending: seq<Candidate>, disk: seq<DiskSkill>, answers: nat -> Answer, merged: bool,
    marked: bool)
    returns (changes: seq<Change>, pathsOk: bool, skipped: set<int>, consolidated: set<int>, ghost trace: seq<Snapshot>)
    requires DistinctIds(pending) && CliqueLaws.Symmetric(sim) && AllWellFormed(disk)
    ensures var batches := Plan(sim, pending, disk);
      && IsCompilation(t, batches, answers, trace) && trace[0] == Snapshot(disk, [], {})
      && trace[|batches|].changes == changes && trace[|batches|].skipped == skipped
    ensures pathsOk && Distinct(changes) && AllPublishable(changes) && IdsDisjoint(changes)
    ensures skipped !! consolidated
    ensures forall x :: x in skipped || x in consolidated ==> exists i :: 0 <= i < |pending| && pending[i].id == x
    ensures forall x :: x in consolidated <==>
      merged && marked && exists i :: 0 <= i < |changes| && x in IdSet(changes[i].candidateIds)
  {
    var batches := PlanSkillConsolidation(sim, pending, disk);
    PlanIsSound(sim, pending, disk);
    PlanComesFromPending(sim, pending, disk, batches);
    var state := new Compilation(disk);
    trace := CompileAll(t, batches, answers, state);
    changes, skipped, consolidated := state.changes, state.skipped, {};
    pathsOk := PathsPass(changes);
    if changes != [] && pathsOk && merged && marked {
      consolidated := IdSet(state.published);
    }
  }

  lemma PlanComesFromPending(sim: Similarity, pending: seq<Candidate>, disk: seq<DiskSkill>, batches: seq<Batch>)
    requires AllWellFormed(disk)
    requires forall i :: 0 <= i < |batches| ==> GoodBatch(sim, disk, pending, batches[i])
    ensures forall i :: 0 <= i < |batches| ==> TargetOn(disk, batches[i])
    ensures forall x :: x in IdsIn(batches) ==> exists i :: 0 <= i < |pending| && pending[i].id == x
  {
    forall i | 0 <= i < |batches|
      ensures TargetOn(disk, batches[i])
    {
      GoodTarget(sim, pending, disk, batches[i]);
    }
    IdsComeFromPending(sim, pending, disk, batches);
  }

  lemma GoodTarget(sim: Similarity, pending: seq<Candidate>, disk: seq<DiskSkill>, b: Batch)
    requires AllWellFormed(disk) && GoodBatch(sim, disk, pending, b)
    ensures TargetOn(disk, b)
  {
    if b.target.Some? {
      var i :| 0 <= i < |disk| && disk[i] == b.target.value;
      assert WellFormed(disk[i]);
    }
  }

  lemma {:induction false} IdsComeFromPending(
    sim: Similarity, pending: seq<Candidate>, disk: seq<DiskSkill>, batches: seq<Batch>)
    requires forall i :: 0 <= i < |batches| ==> GoodBatch(sim, disk, pending, batches[i])
    ensures forall x :: x in IdsIn(batches) ==> exists i :: 0 <= i < |pending| && pending[i].id == x
  {
    if batches != [] {
      var front, b := batches[..|batches| - 1], batches[|batches| - 1];
      IdsComeFromPending(sim, pending, disk, front);
      forall x | x in IdsOf(b)
        ensures exists i :: 0 <= i < |pending| && pending[i].id == x
      {
        var k :| 0 <= k < |b.candidates| && b.candidates[k].id == x;
        assert b.candidates[k] in pending;
      }
    }
  }
}
