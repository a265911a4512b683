/** The complete-linkage clique finder shared by fact consolidation and skill planning
    (services/coven/extractor.go): a greedy cover of a similarity graph by cliques.

    Items are generic, as in the source: a `Space` says where an item keeps its ID and its
    embedding and how similar two embeddings are. IDs come from a primary key, so the theorems
    take them as unique; similarity is an arbitrary symmetric function. */
module Cliques {
  import opened Sorting

  type Vec = seq<real>

  datatype Space<!T> = Space(idOf: T -> int, embOf: T -> Vec, sim: (Vec, Vec) -> real)

  datatype Limits = Limits(minSim: real, maxSim: real, minSize: int, maxSize: int)

  /** A pair of group members, with their positions. */
  datatype Edge<T> = Edge(i: nat, j: nat, u: T, v: T, sim: real)

  datatype Match<T> = Match(item: T, sim: real)

  const DEFAULT_MIN_SIM := 0.75
  const DEFAULT_MAX_SIZE := 2

  function Max(x: int, y: int): int {
    if x >= y then x else y
  }

  function MinReal(x: real, y: real): real {
    if x <= y then x else y
  }

  function Normalize(raw: Limits): Limits {
    var minSize := if raw.minSize <= 0 then 2 else raw.minSize;
    Limits(
      if raw.minSim <= 0.0 then DEFAULT_MIN_SIM else raw.minSim,
      if raw.maxSim <= 0.0 then 1.0 else raw.maxSim,
      minSize,
      if raw.maxSize < minSize then Max(DEFAULT_MAX_SIZE, minSize) else raw.maxSize)
  }

  predicate InBounds(sim: real, lim: Limits) {
    sim >= lim.minSim && (lim.maxSim >= 1.0 || sim <= lim.maxSim)
  }

  function Sim<T>(sp: Space<T>, x: T, y: T): real {
    sp.sim(sp.embOf(x), sp.embOf(y))
  }

  predicate Linked<T>(sp: Space<T>, lim: Limits, x: T, y: T) {
    InBounds(Sim(sp, x, y), lim)
  }

  /** Linked, and not both at or below a positive watermark. */
  predicate Eligible<T>(sp: Space<T>, lim: Limits, watermark: int, x: T, y: T) {
    && !(watermark > 0 && sp.idOf(x) <= watermark && sp.idOf(y) <= watermark)
    && Linked(sp, lim, x, y)
  }

  // ----- Orders -----

  function IdOrder<T>(sp: Space<T>): (T, T) -> bool {
    (x, y) => sp.idOf(x) < sp.idOf(y)
  }

  function EdgeOrder<T>(sp: Space<T>): (Edge<T>, Edge<T>) -> bool {
    (a: Edge<T>, b: Edge<T>) =>
      if a.sim != b.sim then a.sim > b.sim
      else if sp.idOf(a.u) != sp.idOf(b.u) then sp.idOf(a.u) < sp.idOf(b.u)
      else sp.idOf(a.v) < sp.idOf(b.v)
  }

  function MatchOrder<T>(sp: Space<T>): (Match<T>, Match<T>) -> bool {
    (a: Match<T>, b: Match<T>) =>
      if a.sim != b.sim then a.sim > b.sim else sp.idOf(a.item) < sp.idOf(b.item)
  }

  function MatchKey<T>(sp: Space<T>): Match<T> -> int {
    (m: Match<T>) => sp.idOf(m.item)
  }

  // ----- The result as a function of the items -----

  function Embedded<T>(sp: Space<T>, items: seq<T>): seq<T> {
    if items == [] then []
    else (if sp.embOf(items[0]) != [] then [items[0]] else []) + Embedded(sp, items[1..])
  }

  function Group<T>(sp: Space<T>, items: seq<T>): seq<T> {
    Sort(Embedded(sp, items), IdOrder(sp))
  }

  /** The eligible pairs (i, j'), (i, j' + 1), ... for j' from j on. */
  function RowEdges<T>(sp: Space<T>, lim: Limits, wm: int, group: seq<T>, i: nat, j: nat): seq<Edge<T>>
    requires i < j <= |group|
    decreases |group| - j
  {
    if j == |group| then []
    else
      (if Eligible(sp, lim, wm, group[i], group[j])
       then [Edge(i, j, group[i], group[j], Sim(sp, group[i], group[j]))] else [])
      + RowEdges(sp, lim, wm, group, i, j + 1)
  }

  function EdgesFrom<T>(sp: Space<T>, lim: Limits, wm: int, group: seq<T>, i: nat): seq<Edge<T>>
    requires i <= |group|
    decreases |group| - i
  {
    if i == |group| then []
    else RowEdges(sp, lim, wm, group, i, i + 1) + EdgesFrom(sp, lim, wm, group, i + 1)
  }

  function Edges<T>(sp: Space<T>, lim: Limits, wm: int, group: seq<T>): seq<Edge<T>> {
    Sort(EdgesFrom(sp, lim, wm, group, 0), EdgeOrder(sp))
  }

  predicate IsMatch<T>(sp: Space<T>, lim: Limits, group: seq<T>, e: Edge<T>, used: set<int>, k: nat)
    requires k < |group|
  {
    && k != e.i && k != e.j && sp.idOf(group[k]) !in used
    && Linked(sp, lim, e.u, group[k]) && Linked(sp, lim, e.v, group[k])
  }

  function MatchFor<T>(sp: Space<T>, e: Edge<T>, x: T): Match<T> {
    Match(x, MinReal(Sim(sp, e.u, x), Sim(sp, e.v, x)))
  }

  function MatchesFrom<T>(sp: Space<T>, lim: Limits, group: seq<T>, e: Edge<T>, used: set<int>, k: nat): seq<Match<T>>
    requires k <= |group|
    decreases |group| - k
  {
    if k == |group| then []
    else
      (if IsMatch(sp, lim, group, e, used, k) then [MatchFor(sp, e, group[k])] else [])
      + MatchesFrom(sp, lim, group, e, used, k + 1)
  }

  function Matches<T>(sp: Space<T>, lim: Limits, group: seq<T>, e: Edge<T>, used: set<int>): seq<Match<T>> {
    Sort(MatchesFrom(sp, lim, group, e, used, 0), MatchOrder(sp))
  }

  predicate LinkedToAll<T>(sp: Space<T>, lim: Limits, members: seq<T>, x: T) {
    forall i :: 0 <= i < |members| ==> Linked(sp, lim, members[i], x)
  }

  function Grow<T>(sp: Space<T>, lim: Limits, clique: seq<T>, cands: seq<Match<T>>): seq<T>
    requires |clique| >= 2
    decreases |cands|
  {
    if cands == [] || |clique| >= lim.maxSize then clique
    else if LinkedToAll(sp, lim, clique[2..], cands[0].item) then
      Grow(sp, lim, clique + [cands[0].item], cands[1..])
    else Grow(sp, lim, clique, cands[1..])
  }

  function Expand<T>(sp: Space<T>, lim: Limits, group: seq<T>, e: Edge<T>, used: set<int>): seq<T> {
    if lim.maxSize <= 2 then [e.u, e.v]
    else Grow(sp, lim, [e.u, e.v], Matches(sp, lim, group, e, used))
  }

  function Ids<T>(sp: Space<T>, s: seq<T>): set<int> {
    set i | 0 <= i < |s| :: sp.idOf(s[i])
  }

  function Greedy<T>(sp: Space<T>, lim: Limits, group: seq<T>, edges: seq<Edge<T>>, used: set<int>): seq<seq<T>>
    decreases |edges|
  {
    if edges == [] then []
    else
      var e, rest := edges[0], edges[1..];
      if sp.idOf(e.u) in used || sp.idOf(e.v) in used then Greedy(sp, lim, group, rest, used)
      else
        var c := Expand(sp, lim, group, e, used);
        if |c| >= lim.minSize then
          [Sort(c, IdOrder(sp))] + Greedy(sp, lim, group, rest, used + Ids(sp, c))
        else Greedy(sp, lim, group, rest, used)
  }

  function FoundCliques<T>(sp: Space<T>, raw: Limits, wm: int, items: seq<T>): seq<seq<T>> {
    var lim := Normalize(raw);
    var group := Group(sp, items);
    Greedy(sp, lim, group, Edges(sp, lim, wm, group), {})
  }

  // ----- The program -----

  method BuildCliqueEdges<T>(sp: Space<T>, lim: Limits, wm: int, group: seq<T>) returns (edges: seq<Edge<T>>)
    ensures edges == Edges(sp, lim, wm, group)
  {
    edges := [];
    for i := 0 to |group|
      invariant edges + EdgesFrom(sp, lim, wm, group, i) == EdgesFrom(sp, lim, wm, group, 0)
    {
      var j := i + 1;
      while j < |group|
        invariant i < j <= |group|
        invariant edges + (RowEdges(sp, lim, wm, group, i, j) + EdgesFrom(sp, lim, wm, group, i + 1))
               == EdgesFrom(sp, lim, wm, group, 0)
      {
        if !(wm > 0 && sp.idOf(group[i]) <= wm && sp.idOf(group[j]) <= wm) {
          var s := Sim(sp, group[i], group[j]);
          if InBounds(s, lim) {
            edges := edges + [Edge(i, j, group[i], group[j], s)];
          }
        }
        j := j + 1;
      }
    }
    assert edges + [] == edges;
    edges := Sort(edges, EdgeOrder(sp));
  }

  method MatchesAllCliqueMembers<T>(sp: Space<T>, lim: Limits, members: seq<T>, x: T) returns (ok: bool)
    ensures ok == LinkedToAll(sp, lim, members, x)
  {
    for i := 0 to |members|
      invariant forall k :: 0 <= k < i ==> Linked(sp, lim, members[k], x)
    {
      if !InBounds(Sim(sp, members[i], x), lim) {
        return false;
      }
    }
    return true;
  }

  method ExpandClique<T>(sp: Space<T>, lim: Limits, group: seq<T>, e: Edge<T>, used: set<int>)
    returns (clique: seq<T>)
    ensures clique == Expand(sp, lim, group, e, used)
  {
    clique := [e.u, e.v];
    if lim.maxSize <= 2 {
      return;
    }
    var cands: seq<Match<T>> := [];
    for k := 0 to |group|
      invariant cands + MatchesFrom(sp, lim, group, e, used, k) == MatchesFrom(sp, lim, group, e, used, 0)
    {
      if k == e.i || k == e.j || sp.idOf(group[k]) in used {
        continue;
      }
      var simU, simV := Sim(sp, e.u, group[k]), Sim(sp, e.v, group[k]);
      if InBounds(simU, lim) && InBounds(simV, lim) {
        cands := cands + [Match(group[k], MinReal(simU, simV))];
      }
    }
    assert cands + [] == cands;
    cands := Sort(cands, MatchOrder(sp));
    var n := 0;
    assert cands[0..] == cands;
    while n < |cands|
      invariant 0 <= n <= |cands| && |clique| >= 2
      invariant Grow(sp, lim, clique, cands[n..]) == Expand(sp, lim, group, e, used)
    {
      if |clique| >= lim.maxSize {
        break;
      }
      var ok := MatchesAllCliqueMembers(sp, lim, clique[2..], cands[n].item);
      assert cands[n..][1..] == cands[n + 1..];
      if ok {
        clique := clique + [cands[n].item];
      }
      n := n + 1;
    }
  }

  method KeepEmbedded<T>(sp: Space<T>, items: seq<T>) returns (group: seq<T>)
    ensures group == Embedded(sp, items)
  {
    group := [];
    for n := 0 to |items|
      invariant group + Embedded(sp, items[n..]) == Embedded(sp, items)
    {
      ghost var rest := items[n..];
      assert rest[0] == items[n] && rest[1..] == items[n + 1..];
      if sp.embOf(items[n]) != [] {
        assert group + ([items[n]] + Embedded(sp, rest[1..])) == group + [items[n]] + Embedded(sp, rest[1..]);
        group := group + [items[n]];
      } else {
        assert [] + Embedded(sp, rest[1..]) == Embedded(sp, rest[1..]);
      }
    }
    assert group + [] == group;
  }

  method CoverEdges<T>(sp: Space<T>, lim: Limits, group: seq<T>, edges: seq<Edge<T>>)
    returns (cliques: seq<seq<T>>)
    ensures cliques == Greedy(sp, lim, group, edges, {})
  {
    cliques := [];
    var used: set<int> := {};
    assert edges[0..] == edges;
    for n := 0 to |edges|
      invariant cliques + Greedy(sp, lim, group, edges[n..], used) == Greedy(sp, lim, group, edges, {})
    {
      var e := edges[n];
      assert edges[n..][0] == e && edges[n..][1..] == edges[n + 1..];
      if sp.idOf(e.u) in used || sp.idOf(e.v) in used {
        continue;
      }
      var clique := ExpandClique(sp, lim, group, e, used);
      if |clique| >= lim.minSize {
        used := used + Ids(sp, clique);
        clique := Sort(clique, IdOrder(sp));
        cliques := cliques + [clique];
      }
    }
    assert cliques + [] == cliques;
  }

  method FindCompleteLinkageCliques<T>(sp: Space<T>, raw: Limits, wm: int, items: seq<T>)
    returns (cliques: seq<seq<T>>)
    ensures cliques == FoundCliques(sp, raw, wm, items)
  {
    var lim := Normalize(raw);
    var group := KeepEmbedded(sp, items);
    group := Sort(group, IdOrder(sp));
    var edges := BuildCliqueEdges(sp, lim, wm, group);
    cliques := CoverEdges(sp, lim, group, edges);
  }
}
