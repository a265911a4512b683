/** What the clique finder guarantees, for every list of items with distinct IDs and every
    symmetric similarity: sound, disjoint, maximal, greedy by similarity, covering, and
    independent of the order of the items. */
module CliqueLaws {
  import opened Wrappers
  import opened Sorting
  import opened Cliques

  ghost predicate Symmetric(sim: (Vec, Vec) -> real) {
    forall x, y :: sim(x, y) == sim(y, x)
  }

  ghost predicate UniqueIds<T>(sp: Space<T>, s: seq<T>) {
    UniqueBy(s, sp.idOf)
  }

  ghost predicate AllLinked<T>(sp: Space<T>, lim: Limits, c: seq<T>) {
    forall x, y :: x in c && y in c && x != y ==> Linked(sp, lim, x, y)
  }

  /** What an emitted clique must look like on its own. */
  ghost predicate GoodClique<T>(sp: Space<T>, lim: Limits, wm: int, group: seq<T>, c: seq<T>) {
    && (forall m :: m in c ==> m in group)
    && (forall i, j :: 0 <= i < j < |c| ==> sp.idOf(c[i]) < sp.idOf(c[j]))
    && AllLinked(sp, lim, c)
    && Max(2, lim.minSize) <= |c| <= Max(2, lim.maxSize)
    && (wm > 0 ==> exists m :: m in c && sp.idOf(m) > wm)
  }

  /** x could still join c: it is unused, outside c and linked to every member. */
  ghost predicate CouldJoin<T>(sp: Space<T>, lim: Limits, used: set<int>, c: seq<T>, x: T) {
    && sp.idOf(x) !in used && x !in c
    && forall m :: m in c ==> Linked(sp, lim, m, x)
  }

  ghost predicate Maximal<T>(sp: Space<T>, lim: Limits, group: seq<T>, used: set<int>, c: seq<T>) {
    |c| < lim.maxSize ==> forall x :: x in group ==> !CouldJoin(sp, lim, used, c, x)
  }

  ghost function AllIds<T>(sp: Space<T>, cs: seq<seq<T>>): set<int> {
    if cs == [] then {} else Ids(sp, cs[0]) + AllIds(sp, cs[1..])
  }

  // ----- Orders are strict weak orders -----

  lemma OrdersAreWeak<T(!new)>(sp: Space<T>)
    ensures WeakOrder(IdOrder(sp)) && WeakOrder(EdgeOrder(sp)) && WeakOrder(MatchOrder(sp))
  {
  }

  // ----- Edges -----

  ghost predicate EdgeOf<T>(sp: Space<T>, lim: Limits, wm: int, group: seq<T>, e: Edge<T>) {
    && e.i < e.j < |group| && e.u == group[e.i] && e.v == group[e.j]
    && e.sim == Sim(sp, e.u, e.v) && Eligible(sp, lim, wm, e.u, e.v)
  }

  lemma {:induction false} RowEdgesExact<T>(
    sp: Space<T>, lim: Limits, wm: int, group: seq<T>, i: nat, j: nat, e: Edge<T>)
    requires i < j <= |group|
    ensures e in RowEdges(sp, lim, wm, group, i, j) <==> EdgeOf(sp, lim, wm, group, e) && e.i == i && j <= e.j
    decreases |group| - j
  {
    if j < |group| {
      RowEdgesExact(sp, lim, wm, group, i, j + 1, e);
    }
  }

  lemma {:induction false} EdgesFromExact<T>(sp: Space<T>, lim: Limits, wm: int, group: seq<T>, i: nat, e: Edge<T>)
    requires i <= |group|
    ensures e in EdgesFrom(sp, lim, wm, group, i) <==> EdgeOf(sp, lim, wm, group, e) && i <= e.i
    decreases |group| - i
  {
    if i < |group| {
      RowEdgesExact(sp, lim, wm, group, i, i + 1, e);
      EdgesFromExact(sp, lim, wm, group, i + 1, e);
      var row, rest := RowEdges(sp, lim, wm, group, i, i + 1), EdgesFrom(sp, lim, wm, group, i + 1);
      assert e in row + rest <==> e in row || e in rest;
    }
  }

  /** The sorted edge list holds exactly the eligible pairs, most similar first. */
  lemma {:induction false} EdgesAreExact<T(!new)>(sp: Space<T>, lim: Limits, wm: int, group: seq<T>)
    ensures forall e :: e in Edges(sp, lim, wm, group) <==> EdgeOf(sp, lim, wm, group, e)
    ensures Sorted(Edges(sp, lim, wm, group), EdgeOrder(sp))
  {
    var raw := EdgesFrom(sp, lim, wm, group, 0);
    SortKeepsElements(raw, EdgeOrder(sp));
    OrdersAreWeak(sp);
    SortIsSorted(raw, EdgeOrder(sp));
    forall e
      ensures e in Edges(sp, lim, wm, group) <==> EdgeOf(sp, lim, wm, group, e)
    {
      EdgesFromExact(sp, lim, wm, group, 0, e);
    }
  }

  // ----- Candidates for growing a seed edge -----

  ghost predicate MatchOf<T>(sp: Space<T>, lim: Limits, group: seq<T>, e: Edge<T>, used: set<int>, k: nat, m: Match<T>)
  {
    k < |group| && IsMatch(sp, lim, group, e, used, k) && m == MatchFor(sp, e, group[k])
  }

  lemma {:induction false} MatchesFromExact<T>(
    sp: Space<T>, lim: Limits, group: seq<T>, e: Edge<T>, used: set<int>, n: nat, m: Match<T>)
    requires n <= |group|
    ensures m in MatchesFrom(sp, lim, group, e, used, n) <==>
            exists k: nat :: n <= k && MatchOf(sp, lim, group, e, used, k, m)
    decreases |group| - n
  {
    if n < |group| {
      MatchesFromExact(sp, lim, group, e, used, n + 1, m);
      assert MatchOf(sp, lim, group, e, used, n, m) <==>
             IsMatch(sp, lim, group, e, used, n) && m == MatchFor(sp, e, group[n]);
    }
  }

  lemma {:induction false} MatchesFromUnique<T>(
    sp: Space<T>, lim: Limits, group: seq<T>, e: Edge<T>, used: set<int>, n: nat)
    requires n <= |group| && UniqueIds(sp, group)
    ensures UniqueBy(MatchesFrom(sp, lim, group, e, used, n), MatchKey(sp))
    decreases |group| - n
  {
    if n < |group| {
      var rest := MatchesFrom(sp, lim, group, e, used, n + 1);
      MatchesFromUnique(sp, lim, group, e, used, n + 1);
      forall j | 0 <= j < |rest|
        ensures sp.idOf(rest[j].item) != sp.idOf(group[n])
      {
        MatchesFromExact(sp, lim, group, e, used, n + 1, rest[j]);
        assert rest[j] in rest;
        var k: nat :| n + 1 <= k && MatchOf(sp, lim, group, e, used, k, rest[j]);
      }
    }
  }

  ghost predicate IsCandidate<T>(sp: Space<T>, lim: Limits, group: seq<T>, e: Edge<T>, used: set<int>, m: Match<T>) {
    exists k: nat :: MatchOf(sp, lim, group, e, used, k, m)
  }

  /** The sorted candidate list: exactly the unused members linked to both seed ends, ... */
  lemma {:induction false} MatchesAreExact<T(!new)>(
    sp: Space<T>, lim: Limits, group: seq<T>, e: Edge<T>, used: set<int>, m: Match<T>)
    ensures m in Matches(sp, lim, group, e, used) <==> IsCandidate(sp, lim, group, e, used, m)
  {
    var raw := MatchesFrom(sp, lim, group, e, used, 0);
    SortKeepsElements(raw, MatchOrder(sp));
    MatchesFromExact(sp, lim, group, e, used, 0, m);
  }

  /** ... each once, closest first. */
  lemma {:induction false} MatchesAreOrdered<T(!new)>(
    sp: Space<T>, lim: Limits, group: seq<T>, e: Edge<T>, used: set<int>)
    requires UniqueIds(sp, group)
    ensures UniqueBy(Matches(sp, lim, group, e, used), MatchKey(sp))
    ensures Sorted(Matches(sp, lim, group, e, used), MatchOrder(sp))
  {
    var raw := MatchesFrom(sp, lim, group, e, used, 0);
    SortIsPermutation(raw, MatchOrder(sp));
    OrdersAreWeak(sp);
    SortIsSorted(raw, MatchOrder(sp));
    MatchesFromUnique(sp, lim, group, e, used, 0);
    UniquePermutes(raw, Matches(sp, lim, group, e, used), MatchKey(sp));
  }

  // ----- Growing -----

  ghost predicate CanGrow<T>(sp: Space<T>, lim: Limits, clique: seq<T>, cands: seq<Match<T>>) {
    && |clique| >= 2
    && UniqueIds(sp, clique) && AllLinked(sp, lim, clique)
    && UniqueBy(cands, MatchKey(sp))
    && (forall m, x :: m in cands && x in clique ==> sp.idOf(m.item) != sp.idOf(x))
    && (forall m :: m in cands ==> Linked(sp, lim, clique[0], m.item) && Linked(sp, lim, clique[1], m.item))
  }

  lemma LinkedToWhole<T>(sp: Space<T>, lim: Limits, clique: seq<T>, x: T)
    requires |clique| >= 2 && LinkedToAll(sp, lim, clique[2..], x)
    requires Linked(sp, lim, clique[0], x) && Linked(sp, lim, clique[1], x)
    ensures forall m :: m in clique ==> Linked(sp, lim, m, x)
  {
    forall i | 0 <= i < |clique|
      ensures Linked(sp, lim, clique[i], x)
    {
      if i >= 2 {
        assert clique[i] == clique[2..][i - 2];
      }
    }
  }

  lemma CanGrowAfterTaking<T>(sp: Space<T>, lim: Limits, clique: seq<T>, cands: seq<Match<T>>)
    requires CanGrow(sp, lim, clique, cands) && cands != [] && Symmetric(sp.sim)
    requires LinkedToAll(sp, lim, clique[2..], cands[0].item)
    ensures CanGrow(sp, lim, clique + [cands[0].item], cands[1..])
  {
    var x := cands[0].item;
    var longer := clique + [x];
    LinkedToWhole(sp, lim, clique, x);
    assert cands[0] in cands;
    forall y, z | y in longer && z in longer && y != z
      ensures Linked(sp, lim, y, z)
    {
      assert y in clique || y == x;
      assert z in clique || z == x;
      assert Sim(sp, y, z) == Sim(sp, z, y);
    }
    forall m | m in cands[1..]
      ensures m in cands && sp.idOf(m.item) != sp.idOf(x)
    {
      var k :| 0 <= k < |cands[1..]| && cands[1..][k] == m;
      assert m == cands[k + 1];
      assert MatchKey(sp)(cands[0]) != MatchKey(sp)(cands[k + 1]);
    }
    forall i, j | 0 <= i < j < |longer|
      ensures sp.idOf(longer[i]) != sp.idOf(longer[j])
    {
      assert longer[i] in clique;
      if j == |clique| {
        assert longer[j] == cands[0].item;
      }
    }
  }

  lemma CanGrowAfterSkipping<T>(sp: Space<T>, lim: Limits, clique: seq<T>, cands: seq<Match<T>>)
    requires CanGrow(sp, lim, clique, cands) && cands != []
    ensures CanGrow(sp, lim, clique, cands[1..])
  {
    assert forall m :: m in cands[1..] ==> m in cands;
  }

  /** A skipped candidate stays excluded: some member of the clique rejects it. */
  ghost predicate Settled<T>(sp: Space<T>, lim: Limits, r: seq<T>, x: T) {
    x in r || exists m :: m in r && !Linked(sp, lim, m, x)
  }

  lemma {:induction false} GrowLaws<T>(sp: Space<T>, lim: Limits, clique: seq<T>, cands: seq<Match<T>>)
    requires CanGrow(sp, lim, clique, cands) && Symmetric(sp.sim)
    ensures var r := Grow(sp, lim, clique, cands);
            && clique <= r
            && UniqueIds(sp, r) && AllLinked(sp, lim, r)
            && |r| <= Max(|clique|, lim.maxSize)
            && (forall x :: x in r ==> x in clique || exists m :: m in cands && m.item == x)
            && (|r| < lim.maxSize ==> forall m :: m in cands ==> Settled(sp, lim, r, m.item))
    decreases |cands|
  {
    if cands != [] && |clique| < lim.maxSize {
      var x := cands[0].item;
      var r := Grow(sp, lim, clique, cands);
      assert cands[0] in cands;
      assert forall m :: m in cands ==> m == cands[0] || m in cands[1..];
      if LinkedToAll(sp, lim, clique[2..], x) {
        CanGrowAfterTaking(sp, lim, clique, cands);
        GrowLaws(sp, lim, clique + [x], cands[1..]);
        assert x in clique + [x];
        assert x in r;
      } else {
        CanGrowAfterSkipping(sp, lim, clique, cands);
        GrowLaws(sp, lim, clique, cands[1..]);
        var i :| 0 <= i < |clique[2..]| && !Linked(sp, lim, clique[2..][i], x);
        assert r[i + 2] == clique[2..][i];
        assert r[i + 2] in r;
      }
    }
  }

  // ----- Expanding a seed -----

  lemma SeedCanGrow<T(!new)>(sp: Space<T>, lim: Limits, wm: int, group: seq<T>, e: Edge<T>, used: set<int>)
    requires UniqueIds(sp, group) && Symmetric(sp.sim) && EdgeOf(sp, lim, wm, group, e)
    ensures CanGrow(sp, lim, [e.u, e.v], Matches(sp, lim, group, e, used))
    ensures forall m :: m in Matches(sp, lim, group, e, used) ==>
              m.item in group && sp.idOf(m.item) !in used
  {
    var cands := Matches(sp, lim, group, e, used);
    MatchesAreOrdered(sp, lim, group, e, used);
    forall m | m in cands
      ensures m.item in group && sp.idOf(m.item) !in used
      ensures sp.idOf(m.item) != sp.idOf(e.u) && sp.idOf(m.item) != sp.idOf(e.v)
      ensures Linked(sp, lim, e.u, m.item) && Linked(sp, lim, e.v, m.item)
    {
      MatchesAreExact(sp, lim, group, e, used, m);
      var k: nat :| MatchOf(sp, lim, group, e, used, k, m);
    }
    assert Sim(sp, e.u, e.v) == Sim(sp, e.v, e.u);
  }

  ghost predicate Expansion<T>(sp: Space<T>, lim: Limits, group: seq<T>, e: Edge<T>, used: set<int>, c: seq<T>) {
    && |c| >= 2 && c[0] == e.u && c[1] == e.v
    && |c| <= Max(2, lim.maxSize)
    && UniqueIds(sp, c) && AllLinked(sp, lim, c)
    && (forall x :: x in c ==> x in group && sp.idOf(x) !in used)
  }

  lemma {:induction false} ExpandIsSound<T(!new)>(
    sp: Space<T>, lim: Limits, wm: int, group: seq<T>, e: Edge<T>, used: set<int>)
    requires UniqueIds(sp, group) && Symmetric(sp.sim) && EdgeOf(sp, lim, wm, group, e)
    requires sp.idOf(e.u) !in used && sp.idOf(e.v) !in used
    ensures Expansion(sp, lim, group, e, used, Expand(sp, lim, group, e, used))
  {
    var c := Expand(sp, lim, group, e, used);
    assert Sim(sp, e.u, e.v) == Sim(sp, e.v, e.u);
    if lim.maxSize > 2 {
      var cands := Matches(sp, lim, group, e, used);
      SeedCanGrow(sp, lim, wm, group, e, used);
      GrowLaws(sp, lim, [e.u, e.v], cands);
      assert c[0] == [e.u, e.v][0] && c[1] == [e.u, e.v][1];
    }
  }

  /** An expansion that stayed below the size limit cannot be extended by any unused item. */
  lemma {:induction false} ExpandIsMaximal<T(!new)>(
    sp: Space<T>, lim: Limits, wm: int, group: seq<T>, e: Edge<T>, used: set<int>)
    requires UniqueIds(sp, group) && Symmetric(sp.sim) && EdgeOf(sp, lim, wm, group, e)
    requires sp.idOf(e.u) !in used && sp.idOf(e.v) !in used
    ensures Maximal(sp, lim, group, used, Expand(sp, lim, group, e, used))
  {
    var c := Expand(sp, lim, group, e, used);
    ExpandIsSound(sp, lim, wm, group, e, used);
    if |c| < lim.maxSize {
      var cands := Matches(sp, lim, group, e, used);
      SeedCanGrow(sp, lim, wm, group, e, used);
      GrowLaws(sp, lim, [e.u, e.v], cands);
      forall x | x in group
        ensures !CouldJoin(sp, lim, used, c, x)
      {
        assert c[0] in c && c[1] in c;
        if sp.idOf(x) !in used && x !in c && Linked(sp, lim, c[0], x) && Linked(sp, lim, c[1], x) {
          var k :| 0 <= k < |group| && group[k] == x;
          assert MatchOf(sp, lim, group, e, used, k, MatchFor(sp, e, x));
          MatchesAreExact(sp, lim, group, e, used, MatchFor(sp, e, x));
          assert Settled(sp, lim, c, x);
        }
      }
    }
  }

  /** Whoever was taken as member k came before whoever could have been taken instead. */
  lemma {:induction false} GrowTakesFirst<T>(
    sp: Space<T>, lim: Limits, clique: seq<T>, cands: seq<Match<T>>, k: nat, z: Match<T>)
    returns (m: Match<T>)
    requires |clique| >= 2 && Sorted(cands, MatchOrder(sp)) && z in cands
    requires var r := Grow(sp, lim, clique, cands);
             |clique| <= k < |r| && z.item !in r[..k] && LinkedToAll(sp, lim, r[..k], z.item)
    ensures m in cands && m.item == Grow(sp, lim, clique, cands)[k] && !MatchOrder(sp)(z, m)
    decreases |cands|
  {
    var r, x := Grow(sp, lim, clique, cands), cands[0].item;
    var p :| 0 <= p < |cands| && cands[p] == z;
    if LinkedToAll(sp, lim, clique[2..], x) {
      GrowKeepsPrefix(sp, lim, clique + [x], cands[1..]);
      assert r[|clique|] == (clique + [x])[|clique|] == x;
      if k == |clique| {
        m := cands[0];
      } else {
        assert r[..k][|clique|] == x;
        assert z == cands[1..][p - 1];
        m := GrowTakesFirst(sp, lim, clique + [x], cands[1..], k, z);
      }
    } else {
      GrowKeepsPrefix(sp, lim, clique, cands[1..]);
      PrefixIsLinked(sp, lim, clique, r[..k], z.item);
      assert z == cands[1..][p - 1];
      m := GrowTakesFirst(sp, lim, clique, cands[1..], k, z);
    }
  }

  lemma PrefixIsLinked<T>(sp: Space<T>, lim: Limits, clique: seq<T>, longer: seq<T>, x: T)
    requires 2 <= |clique| && clique <= longer && LinkedToAll(sp, lim, longer, x)
    ensures LinkedToAll(sp, lim, clique[2..], x)
  {
    forall i | 0 <= i < |clique[2..]|
      ensures Linked(sp, lim, clique[2..][i], x)
    {
      assert clique[2..][i] == longer[i + 2];
    }
  }

  /** Its smaller similarity to the two ends of the seed puts x before z; ties go by ID. */
  ghost predicate CloserToSeed<T>(sp: Space<T>, e: Edge<T>, x: T, z: T) {
    var simX := if Sim(sp, e.u, x) <= Sim(sp, e.v, x) then Sim(sp, e.u, x) else Sim(sp, e.v, x);
    var simZ := if Sim(sp, e.u, z) <= Sim(sp, e.v, z) then Sim(sp, e.u, z) else Sim(sp, e.v, z);
    simX > simZ || (simX == simZ && sp.idOf(x) <= sp.idOf(z))
  }

  /** The next to join is always the closest to the seed, by the smaller of the similarities to its two
      ends and then by ID, of all who could join; and someone joins as long as somebody can and there is room. */
  lemma {:induction false} ExpandTakesClosest<T(!new)>(
    sp: Space<T>, lim: Limits, wm: int, group: seq<T>, e: Edge<T>, used: set<int>, n: nat, z: T)
    requires UniqueIds(sp, group) && Symmetric(sp.sim) && EdgeOf(sp, lim, wm, group, e)
    requires sp.idOf(e.u) !in used && sp.idOf(e.v) !in used
    requires var c := Expand(sp, lim, group, e, used);
             2 <= n <= |c| && n < lim.maxSize && z in group && CouldJoin(sp, lim, used, c[..n], z)
    ensures var c := Expand(sp, lim, group, e, used); n < |c| && CloserToSeed(sp, e, c[n], z)
  {
    var c, cands := Expand(sp, lim, group, e, used), Matches(sp, lim, group, e, used);
    ExpandIsSound(sp, lim, wm, group, e, used);
    if n == |c| {
      assert c[..n] == c;
      ExpandIsMaximal(sp, lim, wm, group, e, used);
      assert false;
    }
    JoinerIsMatch(sp, lim, group, e, used, c[..n], z);
    MatchesAreOrdered(sp, lim, group, e, used);
    assert forall i :: 0 <= i < n ==> c[..n][i] in c[..n];
    var m := GrowTakesFirst(sp, lim, [e.u, e.v], cands, n, MatchFor(sp, e, z));
    MatchesAreExact(sp, lim, group, e, used, m);
    var k: nat :| MatchOf(sp, lim, group, e, used, k, m);
  }

  lemma JoinerIsMatch<T(!new)>(
    sp: Space<T>, lim: Limits, group: seq<T>, e: Edge<T>, used: set<int>, members: seq<T>, z: T)
    requires |members| >= 2 && members[0] == e.u && members[1] == e.v
    requires e.i < |group| && e.j < |group| && e.u == group[e.i] && e.v == group[e.j]
    requires z in group && CouldJoin(sp, lim, used, members, z)
    ensures MatchFor(sp, e, z) in Matches(sp, lim, group, e, used)
  {
    var k :| 0 <= k < |group| && group[k] == z;
    assert members[0] in members && members[1] in members;
    assert MatchOf(sp, lim, group, e, used, k, MatchFor(sp, e, z));
    MatchesAreExact(sp, lim, group, e, used, MatchFor(sp, e, z));
  }

  // ----- One emitted clique -----

  lemma SortedById<T(!new)>(sp: Space<T>, c: seq<T>)
    requires UniqueIds(sp, c)
    ensures var r := Sort(c, IdOrder(sp));
            forall i, j :: 0 <= i < j < |r| ==> sp.idOf(r[i]) < sp.idOf(r[j])
  {
    var r := Sort(c, IdOrder(sp));
    OrdersAreWeak(sp);
    SortIsSorted(c, IdOrder(sp));
    SortIsPermutation(c, IdOrder(sp));
    UniquePermutes(c, r, sp.idOf);
    forall i, j | 0 <= i < j < |r|
      ensures sp.idOf(r[i]) < sp.idOf(r[j])
    {
      assert !IdOrder(sp)(r[j], r[i]);
    }
  }

  lemma SameIds<T>(sp: Space<T>, s: seq<T>, t: seq<T>)
    requires forall x :: x in s <==> x in t
    ensures Ids(sp, s) == Ids(sp, t)
  {
    forall x | x in Ids(sp, s)
      ensures x in Ids(sp, t)
    {
      var i :| 0 <= i < |s| && sp.idOf(s[i]) == x;
      assert s[i] in t;
    }
    forall x | x in Ids(sp, t)
      ensures x in Ids(sp, s)
    {
      var i :| 0 <= i < |t| && sp.idOf(t[i]) == x;
      assert t[i] in s;
    }
  }

  /** The clique emitted for edge e, whose ends are unused. */
  ghost predicate Emitted<T>(sp: Space<T>, lim: Limits, wm: int, group: seq<T>, used: set<int>, e: Edge<T>, c: seq<T>) {
    && GoodClique(sp, lim, wm, group, c)
    && Ids(sp, c) !! used
    && Maximal(sp, lim, group, used, c)
    && e.u in c && e.v in c
  }

  lemma {:induction false} ExpansionIsEmitted<T(!new)>(
    sp: Space<T>, lim: Limits, wm: int, group: seq<T>, e: Edge<T>, used: set<int>)
    requires UniqueIds(sp, group) && Symmetric(sp.sim) && EdgeOf(sp, lim, wm, group, e)
    requires sp.idOf(e.u) !in used && sp.idOf(e.v) !in used
    requires |Expand(sp, lim, group, e, used)| >= lim.minSize
    ensures var c := Expand(sp, lim, group, e, used);
            Emitted(sp, lim, wm, group, used, e, Sort(c, IdOrder(sp)))
            && Ids(sp, Sort(c, IdOrder(sp))) == Ids(sp, c)
  {
    var c := Expand(sp, lim, group, e, used);
    var r := Sort(c, IdOrder(sp));
    ExpandIsSound(sp, lim, wm, group, e, used);
    ExpandIsMaximal(sp, lim, wm, group, e, used);
    SortedById(sp, c);
    SortKeepsElements(c, IdOrder(sp));
    SameIds(sp, c, r);
    assert c[0] in c && c[1] in c;
    assert wm > 0 ==> sp.idOf(e.u) > wm || sp.idOf(e.v) > wm;
    assert e.u in r && e.v in r;
    forall x | x in group
      ensures |r| < lim.maxSize ==> !CouldJoin(sp, lim, used, r, x)
    {
      assert CouldJoin(sp, lim, used, r, x) ==> CouldJoin(sp, lim, used, c, x);
    }
  }

  // ----- The whole list -----

  lemma {:induction false} GrowKeepsPrefix<T>(sp: Space<T>, lim: Limits, clique: seq<T>, cands: seq<Match<T>>)
    requires |clique| >= 2
    ensures clique <= Grow(sp, lim, clique, cands)
    decreases |cands|
  {
    if cands != [] && |clique| < lim.maxSize {
      GrowKeepsPrefix(sp, lim, clique, cands[1..]);
      GrowKeepsPrefix(sp, lim, clique + [cands[0].item], cands[1..]);
      assert clique <= clique + [cands[0].item];
    }
  }

  ghost predicate Touches<T>(sp: Space<T>, e: Edge<T>, ids: set<int>) {
    sp.idOf(e.u) in ids || sp.idOf(e.v) in ids
  }

  lemma ExpandKeepsSeed<T>(sp: Space<T>, lim: Limits, group: seq<T>, e: Edge<T>, used: set<int>)
    ensures var c := Expand(sp, lim, group, e, used);
            |c| >= 2 && c[0] == e.u && c[1] == e.v && Touches(sp, e, Ids(sp, c))
  {
    var c := Expand(sp, lim, group, e, used);
    if lim.maxSize > 2 {
      GrowKeepsPrefix(sp, lim, [e.u, e.v], Matches(sp, lim, group, e, used));
      assert c[0] == [e.u, e.v][0] && c[1] == [e.u, e.v][1];
    }
    assert sp.idOf(c[0]) in Ids(sp, c);
  }

  lemma AllIdsOfPrefix<T>(sp: Space<T>, c: seq<T>, rest: seq<seq<T>>, k: nat)
    requires k <= |rest|
    ensures AllIds(sp, ([c] + rest)[..k + 1]) == Ids(sp, c) + AllIds(sp, rest[..k])
  {
    var cs := [c] + rest;
    assert cs[..k + 1][1..] == rest[..k] && cs[..k + 1][0] == c;
  }

  lemma SortedIds<T>(sp: Space<T>, c: seq<T>)
    ensures Ids(sp, Sort(c, IdOrder(sp))) == Ids(sp, c)
  {
    SortKeepsElements(c, IdOrder(sp));
    SameIds(sp, Sort(c, IdOrder(sp)), c);
  }

  /** Where clique k comes from: the expansion of edge n against the IDs u of the cliques
      before it. Edges ahead of n are all touched by u when pairs are big enough. */
  ghost predicate Origin<T>(
    sp: Space<T>, lim: Limits, group: seq<T>, edges: seq<Edge<T>>, n: nat, u: set<int>, c: seq<T>)
  {
    && n < |edges| && !Touches(sp, edges[n], u)
    && |Expand(sp, lim, group, edges[n], u)| >= lim.minSize
    && c == Sort(Expand(sp, lim, group, edges[n], u), IdOrder(sp))
    && (lim.minSize <= 2 ==> forall p :: 0 <= p < n ==> Touches(sp, edges[p], u))
  }

  lemma OriginShifts<T>(
    sp: Space<T>, lim: Limits, group: seq<T>, edges: seq<Edge<T>>, n: nat, u: set<int>, c: seq<T>)
    requires edges != [] && Origin(sp, lim, group, edges[1..], n, u, c)
    requires lim.minSize <= 2 ==> Touches(sp, edges[0], u)
    ensures Origin(sp, lim, group, edges, n + 1, u, c)
  {
    var rest := edges[1..];
    assert edges[n + 1] == rest[n];
    forall p | 0 <= p < n + 1 && lim.minSize <= 2
      ensures Touches(sp, edges[p], u)
    {
      if p > 0 {
        assert edges[p] == rest[p - 1];
      }
    }
  }

  lemma {:induction false} GreedyOrigin<T>(
    sp: Space<T>, lim: Limits, group: seq<T>, edges: seq<Edge<T>>, used: set<int>, k: nat)
    returns (n: nat, u: set<int>)
    requires k < |Greedy(sp, lim, group, edges, used)|
    ensures var cs := Greedy(sp, lim, group, edges, used);
            u == used + AllIds(sp, cs[..k]) && Origin(sp, lim, group, edges, n, u, cs[k])
    decreases |edges|
  {
    var e, rest := edges[0], edges[1..];
    var cs := Greedy(sp, lim, group, edges, used);
    ExpandKeepsSeed(sp, lim, group, e, used);
    if Touches(sp, e, used) || |Expand(sp, lim, group, e, used)| < lim.minSize {
      n, u := GreedyOrigin(sp, lim, group, rest, used, k);
      OriginShifts(sp, lim, group, edges, n, u, cs[k]);
      n := n + 1;
    } else if k == 0 {
      n, u := 0, used;
      assert cs[..0] == [];
    } else {
      var c := Expand(sp, lim, group, e, used);
      var used' := used + Ids(sp, c);
      var tail := Greedy(sp, lim, group, rest, used');
      n, u := GreedyOrigin(sp, lim, group, rest, used', k - 1);
      SortedIds(sp, c);
      AllIdsOfPrefix(sp, Sort(c, IdOrder(sp)), tail, k - 1);
      assert u == used + AllIds(sp, cs[..k]);
      OriginShifts(sp, lim, group, edges, n, u, cs[k]);
      n := n + 1;
    }
  }

  /** When pairs are big enough, every edge has an end in some clique. */
  lemma {:induction false} GreedyCovers<T>(
    sp: Space<T>, lim: Limits, group: seq<T>, edges: seq<Edge<T>>, used: set<int>)
    requires lim.minSize <= 2
    ensures var cs := Greedy(sp, lim, group, edges, used);
            forall n :: 0 <= n < |edges| ==> Touches(sp, edges[n], used + AllIds(sp, cs))
    decreases |edges|
  {
    if edges != [] {
      var e, rest := edges[0], edges[1..];
      var cs := Greedy(sp, lim, group, edges, used);
      if Touches(sp, e, used) {
        GreedyCovers(sp, lim, group, rest, used);
      } else {
        var c := Expand(sp, lim, group, e, used);
        ExpandKeepsSeed(sp, lim, group, e, used);
        SortedIds(sp, c);
        GreedyCovers(sp, lim, group, rest, used + Ids(sp, c));
        assert cs[1..] == Greedy(sp, lim, group, rest, used + Ids(sp, c));
      }
      forall n | 0 <= n < |edges|
        ensures Touches(sp, edges[n], used + AllIds(sp, cs))
      {
        if n > 0 {
          assert edges[n] == rest[n - 1];
        }
      }
    }
  }

  // ----- The group -----

  lemma {:induction false} EmbeddedIsExact<T>(sp: Space<T>, items: seq<T>, x: T)
    ensures x in Embedded(sp, items) <==> x in items && sp.embOf(x) != []
  {
    if items != [] {
      EmbeddedIsExact(sp, items[1..], x);
      assert items == [items[0]] + items[1..];
    }
  }

  lemma {:induction false} EmbeddedIsUnique<T>(sp: Space<T>, items: seq<T>)
    requires UniqueIds(sp, items)
    ensures UniqueIds(sp, Embedded(sp, items))
  {
    if items != [] {
      var rest := Embedded(sp, items[1..]);
      EmbeddedIsUnique(sp, items[1..]);
      forall j | 0 <= j < |rest|
        ensures sp.idOf(rest[j]) != sp.idOf(items[0])
      {
        EmbeddedIsExact(sp, items[1..], rest[j]);
        var k :| 0 <= k < |items[1..]| && items[1..][k] == rest[j];
        assert items[k + 1] == rest[j];
      }
    }
  }

  lemma {:induction false} EmbeddedIgnoresOrder<T>(sp: Space<T>, items: seq<T>, x: T)
    ensures multiset(Embedded(sp, items))[x] == if sp.embOf(x) != [] then multiset(items)[x] else 0
  {
    if items != [] {
      EmbeddedIgnoresOrder(sp, items[1..], x);
      assert items == [items[0]] + items[1..];
    }
  }

  /** The working group is the embedded items, each once. */
  lemma GroupIsExact<T(!new)>(sp: Space<T>, items: seq<T>)
    requires UniqueIds(sp, items)
    ensures UniqueIds(sp, Group(sp, items))
    ensures forall x :: x in Group(sp, items) <==> x in items && sp.embOf(x) != []
  {
    var e := Embedded(sp, items);
    EmbeddedIsUnique(sp, items);
    SortIsPermutation(e, IdOrder(sp));
    SortKeepsElements(e, IdOrder(sp));
    UniquePermutes(e, Group(sp, items), sp.idOf);
    forall x
      ensures x in Group(sp, items) <==> x in items && sp.embOf(x) != []
    {
      EmbeddedIsExact(sp, items, x);
    }
  }

  // ----- Theorems -----

  lemma {:induction false} EarlierIdsAreUsed<T>(sp: Space<T>, cs: seq<seq<T>>, j: nat, k: nat)
    requires j < k <= |cs|
    ensures Ids(sp, cs[j]) <= AllIds(sp, cs[..k])
  {
    var p := cs[..k];
    if j > 0 {
      assert p[1..] == cs[1..][..k - 1];
      EarlierIdsAreUsed(sp, cs[1..], j - 1, k - 1);
    }
  }

  lemma OriginIsEmitted<T(!new)>(
    sp: Space<T>, lim: Limits, wm: int, group: seq<T>, n: nat, u: set<int>, c: seq<T>)
    requires UniqueIds(sp, group) && Symmetric(sp.sim)
    requires Origin(sp, lim, group, Edges(sp, lim, wm, group), n, u, c)
    ensures Emitted(sp, lim, wm, group, u, Edges(sp, lim, wm, group)[n], c)
  {
    var edges := Edges(sp, lim, wm, group);
    EdgesAreExact(sp, lim, wm, group);
    assert edges[n] in edges;
    ExpansionIsEmitted(sp, lim, wm, group, edges[n], u);
  }

  /** Every emitted clique consists of embedded items in ascending ID order, is pairwise within the
      similarity bounds, has an item above a positive watermark, shares no ID with an earlier
      clique, and below the size limit admits no further unused item. */
  lemma {:induction false} CliquesAreSound<T(!new)>(sp: Space<T>, raw: Limits, wm: int, items: seq<T>, k: nat)
    requires UniqueIds(sp, items) && Symmetric(sp.sim)
    requires k < |FoundCliques(sp, raw, wm, items)|
    ensures var lim, cs, group := Normalize(raw), FoundCliques(sp, raw, wm, items), Group(sp, items);
            && GoodClique(sp, lim, wm, group, cs[k])
            && Maximal(sp, lim, group, AllIds(sp, cs[..k]), cs[k])
            && forall j :: 0 <= j < k ==> Ids(sp, cs[j]) !! Ids(sp, cs[k])
  {
    var lim, cs, group := Normalize(raw), FoundCliques(sp, raw, wm, items), Group(sp, items);
    GroupIsExact(sp, items);
    var n, u := GreedyOrigin(sp, lim, group, Edges(sp, lim, wm, group), {}, k);
    assert u == AllIds(sp, cs[..k]);
    OriginIsEmitted(sp, lim, wm, group, n, u, cs[k]);
    forall j | 0 <= j < k
      ensures Ids(sp, cs[j]) !! Ids(sp, cs[k])
    {
      EarlierIdsAreUsed(sp, cs, j, k);
    }
  }

  /** The size limit is kept exactly when the caller does not ask for cliques of one:
      a seed edge always contributes two items. */
  lemma SizeLimitKept<T(!new)>(sp: Space<T>, raw: Limits, wm: int, items: seq<T>, k: nat)
    requires UniqueIds(sp, items) && Symmetric(sp.sim)
    requires k < |FoundCliques(sp, raw, wm, items)|
    ensures var lim, c := Normalize(raw), FoundCliques(sp, raw, wm, items)[k];
            && lim.minSize <= |c|
            && (|c| <= lim.maxSize <==> !(raw.minSize == 1 && raw.maxSize == 1))
  {
    CliquesAreSound(sp, raw, wm, items, k);
  }

  /** Two linked items with limits (1, 1) make a clique of two. */
  lemma OversizeExample()
    ensures var sp := Space((x: int) => x, (x: int) => [1.0], (a: Vec, b: Vec) => 1.0);
      exists k :: 0 <= k < |FoundCliques(sp, Limits(0.5, 1.0, 1, 1), 0, [1, 2])|
                  && |FoundCliques(sp, Limits(0.5, 1.0, 1, 1), 0, [1, 2])[k]| > 1
  {
    var sp := Space((x: int) => x, (x: int) => [1.0], (a: Vec, b: Vec) => 1.0);
    var raw := Limits(0.5, 1.0, 1, 1);
    var items := [1, 2];
    var cs := FoundCliques(sp, raw, 0, items);
    CliquesCover(sp, raw, 0, items, items[0], items[1]);
    assert cs != [];
    CliquesAreSound(sp, raw, 0, items, 0);
  }

  /** With the default minimum size, an eligible pair always has an end in some clique. */
  lemma {:induction false} CliquesCover<T(!new)>(sp: Space<T>, raw: Limits, wm: int, items: seq<T>, x: T, y: T)
    requires UniqueIds(sp, items) && Symmetric(sp.sim) && Normalize(raw).minSize <= 2
    requires x in items && y in items && x != y && sp.embOf(x) != [] && sp.embOf(y) != []
    requires Eligible(sp, Normalize(raw), wm, x, y)
    ensures var used := AllIds(sp, FoundCliques(sp, raw, wm, items)); sp.idOf(x) in used || sp.idOf(y) in used
  {
    var lim, group := Normalize(raw), Group(sp, items);
    var edges := Edges(sp, lim, wm, group);
    GroupIsExact(sp, items);
    var i :| 0 <= i < |group| && group[i] == x;
    var j :| 0 <= j < |group| && group[j] == y;
    var e := if i < j then Edge(i, j, x, y, Sim(sp, x, y)) else Edge(j, i, y, x, Sim(sp, y, x));
    assert Sim(sp, x, y) == Sim(sp, y, x);
    EdgesAreExact(sp, lim, wm, group);
    assert e in edges;
    var n :| 0 <= n < |edges| && edges[n] == e;
    GreedyCovers(sp, lim, group, edges, {});
    assert Touches(sp, edges[n], {} + AllIds(sp, FoundCliques(sp, raw, wm, items)));
  }

  /** The pair (p, q) is more similar than (x, y), or as similar with the smaller IDs. */
  ghost predicate GoesFirst<T>(sp: Space<T>, p: T, q: T, x: T, y: T) {
    || Sim(sp, p, q) > Sim(sp, x, y)
    || (Sim(sp, p, q) == Sim(sp, x, y)
        && (sp.idOf(p) < sp.idOf(x) || (sp.idOf(p) == sp.idOf(x) && sp.idOf(q) <= sp.idOf(y))))
  }

  lemma GroupIsOrdered<T(!new)>(sp: Space<T>, items: seq<T>)
    requires UniqueIds(sp, items)
    ensures var group := Group(sp, items); forall i, j :: 0 <= i < j < |group| ==> sp.idOf(group[i]) < sp.idOf(group[j])
  {
    EmbeddedIsUnique(sp, items);
    var e := Embedded(sp, items);
    SortedById(sp, e);
    assert Group(sp, items) == Sort(e, IdOrder(sp));
  }

  /** With the default minimum size, each clique contains a pair (p, q) that goes before every eligible
      pair that no earlier clique had touched. */
  lemma {:induction false} CliquesFollowSimilarity<T(!new)>(sp: Space<T>, raw: Limits, wm: int, items: seq<T>, k: nat)
    returns (p: T, q: T)
    requires UniqueIds(sp, items) && Symmetric(sp.sim) && Normalize(raw).minSize <= 2
    requires k < |FoundCliques(sp, raw, wm, items)|
    ensures var lim, cs, group := Normalize(raw), FoundCliques(sp, raw, wm, items), Group(sp, items);
            var used := AllIds(sp, cs[..k]);
            && p in cs[k] && q in cs[k] && sp.idOf(p) < sp.idOf(q)
            && forall x, y :: (x in group && y in group && sp.idOf(x) < sp.idOf(y) && Eligible(sp, lim, wm, x, y)
                                && sp.idOf(x) !in used && sp.idOf(y) !in used) ==> GoesFirst(sp, p, q, x, y)
  {
    var lim, cs, group := Normalize(raw), FoundCliques(sp, raw, wm, items), Group(sp, items);
    var edges := Edges(sp, lim, wm, group);
    GroupIsExact(sp, items);
    var n, u := GreedyOrigin(sp, lim, group, edges, {}, k);
    assert u == AllIds(sp, cs[..k]);
    OriginIsEmitted(sp, lim, wm, group, n, u, cs[k]);
    EdgesAreExact(sp, lim, wm, group);
    assert edges[n] in edges;
    p, q := edges[n].u, edges[n].v;
    GroupIsOrdered(sp, items);
    forall x, y | x in group && y in group && sp.idOf(x) < sp.idOf(y) && Eligible(sp, lim, wm, x, y)
                  && sp.idOf(x) !in u && sp.idOf(y) !in u
      ensures GoesFirst(sp, p, q, x, y)
    {
      FreeEdgeIsNoBetter(sp, lim, wm, group, n, u, cs[k], x, y);
    }
  }

  lemma FreeEdgeIsNoBetter<T(!new)>(
    sp: Space<T>, lim: Limits, wm: int, group: seq<T>, n: nat, u: set<int>, c: seq<T>, x: T, y: T)
    requires lim.minSize <= 2 && forall i, j :: 0 <= i < j < |group| ==> sp.idOf(group[i]) < sp.idOf(group[j])
    requires Origin(sp, lim, group, Edges(sp, lim, wm, group), n, u, c)
    requires x in group && y in group && sp.idOf(x) < sp.idOf(y) && Eligible(sp, lim, wm, x, y)
    requires sp.idOf(x) !in u && sp.idOf(y) !in u
    ensures var e := Edges(sp, lim, wm, group)[n]; GoesFirst(sp, e.u, e.v, x, y)
  {
    var edges := Edges(sp, lim, wm, group);
    EdgesAreExact(sp, lim, wm, group);
    var m := EdgeBetween(sp, lim, wm, group, x, y);
    assert !Touches(sp, edges[m], u);
    assert edges[n] in edges;
    if n < m {
      assert !EdgeOrder(sp)(edges[m], edges[n]);
    }
  }

  /** An eligible pair of the group has its edge in the list. */
  lemma EdgeBetween<T(!new)>(sp: Space<T>, lim: Limits, wm: int, group: seq<T>, x: T, y: T) returns (m: nat)
    requires forall i, j :: 0 <= i < j < |group| ==> sp.idOf(group[i]) < sp.idOf(group[j])
    requires x in group && y in group && sp.idOf(x) < sp.idOf(y) && Eligible(sp, lim, wm, x, y)
    ensures var edges := Edges(sp, lim, wm, group);
      m < |edges| && edges[m].sim == Sim(sp, x, y) && edges[m].u == x && edges[m].v == y
  {
    var edges := Edges(sp, lim, wm, group);
    EdgesAreExact(sp, lim, wm, group);
    var i :| 0 <= i < |group| && group[i] == x;
    var j :| 0 <= j < |group| && group[j] == y;
    assert i < j;
    var e := Edge(i, j, x, y, Sim(sp, x, y));
    assert EdgeOf(sp, lim, wm, group, e);
    m :| 0 <= m < |edges| && edges[m] == e;
  }

  // ----- Large cliques -----

  lemma {:induction false} NothingBigEnough<T>(
    sp: Space<T>, lim: Limits, group: seq<T>, edges: seq<Edge<T>>, n: nat)
    requires Greedy(sp, lim, group, edges, {}) == [] && n < |edges|
    ensures |Expand(sp, lim, group, edges[n], {})| < lim.minSize
    decreases |edges|
  {
    if n > 0 {
      NothingBigEnough(sp, lim, group, edges[1..], n - 1);
    }
  }

  /** If no clique is found, every eligible pair sits in a clique that is too small and that nobody can join. */
  lemma {:induction false} PairsStaySmall<T(!new)>(sp: Space<T>, raw: Limits, wm: int, items: seq<T>, x: T, y: T)
    returns (c: seq<T>)
    requires UniqueIds(sp, items) && Symmetric(sp.sim) && FoundCliques(sp, raw, wm, items) == []
    requires x in items && y in items && sp.idOf(x) < sp.idOf(y) && sp.embOf(x) != [] && sp.embOf(y) != []
    requires Eligible(sp, Normalize(raw), wm, x, y)
    ensures var lim, group := Normalize(raw), Group(sp, items);
            && x in c && y in c && |c| < lim.minSize && AllLinked(sp, lim, c)
            && (forall z :: z in c ==> z in group)
            && (forall z :: z in group ==> !CouldJoin(sp, lim, {}, c, z))
  {
    var lim, group := Normalize(raw), Group(sp, items);
    var edges := Edges(sp, lim, wm, group);
    GroupIsExact(sp, items);
    GroupIsOrdered(sp, items);
    var m := EdgeBetween(sp, lim, wm, group, x, y);
    EdgesAreExact(sp, lim, wm, group);
    assert edges[m] in edges;
    NothingBigEnough(sp, lim, group, edges, m);
    c := Expand(sp, lim, group, edges[m], {});
    ExpandIsSound(sp, lim, wm, group, edges[m], {});
    ExpandIsMaximal(sp, lim, wm, group, edges[m], {});
    assert c[0] in c && c[1] in c;
  }

  /** A large enough group of linked items is found, as something, if two of its members, not both old, are
      linked to no outsider in common. Without that the search may settle on small cliques across its edge. */
  lemma {:induction false} LinkedGroupIsFound<T(!new)>(
    sp: Space<T>, raw: Limits, wm: int, items: seq<T>, g: seq<T>, x: T, y: T)
    requires UniqueIds(sp, items) && Symmetric(sp.sim)
    requires UniqueIds(sp, g) && AllLinked(sp, Normalize(raw), g) && |g| >= Normalize(raw).minSize
    requires forall z :: z in g ==> z in items && sp.embOf(z) != []
    requires x in g && y in g && sp.idOf(x) < sp.idOf(y) && (wm > 0 ==> sp.idOf(y) > wm)
    requires forall z :: (z in items && sp.embOf(z) != [] && Linked(sp, Normalize(raw), x, z)
                          && Linked(sp, Normalize(raw), y, z)) ==> z in g
    ensures FoundCliques(sp, raw, wm, items) != []
  {
    if FoundCliques(sp, raw, wm, items) == [] {
      var lim := Normalize(raw);
      GroupIsExact(sp, items);
      var c := PairsStaySmall(sp, raw, wm, items, x, y);
      assert forall z :: z in c ==> z in g;
      SomeoneIsLeft(g, c);
      var z :| z in g && z !in c;
      assert CouldJoin(sp, lim, {}, c, z);
      assert false;
    }
  }

  /** The cliques, in order, do not depend on the order of the items. */
  lemma {:induction false} CliquesIgnoreOrder<T(!new)>(
    sp: Space<T>, raw: Limits, wm: int, items: seq<T>, items': seq<T>)
    requires UniqueIds(sp, items) && multiset(items) == multiset(items')
    ensures FoundCliques(sp, raw, wm, items) == FoundCliques(sp, raw, wm, items')
  {
    var e, e' := Embedded(sp, items), Embedded(sp, items');
    forall x
      ensures multiset(e)[x] == multiset(e')[x]
    {
      EmbeddedIgnoresOrder(sp, items, x);
      EmbeddedIgnoresOrder(sp, items', x);
    }
    assert multiset(e) == multiset(e');
    EmbeddedIsUnique(sp, items);
    OrdersAreWeak(sp);
    SortIgnoresOrder(e, e', IdOrder(sp));
  }
}
