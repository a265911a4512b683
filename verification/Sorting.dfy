/** Stable sorting by a comparator, as `sort.SliceStable` and `sort.Slice` provide it,
    and the fact that a strict total order leaves only one sorted arrangement. */
module Sorting {

  /** What Go's sort package asks of a comparator: a strict weak order. */
  ghost predicate WeakOrder<T(!new)>(lt: (T, T) -> bool) {
    && (forall x, y :: lt(x, y) ==> !lt(y, x))
    && (forall x, y, z :: !lt(x, y) && !lt(y, z) ==> !lt(x, z))
  }

  ghost predicate Sorted<T>(s: seq<T>, lt: (T, T) -> bool) {
    forall i, j :: 0 <= i < j < |s| ==> !lt(s[j], s[i])
  }

  /** No two different elements of s are ties. */
  ghost predicate NoTies<T>(s: seq<T>, lt: (T, T) -> bool) {
    forall i, j :: 0 <= i < |s| && 0 <= j < |s| && s[i] != s[j] ==> lt(s[i], s[j]) || lt(s[j], s[i])
  }

  function Insert<T>(x: T, s: seq<T>, lt: (T, T) -> bool): seq<T> {
    if s == [] then [x]
    else if lt(s[0], x) then [s[0]] + Insert(x, s[1..], lt)
    else [x] + s
  }

  function Sort<T>(s: seq<T>, lt: (T, T) -> bool): seq<T> {
    if s == [] then [] else Insert(s[0], Sort(s[1..], lt), lt)
  }

  lemma {:induction false} InsertIsPermutation<T>(x: T, s: seq<T>, lt: (T, T) -> bool)
    ensures multiset(Insert(x, s, lt)) == multiset{x} + multiset(s)
  {
    if s != [] {
      assert s == [s[0]] + s[1..];
      if lt(s[0], x) {
        InsertIsPermutation(x, s[1..], lt);
      }
    }
  }

  lemma {:induction false} SortIsPermutation<T>(s: seq<T>, lt: (T, T) -> bool)
    ensures multiset(Sort(s, lt)) == multiset(s)
  {
    if s != [] {
      assert s == [s[0]] + s[1..];
      SortIsPermutation(s[1..], lt);
      InsertIsPermutation(s[0], Sort(s[1..], lt), lt);
    }
  }

  lemma SameElements<T>(s: seq<T>, t: seq<T>)
    requires multiset(s) == multiset(t)
    ensures |s| == |t|
    ensures forall x :: x in s <==> x in t
  {
    assert |s| == |multiset(s)| == |multiset(t)| == |t|;
    forall x
      ensures x in s <==> x in t
    {
      assert x in s <==> x in multiset(s);
      assert x in t <==> x in multiset(t);
    }
  }

  /** Sorting keeps the length and the members. */
  lemma SortKeepsElements<T>(s: seq<T>, lt: (T, T) -> bool)
    ensures |Sort(s, lt)| == |s|
    ensures forall x :: x in Sort(s, lt) <==> x in s
  {
    SortIsPermutation(s, lt);
    SameElements(Sort(s, lt), s);
  }

  lemma {:induction false} InsertIsSorted<T(!new)>(x: T, s: seq<T>, lt: (T, T) -> bool)
    requires WeakOrder(lt) && Sorted(s, lt)
    ensures Sorted(Insert(x, s, lt), lt)
  {
    if s != [] {
      var r := Insert(x, s, lt);
      if lt(s[0], x) {
        var rest := Insert(x, s[1..], lt);
        InsertIsSorted(x, s[1..], lt);
        InsertIsPermutation(x, s[1..], lt);
        forall j | 0 < j < |r|
          ensures !lt(r[j], r[0])
        {
          assert r[j] == rest[j - 1] && rest[j - 1] in multiset(rest);
          assert r[j] == x || r[j] in s[1..];
        }
      } else {
        forall j | 0 < j < |r|
          ensures !lt(r[j], r[0])
        {
          assert r[j] == s[j - 1];
        }
      }
    }
  }

  lemma {:induction false} SortIsSorted<T(!new)>(s: seq<T>, lt: (T, T) -> bool)
    requires WeakOrder(lt)
    ensures Sorted(Sort(s, lt), lt)
  {
    if s != [] {
      SortIsSorted(s[1..], lt);
      InsertIsSorted(s[0], Sort(s[1..], lt), lt);
    }
  }

  lemma {:induction false} RemoveFirst<T>(s: seq<T>)
    requires s != []
    ensures multiset(s[1..]) == multiset(s) - multiset{s[0]}
  {
    assert s == [s[0]] + s[1..];
  }

  lemma SameHead<T>(s: seq<T>, t: seq<T>, lt: (T, T) -> bool)
    requires s != [] && multiset(s) == multiset(t)
    requires Sorted(s, lt) && Sorted(t, lt) && NoTies(s, lt)
    ensures t != [] && s[0] == t[0]
  {
    SameElements(s, t);
    assert s[0] in t && t[0] in s;
    var i :| 0 <= i < |t| && t[i] == s[0];
    var j :| 0 <= j < |s| && s[j] == t[0];
  }

  /** Two sorted arrangements of the same elements coincide when there are no ties. */
  lemma {:induction false} SortedIsUnique<T>(s: seq<T>, t: seq<T>, lt: (T, T) -> bool)
    requires multiset(s) == multiset(t)
    requires Sorted(s, lt) && Sorted(t, lt) && NoTies(s, lt)
    ensures s == t
    decreases |s|
  {
    if s == [] {
      SameElements(s, t);
    } else {
      SameHead(s, t, lt);
      RemoveFirst(s);
      RemoveFirst(t);
      SortedIsUnique(s[1..], t[1..], lt);
      assert s == [s[0]] + s[1..] && t == [t[0]] + t[1..];
    }
  }

  /** With no ties, sorting forgets the order of its input. */
  lemma {:induction false} SortIgnoresOrder<T(!new)>(s: seq<T>, t: seq<T>, lt: (T, T) -> bool)
    requires WeakOrder(lt) && multiset(s) == multiset(t) && NoTies(s, lt)
    ensures Sort(s, lt) == Sort(t, lt)
  {
    SortIsPermutation(s, lt);
    SortIsPermutation(t, lt);
    SortIsSorted(s, lt);
    SortIsSorted(t, lt);
    SortKeepsElements(s, lt);
    var r := Sort(s, lt);
    forall i, j | 0 <= i < |r| && 0 <= j < |r| && r[i] != r[j]
      ensures lt(r[i], r[j]) || lt(r[j], r[i])
    {
      assert r[i] in s && r[j] in s;
    }
    SortedIsUnique(r, Sort(t, lt), lt);
  }

  // ----- Distinct keys -----

  ghost predicate UniqueBy<T>(s: seq<T>, key: T -> int) {
    forall i, j :: 0 <= i < j < |s| ==> key(s[i]) != key(s[j])
  }

  lemma {:induction false} UniqueCountsOnce<T>(s: seq<T>, key: T -> int, x: T)
    requires UniqueBy(s, key)
    ensures multiset(s)[x] <= 1
  {
    if s != [] {
      assert s == [s[0]] + s[1..];
      UniqueCountsOnce(s[1..], key, x);
      assert s[0] !in s[1..];
    }
  }

  lemma RepeatedCountsTwice<T>(s: seq<T>, i: nat, j: nat)
    requires i < j < |s| && s[i] == s[j]
    ensures multiset(s)[s[i]] >= 2
  {
    assert s == s[..i] + [s[i]] + s[i + 1..j] + [s[j]] + s[j + 1..];
  }

  lemma {:induction false} UniquePermutes<T>(s: seq<T>, t: seq<T>, key: T -> int)
    requires UniqueBy(s, key) && multiset(s) == multiset(t)
    ensures UniqueBy(t, key)
  {
    SameElements(s, t);
    forall i, j | 0 <= i < j < |t|
      ensures key(t[i]) != key(t[j])
    {
      if t[i] == t[j] {
        RepeatedCountsTwice(t, i, j);
        UniqueCountsOnce(s, key, t[i]);
      } else {
        assert t[i] in s && t[j] in s;
        var p :| 0 <= p < |s| && s[p] == t[i];
        var q :| 0 <= q < |s| && s[q] == t[j];
        assert p < q || q < p;
      }
    }
  }

  // ----- Stability -----

  /** a belongs before b: smaller, or a tie with the smaller key. */
  ghost predicate Precedes<T>(a: T, b: T, lt: (T, T) -> bool, key: T -> int) {
    !lt(b, a) && (lt(a, b) || key(a) < key(b))
  }

  /** Sorted by lt, with ties in ascending key order. */
  ghost predicate StablySorted<T>(s: seq<T>, lt: (T, T) -> bool, key: T -> int) {
    forall i, j :: 0 <= i < j < |s| ==> Precedes(s[i], s[j], lt, key)
  }

  lemma PrependStable<T>(x: T, s: seq<T>, lt: (T, T) -> bool, key: T -> int)
    requires StablySorted(s, lt, key) && forall y :: y in s ==> Precedes(x, y, lt, key)
    ensures StablySorted([x] + s, lt, key)
  {
    var r := [x] + s;
    forall i, j | 0 <= i < j < |r|
      ensures Precedes(r[i], r[j], lt, key)
    {
      if i == 0 {
        assert r[j] in s;
      } else {
        assert r[i] == s[i - 1] && r[j] == s[j - 1];
      }
    }
  }

  lemma {:induction false} InsertIsStable<T(!new)>(x: T, s: seq<T>, lt: (T, T) -> bool, key: T -> int)
    requires WeakOrder(lt) && StablySorted(s, lt, key)
    requires forall y :: y in s ==> key(x) < key(y)
    ensures StablySorted(Insert(x, s, lt), lt, key)
  {
    if s != [] {
      forall y | y in s[1..]
        ensures Precedes(s[0], y, lt, key)
      {
        var k :| 0 <= k < |s[1..]| && s[1..][k] == y;
        assert y == s[k + 1];
      }
      if lt(s[0], x) {
        var rest := Insert(x, s[1..], lt);
        InsertIsStable(x, s[1..], lt, key);
        InsertIsPermutation(x, s[1..], lt);
        forall y | y in rest
          ensures Precedes(s[0], y, lt, key)
        {
          assert y in multiset(rest);
          assert y == x || y in s[1..];
        }
        PrependStable(s[0], rest, lt, key);
      } else {
        forall y | y in s
          ensures Precedes(x, y, lt, key)
        {
          assert y == s[0] || y in s[1..];
        }
        PrependStable(x, s, lt, key);
      }
    }
  }

  /** Sorting keeps the input order of ties. */
  lemma {:induction false} SortIsStable<T(!new)>(s: seq<T>, lt: (T, T) -> bool, key: T -> int)
    requires WeakOrder(lt)
    requires forall i, j :: 0 <= i < j < |s| ==> key(s[i]) < key(s[j])
    ensures StablySorted(Sort(s, lt), lt, key)
  {
    if s != [] {
      SortIsStable(s[1..], lt, key);
      var rest := Sort(s[1..], lt);
      SortKeepsElements(s[1..], lt);
      forall y | y in rest
        ensures key(s[0]) < key(y)
      {
        assert y in s[1..];
      }
      InsertIsStable(s[0], rest, lt, key);
    }
  }
}
