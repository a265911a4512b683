/** The clone detector's token distance (scripts/code-health): a one-row dynamic
    program for the Levenshtein distance, and the similarity derived from it.

    The reference notion is `Path`: a chain of sequences in which neighbours differ by
    one inserted, deleted or replaced token, at any position and in any order. */
module EditDistance {

  function Min(x: int, y: int): int {
    if x <= y then x else y
  }

  function Max(x: int, y: int): int {
    if x >= y then x else y
  }

  function Cost<T(==)>(x: T, y: T): nat {
    if x == y then 0 else 1
  }

  /** The recursive distance, peeling both sequences from the right. */
  function Distance<T(==)>(a: seq<T>, b: seq<T>): nat
    decreases |a| + |b|
  {
    if a == [] then |b|
    else if b == [] then |a|
    else
      var a', b' := a[..|a| - 1], b[..|b| - 1];
      Min(Distance(a', b') + Cost(a[|a| - 1], b[|b| - 1]),
          Min(Distance(a', b) + 1, Distance(a, b') + 1))
  }

  // ----- Single edits and chains of them -----

  ghost predicate Inserted<T>(a: seq<T>, b: seq<T>, p: nat) {
    p < |b| && a == b[..p] + b[p + 1..]
  }

  ghost predicate Replaced<T>(a: seq<T>, b: seq<T>, p: nat) {
    p < |a| == |b| && a[..p] == b[..p] && a[p + 1..] == b[p + 1..]
  }

  /** b comes from a by one token insertion, deletion or replacement. */
  ghost predicate OneEdit<T(!new)>(a: seq<T>, b: seq<T>) {
    exists p: nat :: Inserted(a, b, p) || Inserted(b, a, p) || Replaced(a, b, p)
  }

  ghost predicate Path<T(!new)>(path: seq<seq<T>>, a: seq<T>, b: seq<T>) {
    && path != []
    && path[0] == a
    && path[|path| - 1] == b
    && forall i :: 0 <= i < |path| - 1 ==> OneEdit(path[i], path[i + 1])
  }

  // ----- Distance moves by at most one per edit -----

  lemma {:induction false} DistanceSteps<T>(a: seq<T>, x: T, b: seq<T>, y: T)
    ensures Distance(a + [x], b) <= Distance(a, b) + 1
    ensures Distance(a, b + [y]) <= Distance(a, b) + 1
    ensures Distance(a + [x], b + [y]) <= Distance(a, b) + Cost(x, y)
  {
    var ax, yb := a + [x], b + [y];
    assert ax[..|ax| - 1] == a && yb[..|yb| - 1] == b;
  }

  /** Removing the last token changes the distance by at most one. */
  lemma {:induction false} DropLast<T>(a: seq<T>, x: T, b: seq<T>)
    ensures Distance(a, b) <= Distance(a + [x], b) + 1
    decreases |b|
  {
    var ax := a + [x];
    assert ax[..|ax| - 1] == a;
    if b == [] {
      assert a == [] || Distance(a, b) == |a|;
    } else {
      var b', y := b[..|b| - 1], b[|b| - 1];
      assert b == b' + [y];
      DropLast(a, x, b');
      DistanceSteps(a, x, b', y);
    }
  }

  lemma {:induction false} DistanceToEmpty<T>(a: seq<T>)
    ensures Distance(a, []) == |a| && Distance([], a) == |a|
  {
  }

  /** A bound on the three neighbouring table cells carries over to the next cell. */
  lemma {:induction false} BoundCarries<T>(p: seq<T>, q: seq<T>, u: T, b: seq<T>, z: T)
    requires Distance(p, b) <= Distance(q, b) + 1
    requires Distance(p, b + [z]) <= Distance(q, b + [z]) + 1
    requires Distance(p + [u], b) <= Distance(q + [u], b) + 1
    ensures Distance(p + [u], b + [z]) <= Distance(q + [u], b + [z]) + 1
  {
    var pu, qu, bz := p + [u], q + [u], b + [z];
    assert pu[..|pu| - 1] == p && qu[..|qu| - 1] == q && bz[..|bz| - 1] == b;
  }

  /** Inserting s between x and y changes the distance to b by at most one, both ways. */
  lemma {:induction false} InsertInside<T>(x: seq<T>, s: T, y: seq<T>, b: seq<T>)
    ensures Distance(x + [s] + y, b) <= Distance(x + y, b) + 1
    ensures Distance(x + y, b) <= Distance(x + [s] + y, b) + 1
    decreases |y| + |b|
  {
    var wide, narrow := x + [s] + y, x + y;
    if y == [] {
      assert wide == x + [s] && narrow == x;
      DropLast(x, s, b);
      if b == [] {
        DistanceToEmpty(x);
        DistanceToEmpty(x + [s]);
      } else {
        DistanceSteps(x, s, b, s);
      }
    } else if b == [] {
      DistanceToEmpty(wide);
      DistanceToEmpty(narrow);
    } else {
      var y', t := y[..|y| - 1], y[|y| - 1];
      var b', z := b[..|b| - 1], b[|b| - 1];
      assert wide == x + [s] + y' + [t] && narrow == x + y' + [t] && b == b' + [z];
      InsertInside(x, s, y', b');
      InsertInside(x, s, y', b);
      InsertInside(x, s, y, b');
      BoundCarries(x + [s] + y', x + y', t, b', z);
      BoundCarries(x + y', x + [s] + y', t, b', z);
    }
  }

  lemma {:induction false} ReplaceLast<T>(x: seq<T>, s: T, t: T, b: seq<T>)
    ensures Distance(x + [s], b) <= Distance(x + [t], b) + 1
    decreases |b|
  {
    var from, to := x + [s], x + [t];
    if b == [] {
      DistanceToEmpty(from);
      DistanceToEmpty(to);
    } else {
      var b', z := b[..|b| - 1], b[|b| - 1];
      assert b == b' + [z] && to[..|to| - 1] == x;
      DistanceSteps(x, s, b, z);
      DistanceSteps(x, s, b', z);
      ReplaceLast(x, s, t, b');
      DistanceSteps(from, s, b', z);
    }
  }

  lemma {:induction false} ReplaceInside<T>(x: seq<T>, s: T, t: T, y: seq<T>, b: seq<T>)
    ensures Distance(x + [s] + y, b) <= Distance(x + [t] + y, b) + 1
    decreases |y| + |b|
  {
    var from, to := x + [s] + y, x + [t] + y;
    if y == [] {
      assert from == x + [s] && to == x + [t];
      ReplaceLast(x, s, t, b);
    } else if b == [] {
      DistanceToEmpty(from);
      DistanceToEmpty(to);
    } else {
      var y', u := y[..|y| - 1], y[|y| - 1];
      var b', z := b[..|b| - 1], b[|b| - 1];
      assert from == x + [s] + y' + [u] && to == x + [t] + y' + [u] && b == b' + [z];
      ReplaceInside(x, s, t, y', b');
      ReplaceInside(x, s, t, y', b);
      ReplaceInside(x, s, t, y, b');
      BoundCarries(x + [s] + y', x + [t] + y', u, b', z);
    }
  }

  lemma InsertedMovesDistance<T>(a: seq<T>, a': seq<T>, p: nat, b: seq<T>)
    requires Inserted(a, a', p)
    ensures Distance(a, b) <= Distance(a', b) + 1 && Distance(a', b) <= Distance(a, b) + 1
  {
    var x, y := a'[..p], a'[p + 1..];
    assert a' == x + [a'[p]] + y;
    InsertInside(x, a'[p], y, b);
  }

  lemma ReplacedMovesDistance<T>(a: seq<T>, a': seq<T>, p: nat, b: seq<T>)
    requires Replaced(a, a', p)
    ensures Distance(a, b) <= Distance(a', b) + 1
  {
    var x, y := a[..p], a[p + 1..];
    assert a == x + [a[p]] + y && a' == x + [a'[p]] + y;
    ReplaceInside(x, a[p], a'[p], y, b);
  }

  lemma {:induction false} EditMovesDistance<T(!new)>(a: seq<T>, a': seq<T>, b: seq<T>)
    requires OneEdit(a, a')
    ensures Distance(a, b) <= Distance(a', b) + 1
  {
    var p: nat :| Inserted(a, a', p) || Inserted(a', a, p) || Replaced(a, a', p);
    if Inserted(a, a', p) {
      InsertedMovesDistance(a, a', p, b);
    } else if Inserted(a', a, p) {
      InsertedMovesDistance(a', a, p, b);
    } else {
      ReplacedMovesDistance(a, a', p, b);
    }
  }

  lemma {:induction false} DistanceToSelf<T>(a: seq<T>)
    ensures Distance(a, a) == 0
  {
    if a != [] {
      DistanceToSelf(a[..|a| - 1]);
    }
  }

  /** No chain of single edits from a to b is shorter than the distance. */
  lemma {:induction false} PathIsNoShorter<T(!new)>(path: seq<seq<T>>, a: seq<T>, b: seq<T>)
    requires Path(path, a, b)
    ensures Distance(a, b) <= |path| - 1
    decreases |path|
  {
    if |path| == 1 {
      DistanceToSelf(a);
    } else {
      var rest := path[1..];
      forall i | 0 <= i < |rest| - 1
        ensures OneEdit(rest[i], rest[i + 1])
      {
        assert rest[i] == path[i + 1] && rest[i + 1] == path[i + 2];
      }
      PathIsNoShorter(rest, path[1], b);
      assert OneEdit(path[0], path[1]);
      EditMovesDistance(a, path[1], b);
    }
  }

  // ----- The distance is reached by some chain -----

  lemma AppendToInserted<T>(a: seq<T>, b: seq<T>, p: nat, s: seq<T>)
    requires Inserted(a, b, p)
    ensures Inserted(a + s, b + s, p)
  {
    assert (b + s)[..p] == b[..p];
    assert (b + s)[p + 1..] == b[p + 1..] + s;
    assert a + s == b[..p] + (b[p + 1..] + s);
  }

  lemma AppendToReplaced<T>(a: seq<T>, b: seq<T>, p: nat, s: seq<T>)
    requires Replaced(a, b, p)
    ensures Replaced(a + s, b + s, p)
  {
    assert (a + s)[..p] == a[..p] && (b + s)[..p] == b[..p];
    assert (a + s)[p + 1..] == a[p + 1..] + s && (b + s)[p + 1..] == b[p + 1..] + s;
  }

  lemma {:induction false} AppendToEdit<T(!new)>(a: seq<T>, b: seq<T>, s: seq<T>)
    requires OneEdit(a, b)
    ensures OneEdit(a + s, b + s)
  {
    var p: nat :| Inserted(a, b, p) || Inserted(b, a, p) || Replaced(a, b, p);
    if Inserted(a, b, p) {
      AppendToInserted(a, b, p, s);
    } else if Inserted(b, a, p) {
      AppendToInserted(b, a, p, s);
    } else {
      AppendToReplaced(a, b, p, s);
    }
  }

  /** Appending s to every sequence of a chain. */
  lemma {:induction false} AppendToPath<T(!new)>(path: seq<seq<T>>, a: seq<T>, b: seq<T>, s: seq<T>)
    returns (longer: seq<seq<T>>)
    requires Path(path, a, b)
    ensures Path(longer, a + s, b + s) && |longer| == |path|
  {
    longer := seq(|path|, i requires 0 <= i < |path| => path[i] + s);
    forall i | 0 <= i < |longer| - 1
      ensures OneEdit(longer[i], longer[i + 1])
    {
      AppendToEdit(path[i], path[i + 1], s);
    }
  }

  lemma {:induction false} ExtendPath<T(!new)>(path: seq<seq<T>>, a: seq<T>, b: seq<T>, c: seq<T>)
    requires Path(path, a, b) && OneEdit(b, c)
    ensures Path(path + [c], a, c)
  {
    var longer := path + [c];
    forall i | 0 <= i < |longer| - 1
      ensures OneEdit(longer[i], longer[i + 1])
    {
      if i == |path| - 1 {
        assert longer[i] == b && longer[i + 1] == c;
      } else {
        assert longer[i] == path[i] && longer[i + 1] == path[i + 1];
      }
    }
  }

  lemma LastEdits<T(!new)>(a: seq<T>, x: T, y: T)
    ensures OneEdit(a, a + [x]) && OneEdit(a + [x], a) && OneEdit(a + [x], a + [y])
  {
    assert Inserted(a, a + [x], |a|);
    assert Replaced(a + [x], a + [y], |a|);
  }

  /** Some chain of single edits is exactly as long as the distance. */
  lemma {:induction false} ShortestPath<T(!new)>(a: seq<T>, b: seq<T>) returns (path: seq<seq<T>>)
    ensures Path(path, a, b) && |path| - 1 == Distance(a, b)
    decreases |a| + |b|
  {
    if a == [] && b == [] {
      path := [a];
      return;
    }
    if b != [] {
      var b', y := b[..|b| - 1], b[|b| - 1];
      assert b == b' + [y];
      if a == [] || Distance(a, b) == Distance(a, b') + 1 {
        path := ShortestPath(a, b');
        LastEdits(b', y, y);
        ExtendPath(path, a, b', b);
        path := path + [b];
        return;
      }
    }
    var a', x := a[..|a| - 1], a[|a| - 1];
    assert a == a' + [x];
    if b == [] || Distance(a, b) == Distance(a', b) + 1 {
      var tail := ShortestPath(a', b);
      LastEdits(a', x, x);
      path := PrependPath(a, a', b, tail);
    } else {
      var b', y := b[..|b| - 1], b[|b| - 1];
      path := ShortestPath(a', b');
      path := AppendToPath(path, a', b', [x]);
      if x != y {
        LastEdits(b', x, y);
        ExtendPath(path, a, b' + [x], b);
        path := path + [b];
      }
    }
  }

  lemma {:induction false} PrependPath<T(!new)>(a: seq<T>, b: seq<T>, c: seq<T>, path: seq<seq<T>>)
    returns (longer: seq<seq<T>>)
    requires OneEdit(a, b) && Path(path, b, c)
    ensures Path(longer, a, c) && |longer| == |path| + 1
  {
    longer := [a] + path;
    forall i | 0 <= i < |longer| - 1
      ensures OneEdit(longer[i], longer[i + 1])
    {
      if i > 0 {
        assert longer[i] == path[i - 1] && longer[i + 1] == path[i];
      }
    }
  }

  // ----- Consequences -----

  lemma {:induction false} OneEditIsSymmetric<T(!new)>(a: seq<T>, b: seq<T>)
    requires OneEdit(a, b)
    ensures OneEdit(b, a)
  {
    var p: nat :| Inserted(a, b, p) || Inserted(b, a, p) || Replaced(a, b, p);
    assert Inserted(b, a, p) || Inserted(a, b, p) || Replaced(b, a, p);
  }

  lemma {:induction false} ReversePath<T(!new)>(path: seq<seq<T>>, a: seq<T>, b: seq<T>)
    returns (back: seq<seq<T>>)
    requires Path(path, a, b)
    ensures Path(back, b, a) && |back| == |path|
  {
    var n := |path|;
    back := seq(n, i requires 0 <= i < n => path[n - 1 - i]);
    forall i | 0 <= i < n - 1
      ensures OneEdit(back[i], back[i + 1])
    {
      var j := n - 2 - i;
      assert back[i + 1] == path[j] && back[i] == path[j + 1];
      OneEditIsSymmetric(path[j], path[j + 1]);
    }
  }

  lemma {:induction false} JoinPaths<T(!new)>(p: seq<seq<T>>, a: seq<T>, b: seq<T>, q: seq<seq<T>>, c: seq<T>)
    requires Path(p, a, b) && Path(q, b, c)
    ensures Path(p + q[1..], a, c)
  {
    var r := p + q[1..];
    forall i | 0 <= i < |r| - 1
      ensures OneEdit(r[i], r[i + 1])
    {
      if i < |p| - 1 {
        assert r[i] == p[i] && r[i + 1] == p[i + 1];
      } else {
        var j := i - (|p| - 1);
        assert r[i] == q[j] && r[i + 1] == q[j + 1];
      }
    }
    assert r[|r| - 1] == c;
  }

  /** Distance is a metric: it is the shortest edit chain, so it is symmetric, obeys the
      triangle inequality and vanishes exactly on equal sequences. */
  lemma {:induction false} DistanceIsSymmetric<T(!new)>(a: seq<T>, b: seq<T>)
    ensures Distance(a, b) == Distance(b, a)
  {
    var p := ShortestPath(a, b);
    var back := ReversePath(p, a, b);
    PathIsNoShorter(back, b, a);
    var q := ShortestPath(b, a);
    var forth := ReversePath(q, b, a);
    PathIsNoShorter(forth, a, b);
  }

  lemma {:induction false} TriangleInequality<T(!new)>(a: seq<T>, b: seq<T>, c: seq<T>)
    ensures Distance(a, c) <= Distance(a, b) + Distance(b, c)
  {
    var p := ShortestPath(a, b);
    var q := ShortestPath(b, c);
    JoinPaths(p, a, b, q, c);
    PathIsNoShorter(p + q[1..], a, c);
  }

  lemma {:induction false} ZeroIffEqual<T(!new)>(a: seq<T>, b: seq<T>)
    ensures Distance(a, b) == 0 <==> a == b
  {
    if a == b {
      DistanceToSelf(a);
    } else {
      var p := ShortestPath(a, b);
    }
  }

  lemma {:induction false} DistanceAtMostLonger<T>(a: seq<T>, b: seq<T>)
    ensures Distance(a, b) <= Max(|a|, |b|)
    decreases |a|
  {
    if a != [] && b != [] {
      DistanceAtMostLonger(a[..|a| - 1], b[..|b| - 1]);
    }
  }

  // ----- The program -----

  /** The similarity the clone detector compares with its ceiling. */
  function Similarity<T(==)>(a: seq<T>, b: seq<T>): real {
    if a == [] || b == [] then 0.0
    else 1.0 - Distance(a, b) as real / Max(|a|, |b|) as real
  }

  /** Entry (i, j) of the distance table. */
  ghost function Cell<T>(a: seq<T>, b: seq<T>, i: nat, j: nat): nat
    requires i <= |a| && j <= |b|
  {
    Distance(a[..i], b[..j])
  }

  lemma {:induction false} TableCell<T>(a: seq<T>, b: seq<T>, i: nat, j: nat)
    requires 0 < i <= |a| && 0 < j <= |b|
    ensures Cell(a, b, i, j) ==
            Min(Cell(a, b, i - 1, j - 1) + Cost(a[i - 1], b[j - 1]),
                Min(Cell(a, b, i - 1, j) + 1, Cell(a, b, i, j - 1) + 1))
  {
    assert a[..i][..i - 1] == a[..i - 1] && b[..j][..j - 1] == b[..j - 1];
  }

  lemma TableEdges<T>(a: seq<T>, b: seq<T>)
    ensures forall j: nat :: j <= |b| ==> Cell(a, b, 0, j) == j
    ensures forall i: nat :: i <= |a| ==> Cell(a, b, i, 0) == i
    ensures Cell(a, b, |a|, |b|) == Distance(a, b)
  {
    assert a[..|a|] == a && b[..|b|] == b;
  }

  /** Turns row i - 1 of the table into row i, in place. */
  method NextRow<T(==)>(dp: array<int>, a: seq<T>, b: seq<T>, i: nat)
    requires 0 < i <= |a| && dp.Length == |b| + 1
    requires forall k: nat :: k <= |b| ==> dp[k] == Cell(a, b, i - 1, k)
    modifies dp
    ensures forall k: nat :: k <= |b| ==> dp[k] == Cell(a, b, i, k)
  {
    TableEdges(a, b);
    var prev := dp[0];
    dp[0] := i;
    for j := 1 to |b| + 1
      invariant prev == Cell(a, b, i - 1, j - 1)
      invariant forall k: nat :: k < j ==> dp[k] == Cell(a, b, i, k)
      invariant forall k: nat :: j <= k <= |b| ==> dp[k] == Cell(a, b, i - 1, k)
    {
      var temp := dp[j];
      var cost := 1;
      if a[i - 1] == b[j - 1] {
        cost := 0;
      }
      TableCell(a, b, i, j);
      dp[j] := Min(prev + cost, Min(dp[j] + 1, dp[j - 1] + 1));
      prev := temp;
    }
  }

  method EditSimilarity<T(==)>(a: seq<T>, b: seq<T>) returns (s: real)
    ensures s == Similarity(a, b)
  {
    if |a| == 0 || |b| == 0 {
      return 0.0;
    }
    var m, n := |a|, |b|;
    var dp := new int[n + 1](j => j);
    TableEdges(a, b);
    for i := 1 to m + 1
      invariant forall k: nat :: k <= n ==> dp[k] == Cell(a, b, i - 1, k)
    {
      NextRow(dp, a, b, i);
    }
    var dist := dp[n];
    var maxLen := Max(m, n);
    s := 1.0 - dist as real / maxLen as real;
  }

  lemma {:induction false} QuotientBounds(d: int, n: int)
    requires 0 <= d <= n && 0 < n
    ensures 0.0 <= d as real / n as real <= 1.0
    ensures d as real / n as real == 0.0 <==> d == 0
  {
    var q := d as real / n as real;
    assert q * n as real == d as real;
  }

  /** On non-empty inputs the similarity lies in [0, 1], ignores the argument order and is
      1 exactly on equal sequences; a is never similar to nothing, not even when both are empty. */
  lemma {:induction false} SimilarityLaws<T(!new)>(a: seq<T>, b: seq<T>)
    ensures 0.0 <= Similarity(a, b) <= 1.0
    ensures Similarity(a, b) == Similarity(b, a)
    ensures Similarity(a, b) == 1.0 <==> a == b && a != []
  {
    if a != [] && b != [] {
      DistanceAtMostLonger(a, b);
      DistanceIsSymmetric(a, b);
      ZeroIffEqual(a, b);
      QuotientBounds(Distance(a, b), Max(|a|, |b|));
    }
  }

  /** The similarity falls short of 1 by the distance, measured in lengths of the longer input. */
  lemma SimilarityMeasuresDistance<T(!new)>(a: seq<T>, b: seq<T>)
    requires a != [] && b != []
    ensures (1.0 - Similarity(a, b)) * Max(|a|, |b|) as real == Distance(a, b) as real
  {
    TimesTheDivisor(Distance(a, b), Max(|a|, |b|), Similarity(a, b));
  }

  lemma TimesTheDivisor(d: int, n: int, s: real)
    requires n > 0 && s == 1.0 - d as real / n as real
    ensures (1.0 - s) * n as real == d as real
  {
  }
}
