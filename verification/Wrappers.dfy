/** Small types and facts that several modules share. */
module Wrappers {

  datatype Option<T> = None | Some(value: T)

  datatype Result<T> = Ok(value: T) | Err

  lemma EmptyOrNot<T>(s: set<T>)
    ensures s == {} || exists x :: x in s
  {
    assert (forall x :: x !in s) ==> s == {};
  }

  /** The same for integers, in the form in which the verifier picks one. */
  lemma EmptyOrNotInts(s: set<int>)
    ensures s == {} || exists x :: x in s
  {
    assert (forall x :: x !in s) ==> s == {};
  }

  lemma EmptyMapOrNot<K, V>(m: map<K, V>)
    ensures m == map[] || exists k :: k in m
  {
    assert (forall k :: k !in m) ==> m == map[];
  }

  /** Fewer picks than distinct elements leave someone unpicked. */
  lemma {:induction false} SomeoneIsLeft<T>(all: seq<T>, picks: seq<T>)
    requires |picks| < |all| && forall i, j :: 0 <= i < j < |all| ==> all[i] != all[j]
    ensures exists x :: x in all && x !in picks
    decreases |all|
  {
    var n := |all| - 1;
    if all[n] in picks {
      var k :| 0 <= k < |picks| && picks[k] == all[n];
      var rest := picks[..k] + picks[k + 1..];
      SomeoneIsLeft(all[..n], rest);
      var x :| x in all[..n] && x !in rest;
      forall m | 0 <= m < |picks|
        ensures picks[m] != x
      {
        assert m < k ==> rest[m] == picks[m];
        assert m > k ==> rest[m - 1] == picks[m];
      }
      assert x in all && x !in picks;
    } else {
      assert all[n] in all && all[n] !in picks;
    }
  }
}
