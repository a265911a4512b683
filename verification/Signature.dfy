/** cliqueSignature (services/coven/extractor.go): the sorted IDs in decimal, joined by commas.
    It identifies the ID set: two cliques get the same signature only if they hold the same IDs. */
module Signature {
  import opened Sorting

  function Digit(d: nat): char
    requires d < 10
  {
    '0' + d as char
  }

  function Digits(n: nat): string {
    if n < 10 then [Digit(n)] else Digits(n / 10) + [Digit(n % 10)]
  }

  /** strconv.FormatInt in base 10. */
  function FormatInt(n: int): string {
    if n < 0 then ['-'] + Digits(-n) else Digits(n)
  }

  function Join(ids: seq<int>): string {
    if ids == [] then []
    else if |ids| == 1 then FormatInt(ids[0])
    else FormatInt(ids[0]) + [','] + Join(ids[1..])
  }

  function Less(): (int, int) -> bool {
    (x, y) => x < y
  }

  function CliqueSignature(ids: seq<int>): string {
    Join(Sort(ids, Less()))
  }

  lemma {:induction false} DigitsAreDigits(n: nat)
    ensures |Digits(n)| >= 1 && forall i :: 0 <= i < |Digits(n)| ==> '0' <= Digits(n)[i] <= '9'
  {
    if n >= 10 {
      DigitsAreDigits(n / 10);
    }
  }

  lemma {:induction false} DigitsInjective(m: nat, n: nat)
    requires Digits(m) == Digits(n)
    ensures m == n
  {
    var a, b := Digits(m), Digits(n);
    assert a[|a| - 1] == b[|b| - 1] && a[..|a| - 1] == b[..|b| - 1];
    if m >= 10 {
      DigitsAreDigits(m / 10);
      if n >= 10 {
        assert a[..|a| - 1] == Digits(m / 10) && b[..|b| - 1] == Digits(n / 10);
        DigitsInjective(m / 10, n / 10);
      }
    } else if n >= 10 {
      DigitsAreDigits(n / 10);
    }
  }

  lemma FormatIntInjective(m: int, n: int)
    requires FormatInt(m) == FormatInt(n)
    ensures m == n
  {
    var p: nat, q: nat := if m < 0 then -m else m, if n < 0 then -n else n;
    DigitsAreDigits(p);
    DigitsAreDigits(q);
    assert FormatInt(m)[0] == '-' <==> m < 0;
    assert FormatInt(n)[0] == '-' <==> n < 0;
    if m < 0 {
      assert FormatInt(m)[1..] == Digits(p) && FormatInt(n)[1..] == Digits(q);
    }
    DigitsInjective(p, q);
  }

  lemma FormatIntHasNoComma(n: int)
    ensures ',' !in FormatInt(n) && FormatInt(n) != []
  {
    DigitsAreDigits(if n < 0 then -n else n);
  }

  /** The text before the first comma is determined by the whole. */
  lemma FirstField(x: string, r: string, y: string, s: string)
    requires ',' !in x && ',' !in y && x + [','] + r == y + [','] + s
    ensures x == y && r == s
  {
    var w := x + [','] + r;
    assert w[|x|] == ',' && w[|y|] == ',';
    assert forall i :: 0 <= i < |x| ==> w[i] == x[i];
    assert forall i :: 0 <= i < |y| ==> w[i] == y[i];
    assert |x| == |y|;
    assert x == w[..|x|] && y == w[..|y|];
    assert r == w[|x| + 1..] && s == w[|y| + 1..];
  }

  lemma JoinShape(a: seq<int>)
    ensures Join(a) == [] <==> a == []
    ensures ',' in Join(a) <==> |a| >= 2
  {
    if a != [] {
      FormatIntHasNoComma(a[0]);
      if |a| >= 2 {
        assert Join(a)[|FormatInt(a[0])|] == ',';
      }
    }
  }

  lemma {:induction false} JoinInjective(a: seq<int>, b: seq<int>)
    requires Join(a) == Join(b)
    ensures a == b
  {
    JoinShape(a);
    JoinShape(b);
    if |a| == 1 {
      FormatIntInjective(a[0], b[0]);
    } else if |a| >= 2 {
      FormatIntHasNoComma(a[0]);
      FormatIntHasNoComma(b[0]);
      FirstField(FormatInt(a[0]), Join(a[1..]), FormatInt(b[0]), Join(b[1..]));
      FormatIntInjective(a[0], b[0]);
      JoinInjective(a[1..], b[1..]);
      assert a == [a[0]] + a[1..] && b == [b[0]] + b[1..];
    }
  }

  lemma LessIsWeak()
    ensures WeakOrder(Less())
  {
  }

  /** Equal signatures exactly when the IDs agree, as multisets and hence as sets. */
  lemma {:induction false} SignatureIdentifiesIds(a: seq<int>, b: seq<int>)
    ensures CliqueSignature(a) == CliqueSignature(b) <==> multiset(a) == multiset(b)
  {
    LessIsWeak();
    if multiset(a) == multiset(b) {
      SortIgnoresOrder(a, b, Less());
    }
    if CliqueSignature(a) == CliqueSignature(b) {
      JoinInjective(Sort(a, Less()), Sort(b, Less()));
      SortIsPermutation(a, Less());
      SortIsPermutation(b, Less());
    }
  }
}
