/** Redaction of registered secrets (pkg/sanitizer/sanitizer.go): the token pool and the
    literal replacement loop that runs before the pattern-based rules. */
module Sanitizer {
  import opened GoStrings
  import opened Sorting

  const MIN_TOKEN_BYTES := 4

  // ----- The pool -----

  /** Bytes of one code point in UTF-8. */
  function CharBytes(c: char): nat {
    var n := c as int;
    if n < 0x80 then 1 else if n < 0x800 then 2 else if n < 0x10000 then 3 else 4
  }

  /** len(s). */
  function ByteLen(s: string): nat {
    if s == [] then 0 else CharBytes(s[0]) + ByteLen(s[1..])
  }

  function LongerFirst(): (string, string) -> bool {
    (a: string, b: string) => ByteLen(a) > ByteLen(b)
  }

  predicate Eligible(token: string) {
    ByteLen(TrimSpace(token)) >= MIN_TOKEN_BYTES
  }

  ghost predicate NoDuplicates(s: seq<string>) {
    forall i, j :: 0 <= i < j < |s| ==> s[i] != s[j]
  }

  /** The pool after a history of registered tokens: exactly the trimmed tokens of at least four
      bytes, each once, longest first. */
  ghost predicate IsPoolOf(pool: seq<string>, registered: seq<string>) {
    && IsCollected(pool, registered, |registered|)
    && NoDuplicates(pool)
    && Sorted(pool, LongerFirst())
  }

  lemma {:induction false} DuplicatesAfterSort(s: seq<string>)
    requires NoDuplicates(s)
    ensures NoDuplicates(Sort(s, LongerFirst()))
  {
    var r := Sort(s, LongerFirst());
    SortIsPermutation(s, LongerFirst());
    SameElements(s, r);
    forall i, j | 0 <= i < j < |r|
      ensures r[i] != r[j]
    {
      assert r[i] in s;
      var p :| 0 <= p < |s| && s[p] == r[i];
      CountsOnce(s, p);
      if r[i] == r[j] {
        RepeatedCountsTwice(r, i, j);
      }
    }
  }

  lemma CountsOnce(s: seq<string>, p: nat)
    requires NoDuplicates(s) && p < |s|
    ensures multiset(s)[s[p]] == 1
  {
    var before, after := s[..p], s[p + 1..];
    assert s == before + [s[p]] + after;
    assert s[p] !in before && s[p] !in after;
    assert multiset(before)[s[p]] == 0 && multiset(after)[s[p]] == 0;
  }

  class Pool {
    var tokens: seq<string>
    ghost var registered: seq<string>

    ghost predicate Valid()
      reads this
    {
      IsPoolOf(tokens, registered)
    }

    constructor ()
      ensures Valid() && registered == []
    {
      tokens, registered := [], [];
    }

    /** Copies the pool, appends what is new and long enough, sorts and swaps. */
    method RegisterSensitiveTokens(more: seq<string>)
      requires Valid()
      modifies this
      ensures Valid() && registered == old(registered) + more
    {
      var updated := tokens;
      var seen := set t | t in tokens;
      ghost var all := registered + more;
      CollectedPrefix(tokens, registered, more);
      for n := 0 to |more|
        invariant tokens == old(tokens) && registered == old(registered)
        invariant forall t :: t in seen <==> t in updated
        invariant NoDuplicates(updated)
        invariant IsCollected(updated, all, |registered| + n)
      {
        assert all[|registered| + n] == more[n];
        var trimmed := TrimSpace(more[n]);
        CollectedStep(updated, all, |registered| + n);
        if ByteLen(trimmed) >= MIN_TOKEN_BYTES && trimmed !in seen {
          seen := seen + {trimmed};
          updated := updated + [trimmed];
        }
      }
      SortKeepsElements(updated, LongerFirst());
      assert |registered| + |more| == |all|;
      SortIsSorted(updated, LongerFirst());
      DuplicatesAfterSort(updated);
      tokens := Sort(updated, LongerFirst());
      registered := all;
    }
  }

  /** The members are the eligible tokens among the first n, trimmed. */
  ghost predicate IsCollected(tokens: seq<string>, all: seq<string>, n: nat)
    requires n <= |all|
  {
    && (forall t :: t in tokens ==> exists k :: 0 <= k < n && Eligible(all[k]) && TrimSpace(all[k]) == t)
    && (forall k :: 0 <= k < n && Eligible(all[k]) ==> TrimSpace(all[k]) in tokens)
  }

  lemma CollectedPrefix(tokens: seq<string>, registered: seq<string>, more: seq<string>)
    requires IsCollected(tokens, registered, |registered|)
    ensures IsCollected(tokens, registered + more, |registered|)
  {
    var all := registered + more;
    forall t | t in tokens
      ensures exists k :: 0 <= k < |registered| && Eligible(all[k]) && TrimSpace(all[k]) == t
    {
      var k :| 0 <= k < |registered| && Eligible(registered[k]) && TrimSpace(registered[k]) == t;
      assert all[k] == registered[k];
    }
  }

  lemma CollectedStep(tokens: seq<string>, all: seq<string>, n: nat)
    requires n < |all| && IsCollected(tokens, all, n)
    ensures var t := TrimSpace(all[n]);
            && (Eligible(all[n]) ==> IsCollected(tokens + [t], all, n + 1))
            && (!Eligible(all[n]) || t in tokens ==> IsCollected(tokens, all, n + 1))
  {
    forall t | t in tokens
      ensures exists k :: 0 <= k < n + 1 && Eligible(all[k]) && TrimSpace(all[k]) == t
    {
      var k :| 0 <= k < n && Eligible(all[k]) && TrimSpace(all[k]) == t;
      assert 0 <= k < n + 1;
    }
  }

  // ----- Redaction -----

  predicate BracketFree(token: string) {
    '[' !in token && ']' !in token
  }

  /** A placeholder is a bracketed word: "[REDACTED]" or "[REDACTED_TOKEN]". */
  ghost predicate IsPlaceholder(p: string, word: string) {
    p == "[" + word + "]" && BracketFree(word)
  }

  ghost predicate NonEmpty(tokens: seq<string>) {
    forall i :: 0 <= i < |tokens| ==> tokens[i] != []
  }

  function Redact(tokens: seq<string>, input: string, placeholder: string): string
    requires NonEmpty(tokens)
    decreases |tokens|
  {
    if tokens == [] then input
    else Redact(tokens[1..], ReplaceAll(input, tokens[0], placeholder), placeholder)
  }

  /** The loop replaces a token only where it occurs, which makes no difference. */
  method RedactRegistered(tokens: seq<string>, input: string, placeholder: string) returns (out: string)
    requires NonEmpty(tokens)
    ensures out == Redact(tokens, input, placeholder)
  {
    out := input;
    var rest := tokens;
    while rest != []
      invariant NonEmpty(rest)
      invariant Redact(rest, out, placeholder) == Redact(tokens, input, placeholder)
      decreases |rest|
    {
      var present := IndexOf(out, rest[0]);
      if present {
        out := ReplaceAll(out, rest[0], placeholder);
      } else {
        NothingToReplace(out, rest[0], placeholder);
      }
      rest := rest[1..];
    }
  }

  /** strings.Contains. */
  method IndexOf(s: string, sub: string) returns (found: bool)
    ensures found <==> Contains(s, sub)
  {
    found := false;
    var i := 0;
    while i + |sub| <= |s|
      invariant 0 <= i
      invariant forall k :: 0 <= k < i ==> !OccursAt(s, sub, k)
    {
      if s[i..i + |sub|] == sub {
        assert OccursAt(s, sub, i);
        return true;
      }
      i := i + 1;
    }
  }

  lemma {:induction false} NothingToReplace(s: string, from: string, to: string)
    requires from != [] && !Contains(s, from)
    ensures ReplaceAll(s, from, to) == s
    decreases |s|
  {
    if |s| >= |from| {
      assert !OccursAt(s, from, 0);
      forall i
        ensures !OccursAt(s[1..], from, i)
      {
        assert !OccursAt(s, from, i + 1);
        assert i >= 0 && i + |from| <= |s[1..]| ==> s[1..][i..i + |from|] == s[i + 1..i + 1 + |from|];
      }
      NothingToReplace(s[1..], from, to);
    }
  }

  // ----- The rest of the text is kept -----

  function Join(parts: seq<string>, sep: string): string
    requires parts != []
  {
    if |parts| == 1 then parts[0] else parts[0] + sep + Join(parts[1..], sep)
  }

  lemma HeadGrows(c: char, parts: seq<string>, sep: string)
    requires parts != []
    ensures Join([[c] + parts[0]] + parts[1..], sep) == [c] + Join(parts, sep)
  {
    var longer := [[c] + parts[0]] + parts[1..];
    if |parts| > 1 {
      assert longer[1..] == parts[1..];
      assert [c] + parts[0] + sep + Join(parts[1..], sep) == [c] + (parts[0] + sep + Join(parts[1..], sep));
    }
  }

  lemma HeadStaysFree(c: char, part: string, from: string, s: string)
    requires !Contains(part, from) && [c] + part <= s && from != [] && !(from <= s)
    ensures !Contains([c] + part, from)
  {
    var longer := [c] + part;
    forall i
      ensures !OccursAt(longer, from, i)
    {
      if i > 0 {
        assert !OccursAt(part, from, i - 1);
        assert i + |from| <= |longer| ==> longer[i..i + |from|] == part[i - 1..i - 1 + |from|];
      } else if i == 0 && |from| <= |longer| {
        assert longer[..|from|] == s[..|from|];
      }
    }
  }

  /** Replacing changes nothing but the occurrences: the text between them, which has none, is kept. */
  lemma {:induction false} ReplaceKeepsTheRest(s: string, from: string, to: string) returns (parts: seq<string>)
    requires from != []
    ensures parts != [] && Join(parts, from) == s && Join(parts, to) == ReplaceAll(s, from, to)
    ensures forall i :: 0 <= i < |parts| ==> !Contains(parts[i], from)
    decreases |s|
  {
    if |s| < |from| {
      parts := [s];
    } else if s[..|from|] == from {
      var rest := ReplaceKeepsTheRest(s[|from|..], from, to);
      parts := [""] + rest;
      assert parts[1..] == rest;
      assert s == from + s[|from|..];
    } else {
      var rest := ReplaceKeepsTheRest(s[1..], from, to);
      parts := [[s[0]] + rest[0]] + rest[1..];
      HeadGrows(s[0], rest, from);
      HeadGrows(s[0], rest, to);
      assert s == [s[0]] + s[1..];
      PartIsPrefix(rest, from);
      HeadStaysFree(s[0], rest[0], from, s);
    }
  }

  lemma PartIsPrefix(parts: seq<string>, sep: string)
    requires parts != []
    ensures parts[0] <= Join(parts, sep)
  {
  }

  /** A text without secrets passes unchanged. */
  lemma {:induction false} CleanInputIsKept(tokens: seq<string>, input: string, p: string)
    requires NonEmpty(tokens) && forall i :: 0 <= i < |tokens| ==> !Contains(input, tokens[i])
    ensures Redact(tokens, input, p) == input
    decreases |tokens|
  {
    if tokens != [] {
      NothingToReplace(input, tokens[0], p);
      CleanInputIsKept(tokens[1..], input, p);
    }
  }

  lemma {:induction false} ByteLenAdds(a: string, b: string)
    ensures ByteLen(a + b) == ByteLen(a) + ByteLen(b)
    ensures a != [] ==> ByteLen(a) > 0
  {
    if a == [] {
      assert a + b == b;
    } else {
      assert (a + b)[1..] == a[1..] + b;
      ByteLenAdds(a[1..], b);
    }
  }

  lemma PartIsShorter(s: string, part: string)
    requires Contains(s, part) && part != s
    ensures ByteLen(part) < ByteLen(s)
  {
    var i :| OccursAt(s, part, i);
    var before, after := s[..i], s[i + |part|..];
    assert s == before + part + after;
    ByteLenAdds(before + part, after);
    ByteLenAdds(before, part);
    ByteLenAdds(after, "");
    assert before == [] && after == [] ==> s == part;
  }

  /** A registered secret becomes the placeholder as a whole: longest first, no shorter token of the pool gets
      at it before. */
  lemma {:induction false} SecretBecomesPlaceholder(tokens: seq<string>, k: nat, p: string)
    requires NonEmpty(tokens) && NoDuplicates(tokens) && Sorted(tokens, LongerFirst()) && k < |tokens|
    requires forall j :: k < j < |tokens| ==> !Contains(p, tokens[j])
    ensures Redact(tokens, tokens[k], p) == p
    decreases |tokens|
  {
    var t, rest := tokens[k], tokens[1..];
    if k == 0 {
      assert t[|t|..] == [] && t[..|t|] == t;
      assert ReplaceAll([], t, p) == [];
      assert ReplaceAll(t, t, p) == p + [] == p;
      CleanInputIsKept(rest, p, p);
    } else {
      assert !LongerFirst()(t, tokens[0]);
      if Contains(t, tokens[0]) {
        PartIsShorter(t, tokens[0]);
      }
      NothingToReplace(t, tokens[0], p);
      assert rest[k - 1] == t;
      SecretBecomesPlaceholder(rest, k - 1, p);
    }
  }

  // ----- No registered token survives -----

  /** A bracket-free text at the head of the result was at the head of the input. */
  lemma {:induction false} HeadIsOriginal(s: string, from: string, p: string, u: string)
    requires from != [] && p != [] && p[0] == '[' && '[' !in u
    requires u <= ReplaceAll(s, from, p)
    ensures u <= s
    decreases |s|
  {
    if u != [] && |s| >= |from| {
      assert u[0] == ReplaceAll(s, from, p)[0];
      assert u[0] in u;
      if s[..|from|] != from {
        var r := ReplaceAll(s[1..], from, p);
        assert u[1..] <= r;
        HeadIsOriginal(s[1..], from, p, u[1..]);
      }
    }
  }

  /** A bracket-free text in the result was in the input or is part of the placeholder. */
  lemma {:induction false} OccurrenceIsOriginal(s: string, from: string, word: string, p: string, u: string, i: int)
    requires from != [] && u != [] && BracketFree(u) && IsPlaceholder(p, word)
    requires OccursAt(ReplaceAll(s, from, p), u, i)
    ensures Contains(s, u) || Contains(word, u)
    decreases |s|
  {
    var r := ReplaceAll(s, from, p);
    if |s| >= |from| {
      if s[..|from|] == from {
        var rest := ReplaceAll(s[|from|..], from, p);
        if i >= |p| {
          assert rest[i - |p|..i - |p| + |u|] == r[i..i + |u|];
          OccurrenceIsOriginal(s[|from|..], from, word, p, u, i - |p|);
          if Contains(s[|from|..], u) {
            assert s == s[..|from|] + s[|from|..] + [];
            ContainsPart(s[..|from|], s[|from|..], [], u);
          }
        } else {
          InsidePlaceholder(r, word, p, u, i);
        }
      } else {
        if i == 0 {
          assert u <= r;
          HeadIsOriginal(s, from, p, u);
          assert OccursAt(s, u, 0);
        } else {
          var rest := ReplaceAll(s[1..], from, p);
          assert rest[i - 1..i - 1 + |u|] == r[i..i + |u|];
          OccurrenceIsOriginal(s[1..], from, word, p, u, i - 1);
          if Contains(s[1..], u) {
            assert s == [s[0]] + s[1..] + [];
            ContainsPart([s[0]], s[1..], [], u);
          }
        }
      }
    }
  }

  /** A bracket-free occurrence that starts inside the placeholder lies within its word. */
  lemma InsidePlaceholder(r: string, word: string, p: string, u: string, i: int)
    requires IsPlaceholder(p, word) && p <= r && u != [] && BracketFree(u) && OccursAt(r, u, i) && i < |p|
    ensures Contains(word, u)
  {
    assert r[0] == '[' && r[|p| - 1] == ']';
    forall m | i <= m < i + |u|
      ensures r[m] != '[' && r[m] != ']'
    {
      assert r[m] == u[m - i] && u[m - i] in u;
    }
    assert i > 0;
    assert i + |u| <= |p| - 1;
    assert word[i - 1..i - 1 + |u|] == r[i..i + |u|];
    assert OccursAt(word, u, i - 1);
  }

  /** A token found again after it was replaced can only be part of the placeholder's word. */
  lemma {:induction false} ReplacedTokenIsGone(s: string, from: string, word: string, p: string, i: int)
    requires from != [] && BracketFree(from) && IsPlaceholder(p, word)
    requires OccursAt(ReplaceAll(s, from, p), from, i)
    ensures Contains(word, from)
    decreases |s|
  {
    var r := ReplaceAll(s, from, p);
    assert |s| < |from| ==> r == s;
    if s[..|from|] == from {
      if i >= |p| {
        var rest := ReplaceAll(s[|from|..], from, p);
        assert rest[i - |p|..i - |p| + |from|] == r[i..i + |from|];
        ReplacedTokenIsGone(s[|from|..], from, word, p, i - |p|);
      } else {
        InsidePlaceholder(r, word, p, from, i);
      }
    } else {
      assert i > 0 by {
        if i == 0 {
          HeadIsOriginal(s, from, p, from);
        }
      }
      var rest := ReplaceAll(s[1..], from, p);
      assert rest[i - 1..i - 1 + |from|] == r[i..i + |from|];
      ReplacedTokenIsGone(s[1..], from, word, p, i - 1);
    }
  }

  lemma AppearsOnlyIf(s: string, from: string, word: string, p: string, u: string)
    requires from != [] && u != [] && BracketFree(u) && IsPlaceholder(p, word)
    ensures Contains(ReplaceAll(s, from, p), u) ==> Contains(s, u) || Contains(word, u)
    ensures u == from && Contains(ReplaceAll(s, from, p), u) ==> Contains(word, u)
  {
    if Contains(ReplaceAll(s, from, p), u) {
      var i :| OccursAt(ReplaceAll(s, from, p), u, i);
      OccurrenceIsOriginal(s, from, word, p, u, i);
      if u == from {
        ReplacedTokenIsGone(s, from, word, p, i);
      }
    }
  }

  /** What is absent stays absent through the rest of the loop. */
  lemma {:induction false} AbsentStaysAbsent(tokens: seq<string>, input: string, word: string, p: string, u: string)
    requires NonEmpty(tokens) && IsPlaceholder(p, word) && u != [] && BracketFree(u)
    requires !Contains(input, u) && !Contains(word, u)
    ensures !Contains(Redact(tokens, input, p), u)
    decreases |tokens|
  {
    if tokens != [] {
      var out := ReplaceAll(input, tokens[0], p);
      AppearsOnlyIf(input, tokens[0], word, p, u);
      AbsentStaysAbsent(tokens[1..], out, word, p, u);
    }
  }

  /** A bracket-free token outside the placeholder's word does not survive, whatever else is in the pool. */
  lemma {:induction false} NoTokenSurvives(tokens: seq<string>, input: string, word: string, p: string, k: nat)
    requires NonEmpty(tokens) && IsPlaceholder(p, word)
    requires k < |tokens| && BracketFree(tokens[k]) && !Contains(word, tokens[k])
    ensures !Contains(Redact(tokens, input, p), tokens[k])
    decreases |tokens|
  {
    var out := ReplaceAll(input, tokens[0], p);
    if k == 0 {
      AppearsOnlyIf(input, tokens[0], word, p, tokens[0]);
      AbsentStaysAbsent(tokens[1..], out, word, p, tokens[0]);
    } else {
      NoTokenSurvives(tokens[1..], out, word, p, k - 1);
    }
  }

  /** Once written, the placeholder stays. */
  lemma {:induction false} ReplacementIsVisible(s: string, from: string, to: string, i: int)
    requires from != [] && OccursAt(s, from, i)
    ensures Contains(ReplaceAll(s, from, to), to)
    decreases |s|
  {
    var r := ReplaceAll(s, from, to);
    if s[..|from|] == from {
      assert r[0..|to|] == to;
      assert OccursAt(r, to, 0);
    } else {
      assert i > 0;
      assert s[1..][i - 1..i - 1 + |from|] == s[i..i + |from|];
      ReplacementIsVisible(s[1..], from, to, i - 1);
      var rest := ReplaceAll(s[1..], from, to);
      assert r == [s[0]] + rest + [];
      ContainsPart([s[0]], rest, [], to);
    }
  }

  lemma {:induction false} PlaceholderStays(tokens: seq<string>, input: string, p: string)
    requires NonEmpty(tokens) && Contains(input, p)
    ensures Contains(Redact(tokens, input, p), p)
    decreases |tokens|
  {
    if tokens != [] {
      if Contains(input, tokens[0]) {
        var i :| OccursAt(input, tokens[0], i);
        ReplacementIsVisible(input, tokens[0], p, i);
      } else {
        NothingToReplace(input, tokens[0], p);
      }
      PlaceholderStays(tokens[1..], ReplaceAll(input, tokens[0], p), p);
    }
  }

  /** Sanitising a registered token itself leaves the placeholder in the output. */
  lemma {:induction false} TokenBecomesPlaceholder(tokens: seq<string>, k: nat, p: string)
    requires NonEmpty(tokens) && k < |tokens|
    ensures Contains(Redact(tokens, tokens[k], p), p)
    decreases |tokens|
  {
    var t := tokens[k];
    if Contains(t, tokens[0]) {
      var i :| OccursAt(t, tokens[0], i);
      ReplacementIsVisible(t, tokens[0], p, i);
      PlaceholderStays(tokens[1..], ReplaceAll(t, tokens[0], p), p);
    } else {
      NothingToReplace(t, tokens[0], p);
      assert k > 0 by {
        assert k == 0 ==> OccursAt(t, tokens[0], 0);
      }
      TokenBecomesPlaceholder(tokens[1..], k - 1, p);
    }
  }

  ghost predicate Leaks(tokens: seq<string>, p: string, input: string, t: string)
    requires NonEmpty(tokens)
  {
    t in tokens && Contains(Redact(tokens, input, p), t)
  }

  /** A bracket-free token of any pool can leak exactly when it is part of the word inside the placeholder. */
  lemma {:induction false} TokenLeaksIff(tokens: seq<string>, word: string, p: string, k: nat)
    requires NonEmpty(tokens) && IsPlaceholder(p, word) && k < |tokens| && BracketFree(tokens[k])
    ensures (exists input :: Leaks(tokens, p, input, tokens[k])) <==> Contains(word, tokens[k])
  {
    var t := tokens[k];
    if input :| Leaks(tokens, p, input, t) {
      if !Contains(word, t) {
        NoTokenSurvives(tokens, input, word, p, k);
      }
    }
    if Contains(word, t) {
      TokenBecomesPlaceholder(tokens, k, p);
      ContainsPart("[", word, "]", t);
      ContainsTransitive(Redact(tokens, t, p), p, t);
      assert Leaks(tokens, p, t, t);
    }
  }

  /** So redaction hides every bracket-free token of a pool, on every input, exactly when none of them is
      part of that word. */
  lemma {:induction false} RedactionIsCompleteIff(tokens: seq<string>, word: string, p: string)
    requires NonEmpty(tokens) && IsPlaceholder(p, word)
    ensures (exists input, t :: BracketFree(t) && Leaks(tokens, p, input, t)) <==>
            (exists t :: t in tokens && BracketFree(t) && Contains(word, t))
  {
    if input, t :| BracketFree(t) && Leaks(tokens, p, input, t) {
      var k :| 0 <= k < |tokens| && tokens[k] == t;
      TokenLeaksIff(tokens, word, p, k);
    }
    if t :| t in tokens && BracketFree(t) && Contains(word, t) {
      var k :| 0 <= k < |tokens| && tokens[k] == t;
      TokenLeaksIff(tokens, word, p, k);
    }
  }
}
