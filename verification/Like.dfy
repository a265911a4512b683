/** Escaping user queries for SQL LIKE (services/coven/db.go), against the meaning section 9.7.1 of the
    PostgreSQL documentation gives to LIKE patterns with escape character backslash. */
module Like {
  import opened GoStrings

  predicate Special(c: char) {
    c == '\\' || c == '%' || c == '_'
  }

  /** Three passes, backslash first. */
  function EscapeSqlLike(s: string): string {
    ReplaceAll(ReplaceAll(ReplaceAll(s, "\\", "\\\\"), "%", "\\%"), "_", "\\_")
  }

  /** One pass: a backslash before every special character. */
  function Escape(s: string): string {
    if s == [] then [] else (if Special(s[0]) then ['\\', s[0]] else [s[0]]) + Escape(s[1..])
  }

  /** LIKE: % matches any text, _ any one character, and backslash makes the next character literal. */
  predicate Matches(pattern: string, text: string)
    decreases |pattern| + |text|
  {
    if pattern == [] then text == []
    else if pattern[0] == '%' then
      Matches(pattern[1..], text) || (text != [] && Matches(pattern, text[1..]))
    else if pattern[0] == '_' then text != [] && Matches(pattern[1..], text[1..])
    else if pattern[0] == '\\' then
      |pattern| > 1 && text != [] && text[0] == pattern[1] && Matches(pattern[2..], text[1..])
    else text != [] && text[0] == pattern[0] && Matches(pattern[1..], text[1..])
  }

  // ----- Three passes are one -----

  lemma {:induction false} ReplaceOne(s: string, c: char, to: string)
    requires s != []
    ensures ReplaceAll(s, [c], to) == (if s[0] == c then to else [s[0]]) + ReplaceAll(s[1..], [c], to)
  {
    assert s[..1] == [s[0]];
  }

  lemma {:induction false} ReplaceDistributes(s: string, t: string, c: char, to: string)
    ensures ReplaceAll(s + t, [c], to) == ReplaceAll(s, [c], to) + ReplaceAll(t, [c], to)
    decreases |s|
  {
    if s == [] {
      assert s + t == t;
    } else {
      assert (s + t)[1..] == s[1..] + t;
      ReplaceOne(s + t, c, to);
      ReplaceOne(s, c, to);
      ReplaceDistributes(s[1..], t, c, to);
    }
  }

  lemma ReplaceInShort(s: string, c: char, to: string)
    ensures |s| == 0 ==> ReplaceAll(s, [c], to) == []
    ensures |s| == 1 ==> ReplaceAll(s, [c], to) == if s[0] == c then to else s
    ensures |s| == 2 ==>
      ReplaceAll(s, [c], to) == (if s[0] == c then to else [s[0]]) + (if s[1] == c then to else [s[1]])
  {
    if |s| > 0 {
      ReplaceOne(s, c, to);
      if |s| > 1 {
        ReplaceOne(s[1..], c, to);
      }
    }
  }

  lemma EscapeOneChar(c: char)
    ensures EscapeSqlLike([c]) == if Special(c) then ['\\', c] else [c]
  {
    var s1 := ReplaceAll([c], "\\", "\\\\");
    ReplaceInShort([c], '\\', "\\\\");
    var s2 := ReplaceAll(s1, "%", "\\%");
    ReplaceInShort(s1, '%', "\\%");
    ReplaceInShort(s2, '_', "\\_");
  }

  lemma EscapeDistributes(s: string, t: string)
    ensures EscapeSqlLike(s + t) == EscapeSqlLike(s) + EscapeSqlLike(t)
  {
    ReplaceDistributes(s, t, '\\', "\\\\");
    var s1, t1 := ReplaceAll(s, "\\", "\\\\"), ReplaceAll(t, "\\", "\\\\");
    ReplaceDistributes(s1, t1, '%', "\\%");
    ReplaceDistributes(ReplaceAll(s1, "%", "\\%"), ReplaceAll(t1, "%", "\\%"), '_', "\\_");
  }

  /** The later passes never touch what the earlier ones wrote. */
  lemma {:induction false} ThreePassesAreOne(s: string)
    ensures EscapeSqlLike(s) == Escape(s)
  {
    if s != [] {
      assert s == [s[0]] + s[1..];
      EscapeDistributes([s[0]], s[1..]);
      EscapeOneChar(s[0]);
      ThreePassesAreOne(s[1..]);
    }
  }

  // ----- What the pattern matches -----

  /** An escaped query at the head of a pattern matches itself, literally. */
  lemma {:induction false} EscapedIsLiteral(q: string, rest: string, text: string)
    ensures Matches(Escape(q) + rest, text) <==> q <= text && Matches(rest, text[|q|..])
    decreases |q|
  {
    if q == [] {
      assert Escape(q) + rest == rest && text[0..] == text;
    } else {
      var pattern := Escape(q) + rest;
      var tail := Escape(q[1..]) + rest;
      if Special(q[0]) {
        assert pattern[0] == '\\' && pattern[1] == q[0] && pattern[2..] == tail;
      } else {
        assert pattern[0] == q[0] && pattern[1..] == tail;
      }
      if text != [] {
        EscapedIsLiteral(q[1..], rest, text[1..]);
        assert q[0] == text[0] && q[1..] <= text[1..] <==> q <= text;
        if q <= text {
          assert text[1..][|q| - 1..] == text[|q|..];
        }
      }
    }
  }

  lemma {:induction false} TrailingPercent(text: string)
    ensures Matches("%", text)
  {
    if text != [] {
      TrailingPercent(text[1..]);
    } else {
      assert "%"[1..] == [];
    }
  }

  lemma {:induction false} LeadingPercent(pattern: string, text: string)
    ensures Matches(['%'] + pattern, text) <==> exists k :: 0 <= k <= |text| && Matches(pattern, text[k..])
    decreases |text|
  {
    var p := ['%'] + pattern;
    assert p[1..] == pattern && text[0..] == text;
    if text != [] {
      LeadingPercent(pattern, text[1..]);
      assert forall k :: 1 <= k <= |text| ==> text[k..] == text[1..][k - 1..];
    }
    if exists k :: 0 <= k <= |text| && Matches(pattern, text[k..]) {
      var k :| 0 <= k <= |text| && Matches(pattern, text[k..]);
      if k > 0 {
        assert text[k..] == text[1..][k - 1..];
      }
    }
  }

  /** The pattern built from a query matches a text exactly when the query occurs in it. */
  lemma {:induction false} PatternMatchesIffContains(q: string, text: string)
    ensures Matches("%" + EscapeSqlLike(q) + "%", text) <==> Contains(text, q)
  {
    ThreePassesAreOne(q);
    var pattern := Escape(q) + "%";
    assert "%" + EscapeSqlLike(q) + "%" == ['%'] + pattern;
    LeadingPercent(pattern, text);
    forall k | 0 <= k <= |text|
      ensures Matches(pattern, text[k..]) <==> OccursAt(text, q, k)
    {
      EscapedIsLiteral(q, "%", text[k..]);
      if q <= text[k..] {
        TrailingPercent(text[k..][|q|..]);
        assert text[k..][..|q|] == text[k..k + |q|];
      }
      if OccursAt(text, q, k) {
        assert text[k..][..|q|] == text[k..k + |q|];
      }
    }
  }

  // ----- LOWER on both sides -----

  function Lower(lower: char -> char, s: string): string {
    seq(|s|, i requires 0 <= i < |s| => lower(s[i]))
  }

  /** Lowering leaves the special characters alone and makes no others special. */
  ghost predicate KeepsSpecials(lower: char -> char) {
    forall c :: (Special(c) ==> lower(c) == c) && (Special(lower(c)) ==> Special(c))
  }

  lemma {:induction false} LowerEscape(lower: char -> char, s: string)
    requires KeepsSpecials(lower)
    ensures Lower(lower, Escape(s)) == Escape(Lower(lower, s))
  {
    if s != [] {
      LowerEscape(lower, s[1..]);
      assert Lower(lower, s)[1..] == Lower(lower, s[1..]);
      assert Lower(lower, s)[0] == lower(s[0]);
      var head := if Special(s[0]) then ['\\', s[0]] else [s[0]];
      assert Lower(lower, head + Escape(s[1..])) == Lower(lower, head) + Lower(lower, Escape(s[1..]));
      assert lower('\\') == '\\';
    }
  }

  /** The search compares case-insensitively: LOWER(text) LIKE LOWER(pattern) holds exactly when the
      lowered query occurs in the lowered text. */
  lemma {:induction false} SearchFindsSubstrings(lower: char -> char, q: string, text: string)
    requires KeepsSpecials(lower)
    ensures Matches(Lower(lower, "%" + EscapeSqlLike(q) + "%"), Lower(lower, text)) <==>
            Contains(Lower(lower, text), Lower(lower, q))
  {
    ThreePassesAreOne(q);
    ThreePassesAreOne(Lower(lower, q));
    LowerEscape(lower, q);
    assert lower('%') == '%';
    assert Lower(lower, "%" + Escape(q) + "%") == "%" + Escape(Lower(lower, q)) + "%";
    PatternMatchesIffContains(Lower(lower, q), Lower(lower, text));
  }
}
