/** Printing and parsing PostgreSQL text arrays (pkg/pgutil/pgutil.go), byte for byte; the literal
    format is that of section 8.15.6 of the PostgreSQL documentation. */
module PgArray {
  import opened Wrappers
  import opened Utf8

  const QUOTE: Byte := 0x22
  const COMMA: Byte := 0x2C
  const BACKSLASH: Byte := 0x5C
  const OPEN_BRACE: Byte := 0x7B
  const CLOSE_BRACE: Byte := 0x7D

  const NULL_WORD: Bytes := [0x4E, 0x55, 0x4C, 0x4C]

  // ----- Printing -----

  predicate NeedsEscape(rune: int) {
    rune == BACKSLASH as int || rune == QUOTE as int
  }

  function EscapedRune(rune: int): Bytes
    requires 0 <= rune <= 0x10FFFF
  {
    if NeedsEscape(rune) then [BACKSLASH] + Encode(rune) else Encode(rune)
  }

  /** One element's text: a backslash before every backslash and quote, rune by rune. */
  function Escaped(s: Bytes): Bytes
    decreases |s|
  {
    if s == [] then []
    else
      DecodeRange(s);
      var d := Decode(s);
      EscapedRune(d.rune) + Escaped(s[d.size..])
  }

  function Quoted(s: Bytes): Bytes {
    [QUOTE] + Escaped(s) + [QUOTE]
  }

  /** The elements from index i on, with the commas before them. */
  function Listed(elems: seq<Bytes>): Bytes {
    if elems == [] then []
    else if |elems| == 1 then Quoted(elems[0])
    else Listed(elems[..|elems| - 1]) + [COMMA] + Quoted(elems[|elems| - 1])
  }

  function Printed(elems: seq<Bytes>): Bytes {
    [OPEN_BRACE] + Listed(elems) + [CLOSE_BRACE]
  }

  method FormatPgTextArray(elems: seq<Bytes>) returns (out: Bytes)
    ensures out == Printed(elems)
  {
    if |elems| == 0 {
      return [OPEN_BRACE, CLOSE_BRACE];
    }
    out := [OPEN_BRACE];
    for i := 0 to |elems|
      invariant out == [OPEN_BRACE] + Listed(elems[..i])
    {
      assert elems[..i + 1][..i] == elems[..i];
      if i > 0 {
        out := out + [COMMA];
      }
      var quoted := PrintElement(elems[i]);
      out := out + quoted;
    }
    assert elems[..|elems|] == elems;
    out := out + [CLOSE_BRACE];
  }

  method PrintElement(s: Bytes) returns (out: Bytes)
    ensures out == Quoted(s)
  {
    out := [QUOTE];
    var rest := s;
    while rest != []
      invariant out + Escaped(rest) == [QUOTE] + Escaped(s)
      decreases |rest|
    {
      EscapedStep(rest);
      var d := Decode(rest);
      Reassociate(out, EscapedRune(d.rune), Escaped(rest[d.size..]));
      Reassociate(out, [BACKSLASH], Encode(d.rune));
      if NeedsEscape(d.rune) {
        out := out + [BACKSLASH];
      }
      out := out + Encode(d.rune);
      rest := rest[d.size..];
    }
    assert out + [] == out;
    out := out + [QUOTE];
  }

  lemma Reassociate(a: Bytes, b: Bytes, c: Bytes)
    ensures a + (b + c) == a + b + c
  {
  }

  // ----- Parsing -----

  datatype Parser = Parser(res: seq<Bytes>, cur: Bytes, inQuotes: bool, escaped: bool, hasItem: bool)

  function StepParser(p: Parser, ch: Byte): Parser {
    if p.escaped then p.(cur := p.cur + [ch], escaped := false)
    else if ch == BACKSLASH then p.(escaped := true)
    else if ch == QUOTE then p.(inQuotes := !p.inQuotes, hasItem := true)
    else if ch == COMMA && !p.inQuotes then p.(res := p.res + [p.cur], cur := [], hasItem := false)
    else p.(cur := p.cur + [ch], hasItem := true)
  }

  function RunParser(p: Parser, s: Bytes): Parser
    decreases |s|
  {
    if s == [] then p else RunParser(StepParser(p, s[0]), s[1..])
  }

  const START := Parser([], [], false, false, false)

  function Finish(p: Parser): Result<seq<Bytes>> {
    if p.inQuotes || p.escaped then Err
    else if p.hasItem || |p.res| > 0 then Ok(p.res + [p.cur])
    else Ok(p.res)
  }

  method ParseArrayContent(content: Bytes) returns (r: Result<seq<Bytes>>)
    ensures r == Finish(RunParser(START, content))
  {
    if |content| == 0 {
      return Ok([]);
    }
    var res: seq<Bytes>, cur: Bytes := [], [];
    var inQuotes, escaped, hasItem := false, false, false;
    assert content[0..] == content;
    for i := 0 to |content|
      invariant RunParser(Parser(res, cur, inQuotes, escaped, hasItem), content[i..]) == RunParser(START, content)
    {
      var ch := content[i];
      assert content[i..][1..] == content[i + 1..];
      if escaped {
        cur := cur + [ch];
        escaped := false;
        continue;
      }
      if ch == BACKSLASH {
        escaped := true;
        continue;
      }
      if ch == QUOTE {
        inQuotes := !inQuotes;
        hasItem := true;
        continue;
      }
      if ch == COMMA && !inQuotes {
        res := res + [cur];
        cur := [];
        hasItem := false;
        continue;
      }
      cur := cur + [ch];
      hasItem := true;
    }
    if inQuotes || escaped {
      return Err;
    }
    if hasItem || |res| > 0 {
      res := res + [cur];
    }
    return Ok(res);
  }

  /** Scanning a text column; `trim` is strings.TrimSpace on bytes. */
  method ParsePgTextArray(trim: Bytes -> Bytes, src: Bytes) returns (r: Result<seq<Bytes>>)
    ensures r == Parsed(trim, src)
  {
    var str := trim(src);
    if str == [] || str == [OPEN_BRACE, CLOSE_BRACE] || str == NULL_WORD {
      return Ok([]);
    }
    if !(str[0] == OPEN_BRACE && str[|str| - 1] == CLOSE_BRACE) {
      return Err;
    }
    r := ParseArrayContent(str[1..|str| - 1]);
  }

  function Parsed(trim: Bytes -> Bytes, src: Bytes): Result<seq<Bytes>> {
    var str := trim(src);
    if str == [] || str == [OPEN_BRACE, CLOSE_BRACE] || str == NULL_WORD then Ok([])
    else if |str| < 2 || str[0] != OPEN_BRACE || str[|str| - 1] != CLOSE_BRACE then Err
    else Finish(RunParser(START, str[1..|str| - 1]))
  }

  // ----- Parsing undoes printing -----

  lemma {:induction false} RunConcat(p: Parser, a: Bytes, b: Bytes)
    ensures RunParser(p, a + b) == RunParser(RunParser(p, a), b)
    decreases |a|
  {
    if a == [] {
      assert a + b == b;
    } else {
      assert (a + b)[1..] == a[1..] + b;
      RunConcat(StepParser(p, a[0]), a[1..], b);
    }
  }

  /** Bytes that mean nothing special inside quotes are copied. */
  lemma {:induction false} RunLiteral(p: Parser, s: Bytes)
    requires p.inQuotes && !p.escaped && p.hasItem
    requires forall i :: 0 <= i < |s| ==> s[i] != BACKSLASH && s[i] != QUOTE
    ensures RunParser(p, s) == p.(cur := p.cur + s)
    decreases |s|
  {
    if s == [] {
      assert p.cur + s == p.cur;
    } else {
      var p1 := StepParser(p, s[0]);
      RunLiteral(p1, s[1..]);
      assert p.cur + [s[0]] + s[1..] == p.cur + s;
    }
  }

  lemma RunEscapedRune(p: Parser, rune: int)
    requires p.inQuotes && !p.escaped && p.hasItem && 0 <= rune <= 0x10FFFF
    ensures RunParser(p, EscapedRune(rune)) == p.(cur := p.cur + Encode(rune))
  {
    EncodedBytes(rune);
    if NeedsEscape(rune) {
      var b := rune as Byte;
      assert EscapedRune(rune) == [BACKSLASH] + [b];
      RunConcat(p, [BACKSLASH], [b]);
      RunOne(p, BACKSLASH);
      RunOne(p.(escaped := true), b);
    } else {
      RunLiteral(p, Encode(rune));
    }
  }

  lemma EscapedStep(s: Bytes)
    requires s != []
    ensures 0 <= Decode(s).rune <= 0x10FFFF && 1 <= Decode(s).size <= |s|
    ensures Escaped(s) == EscapedRune(Decode(s).rune) + Escaped(s[Decode(s).size..])
    ensures Recode(s) == Encode(Decode(s).rune) + Recode(s[Decode(s).size..])
  {
    DecodeRange(s);
  }

  lemma {:induction false} RunEscaped(p: Parser, s: Bytes)
    requires p.inQuotes && !p.escaped && p.hasItem
    ensures RunParser(p, Escaped(s)) == p.(cur := p.cur + Recode(s))
    decreases |s|
  {
    if s == [] {
      assert p.cur + [] == p.cur;
    } else {
      DecodeRange(s);
      var rune, rest := Decode(s).rune, s[Decode(s).size..];
      var p1 := p.(cur := p.cur + Encode(rune));
      EscapedStep(s);
      calc {
        RunParser(p, Escaped(s));
        { RunConcat(p, EscapedRune(rune), Escaped(rest)); }
        RunParser(RunParser(p, EscapedRune(rune)), Escaped(rest));
        { RunEscapedRune(p, rune); }
        RunParser(p1, Escaped(rest));
        { RunEscaped(p1, rest); }
        p1.(cur := p1.cur + Recode(rest));
        { assert p.cur + Encode(rune) + Recode(rest) == p.cur + (Encode(rune) + Recode(rest)); }
        p.(cur := p.cur + Recode(s));
      }
    }
  }

  lemma RunOne(p: Parser, b: Byte)
    ensures RunParser(p, [b]) == StepParser(p, b)
  {
    assert [b][1..] == [];
  }

  /** A quoted element, at an item boundary, is read as its recoded bytes. */
  lemma RunQuoted(res: seq<Bytes>, s: Bytes, had: bool)
    ensures RunParser(Parser(res, [], false, false, had), Quoted(s)) == Parser(res, Recode(s), false, false, true)
  {
    var p := Parser(res, [], false, false, had);
    var open := Parser(res, [], true, false, true);
    RunConcat(p, [QUOTE] + Escaped(s), [QUOTE]);
    RunConcat(p, [QUOTE], Escaped(s));
    RunOne(p, QUOTE);
    RunEscaped(open, s);
    assert [] + Recode(s) == Recode(s);
    RunOne(open.(cur := Recode(s)), QUOTE);
  }

  function Recoded(elems: seq<Bytes>): seq<Bytes> {
    if elems == [] then [] else Recoded(elems[..|elems| - 1]) + [Recode(elems[|elems| - 1])]
  }

  lemma {:induction false} RunListed(elems: seq<Bytes>)
    requires elems != []
    ensures var n := |elems| - 1;
            RunParser(START, Listed(elems)) == Parser(Recoded(elems[..n]), Recode(elems[n]), false, false, true)
  {
    var n := |elems| - 1;
    if n == 0 {
      RunQuoted([], elems[0], false);
      assert elems[..0] == [];
    } else {
      var front := elems[..n];
      RunListed(front);
      var head := Listed(front) + [COMMA];
      assert Listed(elems) == head + Quoted(elems[n]);
      RunConcat(START, head, Quoted(elems[n]));
      RunConcat(START, Listed(front), [COMMA]);
      var p := RunParser(START, Listed(front));
      RunOne(p, COMMA);
      RunQuoted(Recoded(front), elems[n], false);
    }
  }

  /** strings.TrimSpace leaves alone what starts and ends in a visible ASCII character. */
  ghost predicate TrimsSpaceOnly(trim: Bytes -> Bytes) {
    forall s :: s != [] && 0x21 <= s[0] <= 0x7E && 0x21 <= s[|s| - 1] <= 0x7E ==> trim(s) == s
  }

  lemma PrintedShape(elems: seq<Bytes>)
    ensures var p := Printed(elems);
            && |p| >= 2 && p[0] == OPEN_BRACE && p[|p| - 1] == CLOSE_BRACE && p[1..|p| - 1] == Listed(elems)
            && (p == [OPEN_BRACE, CLOSE_BRACE] <==> elems == [])
            && p != NULL_WORD
  {
    ListedIsEmptyOnlyForNone(elems);
  }

  lemma ListedIsEmptyOnlyForNone(elems: seq<Bytes>)
    ensures Listed(elems) == [] <==> elems == []
  {
  }

  /** Parsing a printed array gives back the elements, with malformed bytes replaced. */
  lemma {:induction false} ParseOfPrint(trim: Bytes -> Bytes, elems: seq<Bytes>)
    requires TrimsSpaceOnly(trim)
    ensures Parsed(trim, Printed(elems)) == Ok(Recoded(elems))
  {
    PrintedShape(elems);
    if elems != [] {
      RunListed(elems);
    }
  }

  // ----- Arrays as PostgreSQL prints them -----

  function Joined(pieces: seq<Bytes>): Bytes {
    if pieces == [] then []
    else if |pieces| == 1 then pieces[0]
    else Joined(pieces[..|pieces| - 1]) + [COMMA] + pieces[|pieces| - 1]
  }

  /** PostgreSQL leaves an element bare if nothing in it needs quoting. */
  ghost predicate IsBare(e: Bytes) {
    e != [] && COMMA !in e && QUOTE !in e && BACKSLASH !in e
  }

  ghost predicate Shows(piece: Bytes, e: Bytes) {
    (IsBare(e) && piece == e) || (Valid(e) && piece == Quoted(e))
  }

  lemma {:induction false} RunBare(p: Parser, e: Bytes)
    requires !p.inQuotes && !p.escaped && COMMA !in e && QUOTE !in e && BACKSLASH !in e
    ensures RunParser(p, e) == p.(cur := p.cur + e, hasItem := p.hasItem || e != [])
    decreases |e|
  {
    if e == [] {
      assert p.cur + e == p.cur;
    } else {
      assert e[0] in e && forall b :: b in e[1..] ==> b in e;
      RunBare(StepParser(p, e[0]), e[1..]);
      assert p.cur + [e[0]] + e[1..] == p.cur + e;
    }
  }

  lemma RunShown(res: seq<Bytes>, piece: Bytes, e: Bytes)
    requires Shows(piece, e)
    ensures RunParser(Parser(res, [], false, false, false), piece) == Parser(res, e, false, false, true)
  {
    if IsBare(e) && piece == e {
      RunBare(Parser(res, [], false, false, false), e);
      assert [] + e == e;
    } else {
      RunQuoted(res, e, false);
      RecodeIsIdentityIff(e);
    }
  }

  lemma {:induction false} RunJoined(pieces: seq<Bytes>, elems: seq<Bytes>)
    requires |pieces| == |elems| > 0 && forall i :: 0 <= i < |elems| ==> Shows(pieces[i], elems[i])
    ensures var n := |elems| - 1;
            RunParser(START, Joined(pieces)) == Parser(elems[..n], elems[n], false, false, true)
  {
    var n := |elems| - 1;
    if n == 0 {
      RunShown([], pieces[0], elems[0]);
    } else {
      var front := pieces[..n];
      RunJoined(front, elems[..n]);
      var head := Joined(front) + [COMMA];
      RunConcat(START, head, pieces[n]);
      RunConcat(START, Joined(front), [COMMA]);
      RunOne(RunParser(START, Joined(front)), COMMA);
      assert elems[..n][..n - 1] + [elems[n - 1]] == elems[..n];
      RunShown(elems[..n], pieces[n], elems[n]);
    }
  }

  /** An array of bare and quoted elements in any mixture is read as its elements: `{a,"b c"}` is a, b c. */
  lemma {:induction false} ShownIsRead(trim: Bytes -> Bytes, pieces: seq<Bytes>, elems: seq<Bytes>)
    requires TrimsSpaceOnly(trim)
    requires |pieces| == |elems| && forall i :: 0 <= i < |elems| ==> Shows(pieces[i], elems[i])
    ensures Parsed(trim, [OPEN_BRACE] + Joined(pieces) + [CLOSE_BRACE]) == Ok(elems)
  {
    BracesAreStripped(trim, Joined(pieces));
    JoinedIsRead(pieces, elems);
  }

  lemma JoinedIsRead(pieces: seq<Bytes>, elems: seq<Bytes>)
    requires |pieces| == |elems| && forall i :: 0 <= i < |elems| ==> Shows(pieces[i], elems[i])
    ensures Finish(RunParser(START, Joined(pieces))) == Ok(elems)
  {
    if elems == [] {
      assert RunParser(START, []) == START;
    } else {
      RunJoined(pieces, elems);
      assert elems[..|elems| - 1] + [elems[|elems| - 1]] == elems;
    }
  }

  lemma BracesAreStripped(trim: Bytes -> Bytes, content: Bytes)
    requires TrimsSpaceOnly(trim)
    ensures Parsed(trim, [OPEN_BRACE] + content + [CLOSE_BRACE]) == Finish(RunParser(START, content))
  {
    var src := [OPEN_BRACE] + content + [CLOSE_BRACE];
    assert src[1..|src| - 1] == content;
    if content == [] {
      assert src == [OPEN_BRACE, CLOSE_BRACE];
    } else {
      assert |src| > 2 && src[0] != NULL_WORD[0];
    }
  }

  lemma {:induction false} RecodedIsIdentityIff(elems: seq<Bytes>)
    ensures |Recoded(elems)| == |elems|
    ensures Recoded(elems) == elems <==> forall i :: 0 <= i < |elems| ==> Valid(elems[i])
  {
    if elems != [] {
      var n := |elems| - 1;
      RecodedIsIdentityIff(elems[..n]);
      RecodeIsIdentityIff(elems[n]);
      LastApart(Recoded(elems[..n]), Recode(elems[n]), elems);
    }
  }

  lemma LastApart(front: seq<Bytes>, last: Bytes, elems: seq<Bytes>)
    requires elems != []
    ensures front + [last] == elems <==> front == elems[..|elems| - 1] && last == elems[|elems| - 1]
  {
    if front + [last] == elems {
      assert elems[|elems| - 1] == last;
    }
  }

  /** So the round trip is the identity exactly on lists of well-formed strings: empty strings, commas,
      braces, quotes, backslashes and the word NULL all survive. */
  lemma {:induction false} RoundTripIff(trim: Bytes -> Bytes, elems: seq<Bytes>)
    requires TrimsSpaceOnly(trim)
    ensures Parsed(trim, Printed(elems)) == Ok(elems) <==> forall i :: 0 <= i < |elems| ==> Valid(elems[i])
  {
    ParseOfPrint(trim, elems);
    RecodedIsIdentityIff(elems);
  }

  /** The byte 0xFF is no UTF-8: it comes back as the replacement character. */
  lemma BrokenByteExample(trim: Bytes -> Bytes)
    requires TrimsSpaceOnly(trim)
    ensures Parsed(trim, Printed([[0xFF]])) != Ok([[0xFF]])
  {
    assert !Valid([[0xFF]][0]);
    RoundTripIff(trim, [[0xFF]]);
  }
}
