/** Clone tokens of a function body (scripts/code-health/main.go): a callback-driven walk of the syntax
    tree that keeps a stack of open nodes and brackets every block. */
module CloneTokens {

  datatype Kind =
    | Block | If(hasElse: bool) | For | Range | Switch | Case | Select | Comm | Return | Defer
    | CallSelector(name: string) | CallIdent(name: string) | Other

  datatype Node = Node(kind: Kind, children: Nodes)
  datatype Nodes = Nil | Cons(head: Node, tail: Nodes)

  /** A clone token: a scope brace or a word such as `if` or `call:f`. */
  datatype Token = Open | Close | Word(text: string)

  /** The token as the string it is compared by. */
  function Text(t: Token): string {
    match t
    case Open => "{"
    case Close => "}"
    case Word(text) => text
  }

  /** The calls that ast.Inspect makes: one on entry to a node and one, with nil, after its children. */
  datatype Visit = Enter(kind: Kind) | Leave

  function Visits(n: Node): seq<Visit> {
    [Enter(n.kind)] + AllVisits(n.children) + [Leave]
  }

  function AllVisits(ns: Nodes): seq<Visit> {
    match ns
    case Nil => []
    case Cons(n, rest) => Visits(n) + AllVisits(rest)
  }

  /** appendNodeCloneTokens. */
  function Own(builtin: string -> bool, kind: Kind): seq<Token> {
    match kind
    case If(hasElse) => if hasElse then [Word("if"), Word("else")] else [Word("if")]
    case For => [Word("for")]
    case Range => [Word("range")]
    case Switch => [Word("switch")]
    case Case => [Word("case")]
    case Select => [Word("select")]
    case Comm => [Word("comm")]
    case Return => [Word("return")]
    case Defer => [Word("defer")]
    case CallSelector(name) => [Word("call:." + name)]
    case CallIdent(name) => if builtin(name) then [] else [Word("call:" + name)]
    case Block => []
    case Other => []
  }

  /** The node's own tokens are words, and no word reads like a brace. */
  lemma OwnAreWords(builtin: string -> bool, kind: Kind)
    ensures forall t :: t in Own(builtin, kind) ==> t.Word? && Text(t) != Text(Open) && Text(t) != Text(Close)
  {
    forall t | t in Own(builtin, kind)
      ensures t.Word? && |Text(t)| >= 2
    {
    }
  }

  /** What a node contributes tells what it is: two kinds with the same words are the same, apart from a
      plain call whose name starts with the selector's dot. */
  lemma OwnTellsKindsApart(builtin: string -> bool, k1: Kind, k2: Kind)
    requires Own(builtin, k1) == Own(builtin, k2) != []
    ensures k1 == k2
            || (k1.CallSelector? && k2 == CallIdent("." + k1.name))
            || (k2.CallSelector? && k1 == CallIdent("." + k2.name))
  {
    var w := Own(builtin, k1)[0].text;
    assert Own(builtin, k2)[0].text == w;
    WordOfCall(builtin, k1, w);
    WordOfCall(builtin, k2, w);
    if k1.CallSelector? && k2.CallSelector? {
      assert w[6..] == k1.name;
    } else if k1.CallIdent? && k2.CallIdent? {
      assert w[5..] == k1.name;
    } else if k1.CallSelector? && k2.CallIdent? {
      assert k2.name == w[5..] == "." + k1.name;
    } else if k1.CallIdent? && k2.CallSelector? {
      assert k1.name == w[5..] == "." + k2.name;
    }
  }

  lemma WordOfCall(builtin: string -> bool, kind: Kind, w: string)
    requires Own(builtin, kind) != [] && Own(builtin, kind)[0].text == w
    ensures |w| > 4 && w[4] == ':' <==> kind.CallSelector? || kind.CallIdent?
    ensures kind.CallSelector? ==> |w| >= 6 && w[5..] == "." + kind.name && w[6..] == kind.name
    ensures kind.CallIdent? ==> |w| >= 5 && w[5..] == kind.name
  {
    if kind.CallSelector? {
      assert w == "call:." + kind.name;
    } else if kind.CallIdent? {
      assert w == "call:" + kind.name;
    }
  }

  // ----- What the tokens mean -----

  /** A body as nested scopes. */
  datatype Item = Tok(token: Token) | Scope(items: Items)
  datatype Items = Empty | More(item: Item, rest: Items)

  function Append(a: Items, b: Items): Items {
    match a
    case Empty => b
    case More(x, rest) => More(x, Append(rest, b))
  }

  function Toks(s: seq<Token>): Items {
    if s == [] then Empty else More(Tok(s[0]), Toks(s[1..]))
  }

  function Outline(builtin: string -> bool, n: Node): Items {
    var inner := Append(Toks(Own(builtin, n.kind)), AllOutlines(builtin, n.children));
    if n.kind.Block? then More(Scope(inner), Empty) else inner
  }

  function AllOutlines(builtin: string -> bool, ns: Nodes): Items {
    match ns
    case Nil => Empty
    case Cons(n, rest) => Append(Outline(builtin, n), AllOutlines(builtin, rest))
  }

  function Print(items: Items): seq<Token> {
    match items
    case Empty => []
    case More(Tok(t), rest) => [t] + Print(rest)
    case More(Scope(inner), rest) => [Open] + Print(inner) + [Close] + Print(rest)
  }

  function Erase(items: Items): seq<Token> {
    match items
    case Empty => []
    case More(Tok(t), rest) => [t] + Erase(rest)
    case More(Scope(inner), rest) => Erase(inner) + Erase(rest)
  }

  lemma {:induction false} AppendParts(a: Items, b: Items)
    ensures Print(Append(a, b)) == Print(a) + Print(b)
    ensures Erase(Append(a, b)) == Erase(a) + Erase(b)
  {
    match a
    case Empty =>
    case More(_, rest) => AppendParts(rest, b);
  }

  lemma {:induction false} ToksArePlain(s: seq<Token>)
    ensures Print(Toks(s)) == s && Erase(Toks(s)) == s
  {
    if s != [] {
      ToksArePlain(s[1..]);
    }
  }

  // ----- The two walks -----

  /** One callback of buildScopedCloneTokens. */
  datatype Walk = Walk(tokens: seq<Token>, stack: seq<bool>)

  function Step(builtin: string -> bool, w: Walk, v: Visit): Walk {
    match v
    case Enter(kind) =>
      Walk(w.tokens + (if kind.Block? then [Open] else []) + Own(builtin, kind), w.stack + [kind.Block?])
    case Leave =>
      if w.stack == [] then w
      else Walk(w.tokens + (if w.stack[|w.stack| - 1] then [Close] else []), w.stack[..|w.stack| - 1])
  }

  function Run(builtin: string -> bool, w: Walk, vs: seq<Visit>): Walk
    decreases |vs|
  {
    if vs == [] then w else Run(builtin, Step(builtin, w, vs[0]), vs[1..])
  }

  lemma {:induction false} RunAppend(builtin: string -> bool, w: Walk, a: seq<Visit>, b: seq<Visit>)
    ensures Run(builtin, w, a + b) == Run(builtin, Run(builtin, w, a), b)
    decreases |a|
  {
    if a == [] {
      assert a + b == b;
    } else {
      assert (a + b)[1..] == a[1..] + b;
      RunAppend(builtin, Step(builtin, w, a[0]), a[1..], b);
    }
  }

  lemma RunOne(builtin: string -> bool, w: Walk, v: Visit)
    ensures Run(builtin, w, [v]) == Step(builtin, w, v)
  {
    assert [v][1..] == [];
  }

  lemma LeaveCloses(builtin: string -> bool, tokens: seq<Token>, stack: seq<bool>, isBlock: bool)
    ensures Step(builtin, Walk(tokens, stack + [isBlock]), Leave) ==
      Walk(tokens + (if isBlock then [Close] else []), stack)
  {
    assert (stack + [isBlock])[..|stack|] == stack;
  }

  /** a and b, in braces if `scope`. */
  function Framed(scope: bool, a: seq<Token>, b: seq<Token>): seq<Token> {
    if scope then [Open] + (a + b) + [Close] + [] else a + b
  }

  lemma PrintOfOutline(builtin: string -> bool, n: Node)
    ensures Print(Outline(builtin, n)) ==
      Framed(n.kind.Block?, Own(builtin, n.kind), Print(AllOutlines(builtin, n.children)))
  {
    AppendParts(Toks(Own(builtin, n.kind)), AllOutlines(builtin, n.children));
    ToksArePlain(Own(builtin, n.kind));
    PrintScope(Append(Toks(Own(builtin, n.kind)), AllOutlines(builtin, n.children)), Empty);
  }

  lemma AfterTokens(tokens: seq<Token>, scope: bool, a: seq<Token>, b: seq<Token>)
    ensures tokens + Framed(scope, a, b) == tokens + (if scope then [Open] else []) + a + b + if scope then [Close]
      else []
  {
  }

  /** Walking a node leaves the stack as it was and appends the node's outline in print. */
  lemma {:induction false} RunNode(builtin: string -> bool, w: Walk, n: Node)
    ensures Run(builtin, w, Visits(n)) == Walk(w.tokens + Print(Outline(builtin, n)), w.stack)
    decreases n
  {
    var block, own, inner := n.kind.Block?, Own(builtin, n.kind), Print(AllOutlines(builtin, n.children));
    var start := if block then [Open] else [];
    var entered := Walk(w.tokens + start + own, w.stack + [block]);
    var walked := Walk(w.tokens + start + own + inner, w.stack + [block]);
    RunVisits(builtin, w, n);
    assert Step(builtin, w, Enter(n.kind)) == entered;
    RunNodes(builtin, entered, n.children);
    assert Run(builtin, entered, AllVisits(n.children)) == walked;
    LeaveCloses(builtin, walked.tokens, w.stack, block);
    PrintOfOutline(builtin, n);
    AfterTokens(w.tokens, block, own, inner);
  }

  lemma RunVisits(builtin: string -> bool, w: Walk, n: Node)
    ensures Run(builtin, w, Visits(n)) ==
      Step(builtin, Run(builtin, Step(builtin, w, Enter(n.kind)), AllVisits(n.children)), Leave)
  {
    var inside := AllVisits(n.children);
    RunAppend(builtin, w, [Enter(n.kind)] + inside, [Leave]);
    RunAppend(builtin, w, [Enter(n.kind)], inside);
    RunOne(builtin, w, Enter(n.kind));
    RunOne(builtin, Run(builtin, Step(builtin, w, Enter(n.kind)), inside), Leave);
  }

  lemma {:induction false} RunNodes(builtin: string -> bool, w: Walk, ns: Nodes)
    ensures Run(builtin, w, AllVisits(ns)) == Walk(w.tokens + Print(AllOutlines(builtin, ns)), w.stack)
    decreases ns
  {
    match ns
    case Nil =>
      assert w.tokens + [] == w.tokens;
    case Cons(n, rest) =>
      var first := Print(Outline(builtin, n));
      var next := Walk(w.tokens + first, w.stack);
      calc {
        Run(builtin, w, AllVisits(ns));
        Run(builtin, w, Visits(n) + AllVisits(rest));
        { RunAppend(builtin, w, Visits(n), AllVisits(rest)); }
        Run(builtin, Run(builtin, w, Visits(n)), AllVisits(rest));
        { RunNode(builtin, w, n); }
        Run(builtin, next, AllVisits(rest));
        { RunNodes(builtin, next, rest); }
        Walk(w.tokens + first + Print(AllOutlines(builtin, rest)), w.stack);
        { OutlinesInPrint(builtin, w.tokens, n, rest); }
        Walk(w.tokens + Print(AllOutlines(builtin, ns)), w.stack);
      }
  }

  lemma OutlinesInPrint(builtin: string -> bool, tokens: seq<Token>, n: Node, rest: Nodes)
    ensures tokens + Print(AllOutlines(builtin, Cons(n, rest))) ==
      tokens + Print(Outline(builtin, n)) + Print(AllOutlines(builtin, rest))
  {
    AppendParts(Outline(builtin, n), AllOutlines(builtin, rest));
  }

  /** buildScopedCloneTokens prints the outline of the body. */
  method BuildScopedCloneTokens(builtin: string -> bool, body: Node) returns (tokens: seq<Token>)
    ensures tokens == Print(Outline(builtin, body))
  {
    tokens := [];
    var stack: seq<bool> := [];
    var visits := Visits(body);
    for i := 0 to |visits|
      invariant Run(builtin, Walk(tokens, stack), visits[i..]) == Run(builtin, Walk([], []), visits)
    {
      assert visits[i..][0] == visits[i] && visits[i..][1..] == visits[i + 1..];
      ghost var before := Walk(tokens, stack);
      match visits[i] {
        case Leave =>
          if |stack| > 0 {
            var isBlock := stack[|stack| - 1];
            stack := stack[..|stack| - 1];
            if isBlock {
              tokens := tokens + [Close];
            }
          }
        case Enter(kind) =>
          stack := stack + [kind.Block?];
          if kind.Block? {
            tokens := tokens + [Open];
          }
          tokens := tokens + Own(builtin, kind);
      }
      assert Walk(tokens, stack) == Step(builtin, before, visits[i]);
    }
    RunNode(builtin, Walk([], []), body);
    assert tokens == [] + Print(Outline(builtin, body));
  }

  function Plain(builtin: string -> bool, vs: seq<Visit>): seq<Token> {
    if vs == [] then []
    else Plain(builtin, vs[..|vs| - 1]) + (if vs[|vs| - 1].Enter? then Own(builtin, vs[|vs| - 1].kind) else [])
  }

  lemma {:induction false} PlainAppend(builtin: string -> bool, a: seq<Visit>, b: seq<Visit>)
    ensures Plain(builtin, a + b) == Plain(builtin, a) + Plain(builtin, b)
    decreases |b|
  {
    if b == [] {
      assert a + b == a;
    } else {
      assert (a + b)[..|a + b| - 1] == a + b[..|b| - 1];
      PlainAppend(builtin, a, b[..|b| - 1]);
    }
  }

  lemma {:induction false} PlainNode(builtin: string -> bool, n: Node)
    ensures Plain(builtin, Visits(n)) == Erase(Outline(builtin, n))
    decreases n
  {
    var own := Own(builtin, n.kind);
    PlainAppend(builtin, [Enter(n.kind)] + AllVisits(n.children), [Leave]);
    PlainAppend(builtin, [Enter(n.kind)], AllVisits(n.children));
    assert Plain(builtin, [Enter(n.kind)]) == own;
    assert Plain(builtin, [Leave]) == [];
    PlainNodes(builtin, n.children);
    AppendParts(Toks(own), AllOutlines(builtin, n.children));
    ToksArePlain(own);
  }

  lemma {:induction false} PlainNodes(builtin: string -> bool, ns: Nodes)
    ensures Plain(builtin, AllVisits(ns)) == Erase(AllOutlines(builtin, ns))
    decreases ns
  {
    match ns
    case Nil =>
    case Cons(n, rest) =>
      PlainAppend(builtin, Visits(n), AllVisits(rest));
      PlainNode(builtin, n);
      PlainNodes(builtin, rest);
      AppendParts(Outline(builtin, n), AllOutlines(builtin, rest));
  }

  /** buildCloneTokens gives the same outline without its scopes. */
  method BuildCloneTokens(builtin: string -> bool, body: Node) returns (tokens: seq<Token>)
    ensures tokens == Erase(Outline(builtin, body))
  {
    tokens := [];
    var visits := Visits(body);
    for i := 0 to |visits|
      invariant tokens == Plain(builtin, visits[..i])
    {
      assert visits[..i + 1][..i] == visits[..i];
      match visits[i] {
        case Leave =>
        case Enter(kind) => tokens := tokens + Own(builtin, kind);
      }
    }
    assert visits[..|visits|] == visits;
    PlainNode(builtin, body);
  }

  // ----- Scope tokens are balanced and lose no nesting -----

  predicate IsBrace(t: Token) {
    t == Open || t == Close
  }

  predicate NoBraces(items: Items) {
    match items
    case Empty => true
    case More(Tok(t), rest) => !IsBrace(t) && NoBraces(rest)
    case More(Scope(inner), rest) => NoBraces(inner) && NoBraces(rest)
  }

  lemma {:induction false} ToksHaveNoBraces(s: seq<Token>)
    requires forall i :: 0 <= i < |s| ==> !IsBrace(s[i])
    ensures NoBraces(Toks(s))
  {
    if s != [] {
      ToksHaveNoBraces(s[1..]);
    }
  }

  lemma {:induction false} AppendHasNoBraces(a: Items, b: Items)
    requires NoBraces(a) && NoBraces(b)
    ensures NoBraces(Append(a, b))
  {
    match a
    case Empty =>
    case More(_, rest) => AppendHasNoBraces(rest, b);
  }

  lemma {:induction false} OutlineHasNoBraces(builtin: string -> bool, n: Node)
    ensures NoBraces(Outline(builtin, n))
    decreases n
  {
    var own := Own(builtin, n.kind);
    OwnAreWords(builtin, n.kind);
    assert forall i :: 0 <= i < |own| ==> own[i] in own;
    ToksHaveNoBraces(own);
    OutlinesHaveNoBraces(builtin, n.children);
    AppendHasNoBraces(Toks(own), AllOutlines(builtin, n.children));
  }

  lemma {:induction false} OutlinesHaveNoBraces(builtin: string -> bool, ns: Nodes)
    ensures NoBraces(AllOutlines(builtin, ns))
    decreases ns
  {
    match ns
    case Nil =>
    case Cons(n, rest) =>
      OutlineHasNoBraces(builtin, n);
      OutlinesHaveNoBraces(builtin, rest);
      AppendHasNoBraces(Outline(builtin, n), AllOutlines(builtin, rest));
  }

  datatype Parsed = Parsed(items: Items, rest: seq<Token>)

  /** Reads items up to a closing brace or the end; an opening brace without its partner ends the reading. */
  function Parse(ts: seq<Token>): (p: Parsed)
    ensures |p.rest| <= |ts|
    decreases |ts|
  {
    if ts == [] || ts[0] == Close then Parsed(Empty, ts)
    else if ts[0] == Open then
      var inner := Parse(ts[1..]);
      if inner.rest == [] then Parsed(Empty, ts)
      else
        var after := Parse(inner.rest[1..]);
        Parsed(More(Scope(inner.items), after.items), after.rest)
    else
      var after := Parse(ts[1..]);
      Parsed(More(Tok(ts[0]), after.items), after.rest)
  }

  ghost predicate AtEnd(tail: seq<Token>) {
    tail == [] || tail[0] == Close
  }

  lemma ParseTok(t: Token, ts: seq<Token>)
    requires !IsBrace(t)
    ensures Parse([t] + ts) == Parsed(More(Tok(t), Parse(ts).items), Parse(ts).rest)
  {
    assert ([t] + ts)[1..] == ts;
  }

  lemma ParseScope(ts: seq<Token>, inner: Items, after: seq<Token>)
    requires Parse(ts) == Parsed(inner, [Close] + after)
    ensures Parse([Open] + ts) == Parsed(More(Scope(inner), Parse(after).items), Parse(after).rest)
  {
    assert ([Open] + ts)[1..] == ts && ([Close] + after)[1..] == after;
  }

  lemma Regroup(a: seq<Token>, b: seq<Token>, tail: seq<Token>)
    ensures [Open] + a + [Close] + b + tail == [Open] + (a + ([Close] + (b + tail)))
  {
  }

  lemma RegroupTok(t: Token, a: seq<Token>, tail: seq<Token>)
    ensures [t] + a + tail == [t] + (a + tail)
  {
  }

  /** Reading undoes printing. */
  lemma {:induction false} ParseOfPrint(items: Items, tail: seq<Token>)
    requires NoBraces(items) && AtEnd(tail)
    ensures Parse(Print(items) + tail) == Parsed(items, tail)
    decreases items, 1
  {
    match items
    case Empty =>
      assert [] + tail == tail;
    case More(Tok(t), rest) =>
      calc {
        Parse(Print(items) + tail);
        { RegroupTok(t, Print(rest), tail); }
        Parse([t] + (Print(rest) + tail));
        { ParseTok(t, Print(rest) + tail);
          ParseOfPrint(rest, tail); }
        Parsed(items, tail);
      }
    case More(Scope(inner), rest) =>
      ParseOfScope(inner, rest, tail);
  }

  lemma {:induction false} ParseOfScope(inner: Items, rest: Items, tail: seq<Token>)
    requires NoBraces(inner) && NoBraces(rest) && AtEnd(tail)
    ensures Parse(Print(More(Scope(inner), rest)) + tail) == Parsed(More(Scope(inner), rest), tail)
    decreases More(Scope(inner), rest), 0
  {
    var a, b := Print(inner), Print(rest);
    var after := b + tail;
    ParseOfPrint(rest, tail);
    ParseOfPrint(inner, [Close] + after);
    ParseScope(a + ([Close] + after), inner, after);
    Regroup(a, b, tail);
    PrintScope(inner, rest);
  }

  lemma PrintScope(inner: Items, rest: Items)
    ensures Print(More(Scope(inner), rest)) == [Open] + Print(inner) + [Close] + Print(rest)
  {
  }

  /** The nesting depth after some tokens. */
  function Depth(ts: seq<Token>): int {
    if ts == [] then 0
    else
      var t := ts[|ts| - 1];
      Depth(ts[..|ts| - 1]) + if t == Open then 1 else if t == Close then -1 else 0
  }

  ghost predicate Balanced(ts: seq<Token>) {
    Depth(ts) == 0 && forall k :: 0 <= k <= |ts| ==> Depth(ts[..k]) >= 0
  }

  lemma {:induction false} DepthAppend(a: seq<Token>, b: seq<Token>)
    ensures Depth(a + b) == Depth(a) + Depth(b)
    decreases |b|
  {
    if b == [] {
      assert a + b == a;
    } else {
      assert (a + b)[..|a + b| - 1] == a + b[..|b| - 1];
      DepthAppend(a, b[..|b| - 1]);
    }
  }

  lemma BalancedAppend(a: seq<Token>, b: seq<Token>)
    requires Balanced(a) && Balanced(b)
    ensures Balanced(a + b)
  {
    DepthAppend(a, b);
    forall k | 0 <= k <= |a + b|
      ensures Depth((a + b)[..k]) >= 0
    {
      if k <= |a| {
        assert (a + b)[..k] == a[..k];
      } else {
        assert (a + b)[..k] == a + b[..k - |a|];
        DepthAppend(a, b[..k - |a|]);
      }
    }
  }

  lemma BalancedScope(inner: seq<Token>)
    requires Balanced(inner)
    ensures Balanced([Open] + inner + [Close])
  {
    var ts := [Open] + inner + [Close];
    assert Depth([Open]) == 1 by { assert [Open][..0] == []; }
    assert Depth([Close]) == -1 by { assert [Close][..0] == []; }
    DepthAppend([Open], inner);
    DepthAppend([Open] + inner, [Close]);
    forall k | 0 <= k <= |ts|
      ensures Depth(ts[..k]) >= 0
    {
      if k == 0 {
        assert ts[..k] == [];
      } else if k < |ts| {
        assert ts[..k] == [Open] + inner[..k - 1];
        DepthAppend([Open], inner[..k - 1]);
      } else {
        assert ts[..k] == ts;
      }
    }
  }

  lemma {:induction false} PrintIsBalanced(items: Items)
    requires NoBraces(items)
    ensures Balanced(Print(items))
    decreases items
  {
    match items
    case Empty =>
    case More(Tok(t), rest) =>
      assert Depth([t]) == 0 by { assert [t][..0] == []; }
      assert [t][..1] == [t];
      PrintIsBalanced(rest);
      BalancedAppend([t], Print(rest));
    case More(Scope(inner), rest) =>
      PrintIsBalanced(inner);
      PrintIsBalanced(rest);
      BalancedScope(Print(inner));
      BalancedAppend([Open] + Print(inner) + [Close], Print(rest));
  }

  function WithoutBraces(ts: seq<Token>): seq<Token> {
    if ts == [] then []
    else (if IsBrace(ts[0]) then [] else [ts[0]]) + WithoutBraces(ts[1..])
  }

  lemma {:induction false} WithoutBracesAppend(a: seq<Token>, b: seq<Token>)
    ensures WithoutBraces(a + b) == WithoutBraces(a) + WithoutBraces(b)
  {
    if a == [] {
      assert a + b == b;
    } else {
      assert (a + b)[1..] == a[1..] + b;
      WithoutBracesAppend(a[1..], b);
    }
  }

  lemma {:induction false} WithoutBracesOfPrint(items: Items)
    requires NoBraces(items)
    ensures WithoutBraces(Print(items)) == Erase(items)
    decreases items
  {
    match items
    case Empty =>
    case More(Tok(t), rest) =>
      assert ([t] + Print(rest))[1..] == Print(rest);
      WithoutBracesOfPrint(rest);
    case More(Scope(inner), rest) =>
      WithoutBracesOfPrint(inner);
      WithoutBracesOfPrint(rest);
      WithoutBracesAppend([Open] + Print(inner) + [Close], Print(rest));
      WithoutBracesAppend([Open] + Print(inner), [Close]);
      WithoutBracesAppend([Open], Print(inner));
      assert WithoutBraces([Open]) == [] && WithoutBraces([Close]) == [];
  }

  /** For every body: the scoped tokens are balanced, reading them back gives exactly the nesting of the
      blocks, and without the braces they are the plain clone tokens. */
  lemma ScopedTokensAreFaithful(builtin: string -> bool, body: Node)
    ensures var scoped := Print(Outline(builtin, body));
      && Balanced(scoped)
      && Parse(scoped) == Parsed(Outline(builtin, body), [])
      && WithoutBraces(scoped) == Erase(Outline(builtin, body))
  {
    var items := Outline(builtin, body);
    OutlineHasNoBraces(builtin, body);
    PrintIsBalanced(items);
    ParseOfPrint(items, []);
    assert Print(items) + [] == Print(items);
    WithoutBracesOfPrint(items);
  }
}
