/** Parse trees as the parser builds them, and as the full grammar has them. */
module LrTrees {
  import opened LrTables

  datatype Token = Token(major: nat, text: string)

  datatype Tree = Leaf(tok: Token) | Node(rule: nat, kids: Forest)

  datatype Forest = Empty | Snoc(init: Forest, last: Tree)

  function Size(f: Forest): nat {
    match f case Empty => 0 case Snoc(init, _) => Size(init) + 1
  }

  /** The symbol a tree puts on the stack. */
  function Root(t: Tables, tr: Tree): nat {
    match tr case Leaf(tok) => tok.major case Node(r, _) => if r < |t.ruleLhs| then t.ruleLhs[r] else 0
  }

  function Yield(tr: Tree): seq<Token> {
    match tr case Leaf(tok) => [tok] case Node(_, kids) => Yields(kids)
  }

  function Yields(f: Forest): seq<Token> {
    match f case Empty => [] case Snoc(init, last) => Yields(init) + Yield(last)
  }

  /** A tree the parser may build: the children fit the right-hand side, up to optimized-out rules. */
  ghost predicate Built(g: Grammar, t: Tables, tr: Tree)
    requires GrammarOk(g, t)
    decreases tr
  {
    match tr
    case Leaf(tok) => tok.major < NTOKEN
    case Node(r, kids) => r < NRULE && BuiltAll(g, t, g.rhs[r], kids)
  }

  ghost predicate BuiltAll(g: Grammar, t: Tables, rhs: seq<set<nat>>, f: Forest)
    requires GrammarOk(g, t)
    decreases f
  {
    match f
    case Empty => rhs == []
    case Snoc(init, last) =>
      && rhs != [] && Built(g, t, last) && Fits(g, t, rhs[|rhs| - 1], Root(t, last))
      && BuiltAll(g, t, rhs[..|rhs| - 1], init)
  }

  /** A parse tree of the full grammar: each leaf names the terminal the grammar asks for there. */
  datatype Parse = Terminal(symbol: nat, tok: Token) | Apply(rule: nat, parts: Parts)

  datatype Parts = None | More(init: Parts, last: Parse)

  function Label(t: Tables, p: Parse): nat {
    match p case Terminal(x, _) => x case Apply(r, _) => if r < |t.ruleLhs| then t.ruleLhs[r] else 0
  }

  function Text(p: Parse): seq<Token> {
    match p case Terminal(_, tok) => [tok] case Apply(_, parts) => Texts(parts)
  }

  function Texts(ps: Parts): seq<Token> {
    match ps case None => [] case More(init, last) => Texts(init) + Text(last)
  }

  ghost predicate Parses(g: Grammar, t: Tables, p: Parse)
    requires GrammarOk(g, t)
    decreases p
  {
    match p
    case Terminal(x, tok) => tok.major < NTOKEN && StandsFor(t, x, tok.major)
    case Apply(r, parts) => r < NRULE && ParsesAll(g, t, g.rhs[r], parts)
  }

  ghost predicate ParsesAll(g: Grammar, t: Tables, rhs: seq<set<nat>>, ps: Parts)
    requires GrammarOk(g, t)
    decreases ps
  {
    match ps
    case None => rhs == []
    case More(init, last) =>
      && rhs != [] && Parses(g, t, last) && Label(t, last) in rhs[|rhs| - 1]
      && ParsesAll(g, t, rhs[..|rhs| - 1], init)
  }

  /** The tokens w derive from symbol x by the rules of the full grammar. */
  ghost predicate Derives(g: Grammar, t: Tables, x: nat, w: seq<Token>)
    requires GrammarOk(g, t)
  {
    exists p :: Parses(g, t, p) && Label(t, p) == x && Text(p) == w
  }

  /** A built tree has a parse tree: the optimized-out rules are put back, nothing else changes. */
  lemma {:induction false} Elaborate(g: Grammar, t: Tables, tr: Tree, x: nat, chain: seq<nat>) returns (p: Parse)
    requires GrammarOk(g, t) && Built(g, t, tr) && Unit(g, t, chain, x, Root(t, tr))
    ensures Parses(g, t, p) && Label(t, p) == x && Text(p) == Yield(tr)
    decreases tr, |chain|
  {
    if chain == [] {
      match tr
      case Leaf(tok) =>
        p := Terminal(x, tok);
      case Node(r, kids) =>
        var parts := ElaborateAll(g, t, g.rhs[r], kids);
        p := Apply(r, parts);
    } else {
      var r := chain[0];
      var z :| z in g.rhs[r][0] && Unit(g, t, chain[1..], z, Root(t, tr));
      var q := Elaborate(g, t, tr, z, chain[1..]);
      p := Apply(r, More(None, q));
      assert Texts(None) + Text(q) == Text(q);
      assert g.rhs[r][..0] == [] && ParsesAll(g, t, g.rhs[r][..0], None);
    }
  }

  lemma {:induction false} ElaborateAll(g: Grammar, t: Tables, rhs: seq<set<nat>>, f: Forest) returns (ps: Parts)
    requires GrammarOk(g, t) && BuiltAll(g, t, rhs, f)
    ensures ParsesAll(g, t, rhs, ps) && Texts(ps) == Yields(f)
    decreases f, 0
  {
    match f
    case Empty =>
      ps := None;
    case Snoc(init, last) =>
      var y := Root(t, last);
      var x, chain :| x in rhs[|rhs| - 1] && Unit(g, t, chain, x, y);
      var front := ElaborateAll(g, t, rhs[..|rhs| - 1], init);
      var p := Elaborate(g, t, last, x, chain);
      ps := More(front, p);
  }

  /** What the parser builds for a symbol derives from it in the full grammar, with the same tokens. */
  lemma BuiltDerives(g: Grammar, t: Tables, tr: Tree)
    requires GrammarOk(g, t) && Built(g, t, tr)
    ensures Derives(g, t, Root(t, tr), Yield(tr))
  {
    var p := Elaborate(g, t, tr, Root(t, tr), []);
  }

  /** The trees of a sequence, as children. */
  function Kids(trees: seq<Tree>): (f: Forest)
    ensures Size(f) == |trees|
  {
    if trees == [] then Empty else Snoc(Kids(trees[..|trees| - 1]), trees[|trees| - 1])
  }

  function Concat(trees: seq<Tree>): seq<Token> {
    if trees == [] then [] else Concat(trees[..|trees| - 1]) + Yield(trees[|trees| - 1])
  }

  lemma {:induction false} KidsYield(trees: seq<Tree>)
    ensures Yields(Kids(trees)) == Concat(trees)
  {
    if trees != [] {
      KidsYield(trees[..|trees| - 1]);
    }
  }

  lemma {:induction false} ConcatSplit(a: seq<Tree>, b: seq<Tree>)
    ensures Concat(a + b) == Concat(a) + Concat(b)
  {
    if b == [] {
      assert a + b == a;
    } else {
      var n := |b| - 1;
      ConcatSplit(a, b[..n]);
      assert (a + b)[..|a + b| - 1] == a + b[..n];
    }
  }

  lemma ConcatSnoc(front: seq<Tree>, tr: Tree)
    ensures Concat(front + [tr]) == Concat(front) + Yield(tr)
  {
    var all := front + [tr];
    assert all[..|all| - 1] == front;
  }

  /** Trees that fit a right-hand side one by one make the children of a built node. */
  lemma {:induction false} KidsBuilt(g: Grammar, t: Tables, rhs: seq<set<nat>>, trees: seq<Tree>)
    requires GrammarOk(g, t) && |rhs| == |trees|
    requires forall j :: 0 <= j < |trees| ==> Built(g, t, trees[j]) && Fits(g, t, rhs[j], Root(t, trees[j]))
    ensures BuiltAll(g, t, rhs, Kids(trees))
  {
    if trees != [] {
      var n := |trees| - 1;
      KidsBuilt(g, t, rhs[..n], trees[..n]);
    }
  }
}
