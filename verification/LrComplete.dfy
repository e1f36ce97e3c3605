/**
 What the driver accepts, exactly: the inputs with a tree that the tables follow, symbol by symbol and each under its
 lookahead. The relation speaks of trees and table entries; stack, loop and action of the driver do not occur in it.
 */
module LrComplete {
  import opened LrTables
  import opened LrTrees
  import opened LrRun
  import opened LrDrive
  import opened LrEnds

  datatype Option = Nowhere | To(code: nat)

  /** What a shift by action `act` leads to: a state, or the reduction that is then due. */
  function ShiftCode(act: nat): nat {
    if act > MAX_SHIFT then act + (MIN_REDUCE - MIN_SHIFTREDUCE) else act
  }

  /** The token that is seen before w, y being what comes behind. */
  function First(w: seq<Token>, y: nat): nat {
    if w == [] then y else w[0].major
  }

  /**
   Where the tables lead from code s over a tree, with token y behind it: over a leaf by the shift of its token, over a
   node by its children from left to right, the reduction by its rule under y, and the goto of s on its left-hand side.
   */
  ghost function Goes(t: Tables, s: nat, tr: Tree, y: nat): Option
    requires TablesOk(t) && y < NTOKEN
    decreases tr
  {
    match tr
    case Leaf(tok) =>
      if tok.major < NTOKEN && FindShift(t, s, tok.major) <= MAX_SHIFTREDUCE
      then To(ShiftCode(FindShift(t, s, tok.major))) else Nowhere
    case Node(r, kids) =>
      var end := GoesAll(t, s, kids, y);
      if end.To? && r < NRULE && FindShift(t, end.code, y) == MIN_REDUCE + r && Size(kids) == -t.nRhs[r]
         && GotoOk(t, s, t.ruleLhs[r])
      then To(FindReduce(t, s, t.ruleLhs[r])) else Nowhere
  }

  ghost function GoesAll(t: Tables, s: nat, f: Forest, y: nat): Option
    requires TablesOk(t) && y < NTOKEN
    decreases f
  {
    match f
    case Empty => To(s)
    case Snoc(init, last) =>
      var x := First(Yield(last), y);
      if x >= NTOKEN then Nowhere
      else
        var mid := GoesAll(t, s, init, x);
        if mid.To? then Goes(t, mid.code, last, y) else Nowhere
  }

  /** The tree can be built on a stack of h entries: every token and every empty left-hand side finds room. */
  predicate HasRoom(tr: Tree, h: nat)
    decreases tr
  {
    match tr
    case Leaf(_) => h < STACK_DEPTH
    case Node(_, kids) => HasRoomAll(kids, h) && (kids == Empty ==> h < STACK_DEPTH)
  }

  predicate HasRoomAll(f: Forest, h: nat)
    decreases f
  {
    match f case Empty => true case Snoc(init, last) => HasRoomAll(init, h) && HasRoom(last, h + Size(init))
  }

  /** The tables follow a tree over these tokens from the first state to acceptance before the end mark. */
  ghost predicate Followed(t: Tables, tr: Tree, tokens: seq<Token>, end: Token)
    requires TablesOk(t) && end.major < NTOKEN
  {
    Yield(tr) == tokens && Goes(t, 0, tr, end.major) == To(ACCEPT_ACTION) && HasRoom(tr, 1)
  }

  predicate AllTokens(w: seq<Token>) {
    forall i :: 0 <= i < |w| ==> w[i].major < NTOKEN
  }

  function Top(c: Conf): nat
    requires c.stack != []
  {
    c.stack[|c.stack| - 1].stateno
  }

  /** The token the driver looks at before `rest`. */
  function Ahead(rest: seq<Token>, end: Token): Token {
    if rest == [] then end else rest[0]
  }

  lemma EnoughRounds(g: Grammar, t: Tables, past: seq<Past>, k: Ranking, c: Conf, tok: Token, n: nat, m: nat)
    requires Sound(g, t, past, c) && Ranked(g, t, k) && tok.major < NTOKEN && Potential(k, c, tok) < n <= m
    ensures Drive(t, c, tok, n) == Drive(t, c, tok, m)
  {
    DriveEnds(g, t, past, k, c, tok, n);
    MoreRounds(t, c, tok, n, m);
  }

  lemma ReducedDrive(g: Grammar, t: Tables, past: seq<Past>, k: Ranking, c: Conf, tok: Token, d: Conf, n: nat,
          a: (Conf, Kind), b: (Conf, Kind))
    requires Sound(g, t, past, c) && Ranked(g, t, k) && tok.major < NTOKEN && Potential(k, c, tok) < n
    requires CanIterate(t, c, tok) && (d, Reduced) == Iterate(t, c, tok)
    requires a == Drive(t, c, tok, n) && b == Drive(t, d, tok, n)
    ensures Sound(g, t, past, d) && a == b
  {
    IterateSound(g, t, past, c, tok, d, Reduced);
    ReductionFalls(g, t, past, k, c, tok, d);
    EnoughRounds(g, t, past, k, d, tok, n - 1, n);
    DriveRound(t, c, tok, n, d, Reduced, a);
  }

  /** The answer depends on what the driver makes of the next token. */
  lemma SameDrive(t: Tables, c: Conf, d: Conf, rest: seq<Token>, end: Token, rounds: nat)
    requires Drive(t, c, Ahead(rest, end), rounds) == Drive(t, d, Ahead(rest, end), rounds)
    ensures Parsed(t, c, rest, end, rounds) == Parsed(t, d, rest, end, rounds)
  {
  }

  /** A round that reduces leaves the answer. */
  lemma ReducedOnce(g: Grammar, t: Tables, past: seq<Past>, k: Ranking, c: Conf, rest: seq<Token>, end: Token, d: Conf)
    requires Sound(g, t, past, c) && Ranked(g, t, k) && Ahead(rest, end).major < NTOKEN
    requires CanIterate(t, c, Ahead(rest, end)) && (d, Reduced) == Iterate(t, c, Ahead(rest, end))
    ensures Sound(g, t, past, d) && Parsed(t, c, rest, end, Rounds(k)) == Parsed(t, d, rest, end, Rounds(k))
  {
    var tok, n := Ahead(rest, end), Rounds(k);
    PotentialBounded(g, t, past, k, c, tok);
    ReducedDrive(g, t, past, k, c, tok, d, n, Drive(t, c, tok, n), Drive(t, d, tok, n));
    SameDrive(t, c, d, rest, end, Rounds(k));
  }

  /** A round that shifts is the answer to its token. */
  lemma ShiftedOnce(g: Grammar, t: Tables, past: seq<Past>, k: Ranking, c: Conf, tok: Token, rest: seq<Token>,
          end: Token, d: Conf)
    requires Sound(g, t, past, c) && CanIterate(t, c, tok) && (d, Shifted) == Iterate(t, c, tok)
    ensures Sound(g, t, past, d)
    ensures Parsed(t, c, [tok] + rest, end, Rounds(k)) == Parsed(t, d, rest, end, Rounds(k))
  {
    IterateSound(g, t, past, c, tok, d, Shifted);
    assert Drive(t, c, tok, Rounds(k)) == (d, Shifted);
    assert ([tok] + rest)[0] == tok && ([tok] + rest)[1..] == rest;
  }

  /** The configuration with one more symbol, built as tree tr. */
  function Push(t: Tables, c: Conf, code: nat, tr: Tree): Conf {
    Conf(c.stack + [Entry(code, Root(t, tr))], c.trees + [tr], c.shifted + Yield(tr))
  }

  lemma LeafIsDriven(g: Grammar, t: Tables, past: seq<Past>, k: Ranking, c: Conf, tok: Token, rest: seq<Token>,
          end: Token, y: nat, code: nat)
    requires Sound(g, t, past, c) && y < NTOKEN && Goes(t, Top(c), Leaf(tok), y) == To(code)
    requires HasRoom(Leaf(tok), |c.stack|)
    ensures Sound(g, t, past, Push(t, c, code, Leaf(tok)))
    ensures Parsed(t, c, [tok] + rest, end, Rounds(k)) == Parsed(t, Push(t, c, code, Leaf(tok)), rest, end, Rounds(k))
  {
    ShiftedOnce(g, t, past, k, c, tok, rest, end, Push(t, c, code, Leaf(tok)));
  }

  function TreesOf(f: Forest): (r: seq<Tree>)
    ensures |r| == Size(f)
  {
    match f case Empty => [] case Snoc(init, last) => TreesOf(init) + [last]
  }

  lemma {:induction false} KidsOfTrees(f: Forest)
    ensures Kids(TreesOf(f)) == f && Concat(TreesOf(f)) == Yields(f)
    decreases f
  {
    match f
    case Empty =>
    case Snoc(init, last) =>
      KidsOfTrees(init);
      ConcatSnoc(TreesOf(init), last);
      assert (TreesOf(init) + [last])[..Size(init)] == TreesOf(init);
  }

  /** d is c with the trees of f pushed, code m on top. */
  ghost predicate PushedAll(c: Conf, f: Forest, m: nat, d: Conf) {
    && c.stack != [] && |d.stack| == |c.stack| + Size(f) && d.stack[..|c.stack|] == c.stack && Top(d) == m
    && d.trees == c.trees + TreesOf(f) && d.shifted == c.shifted + Yields(f)
  }

  lemma PushedNone(c: Conf, rest: seq<Token>)
    requires c.stack != []
    ensures PushedAll(c, Empty, Top(c), c) && Yields(Empty) + rest == rest
  {
    assert c.stack[..|c.stack|] == c.stack && c.trees + [] == c.trees && c.shifted + [] == c.shifted;
  }

  lemma PushedOneMore(t: Tables, c: Conf, init: Forest, m: nat, d: Conf, last: Tree, n: nat)
    requires PushedAll(c, init, m, d)
    ensures PushedAll(c, Snoc(init, last), n, Push(t, d, n, last))
  {
    var e := Push(t, d, n, last);
    assert e.stack[..|c.stack|] == d.stack[..|c.stack|];
    assert e.trees == c.trees + (TreesOf(init) + [last]);
    assert e.shifted == c.shifted + (Yields(init) + Yield(last));
  }

  /** The reduction after the children, from where they were pushed. */
  lemma NodeReduced(t: Tables, c: Conf, r: nat, kids: Forest, m: nat, d: Conf, tok: Token)
    requires TablesOk(t) && tok.major < NTOKEN && PushedAll(c, kids, m, d) && |d.stack| == |d.trees| + 1
    requires r < NRULE && FindShift(t, m, tok.major) == MIN_REDUCE + r && Size(kids) == -t.nRhs[r]
    requires GotoOk(t, Top(c), t.ruleLhs[r]) && (kids == Empty ==> |c.stack| < STACK_DEPTH)
    ensures CanIterate(t, d, tok)
    ensures Iterate(t, d, tok) == (Push(t, c, FindReduce(t, Top(c), t.ruleLhs[r]), Node(r, kids)), Reduced)
  {
    var n := Size(kids);
    KidsOfTrees(kids);
    assert d.stack[|d.stack| - 1 - n] == d.stack[..|c.stack|][|c.stack| - 1];
    assert d.stack[..|d.stack| - n] == c.stack;
    assert d.trees[..|d.trees| - n] == c.trees && d.trees[|d.trees| - n..] == TreesOf(kids);
  }

  /** The driver follows a tree that the tables follow: with its tokens shifted it is one symbol on the stack. */
  lemma {:induction false} TreeIsDriven(g: Grammar, t: Tables, past: seq<Past>, k: Ranking, c: Conf, tr: Tree,
          rest: seq<Token>, end: Token, code: nat)
    requires Sound(g, t, past, c) && Ranked(g, t, k) && Ahead(rest, end).major < NTOKEN
    requires Goes(t, Top(c), tr, Ahead(rest, end).major) == To(code) && HasRoom(tr, |c.stack|)
    ensures Sound(g, t, past, Push(t, c, code, tr))
    ensures Parsed(t, c, Yield(tr) + rest, end, Rounds(k)) == Parsed(t, Push(t, c, code, tr), rest, end, Rounds(k))
    decreases tr, 1
  {
    match tr
    case Leaf(tok) =>
      LeafIsDriven(g, t, past, k, c, tok, rest, end, Ahead(rest, end).major, code);
    case Node(r, kids) =>
      var m := GoesAll(t, Top(c), kids, Ahead(rest, end).major).code;
      var goal := Parsed(t, c, Yield(tr) + rest, end, Rounds(k));
      var d := ForestIsDriven(g, t, past, k, c, kids, Yield(tr) + rest, rest, end, m, goal);
      NodeReduced(t, c, r, kids, m, d, Ahead(rest, end));
      ReducedOnce(g, t, past, k, d, rest, end, Push(t, c, code, tr));
  }

  lemma {:induction false} ForestIsDriven(g: Grammar, t: Tables, past: seq<Past>, k: Ranking, c: Conf, f: Forest,
          all: seq<Token>, rest: seq<Token>, end: Token, m: nat, goal: (Conf, bool)) returns (d: Conf)
    requires Sound(g, t, past, c) && Ranked(g, t, k) && Ahead(rest, end).major < NTOKEN && all == Yields(f) + rest
    requires GoesAll(t, Top(c), f, Ahead(rest, end).major) == To(m) && HasRoomAll(f, |c.stack|)
    requires goal == Parsed(t, c, all, end, Rounds(k))
    ensures Sound(g, t, past, d) && PushedAll(c, f, m, d) && goal == Parsed(t, d, rest, end, Rounds(k))
    decreases f, 0
  {
    match f
    case Empty =>
      d := c;
      PushedNone(c, rest);
    case Snoc(init, last) =>
      var more := Yield(last) + rest;
      TokensAhead(init, last, rest, end);
      var mid := GoesAll(t, Top(c), init, Ahead(more, end).major).code;
      var e := ForestIsDriven(g, t, past, k, c, init, all, more, end, mid, goal);
      d := LastIsDriven(g, t, past, k, c, init, mid, e, last, rest, end, m);
  }

  lemma TokensAhead(init: Forest, last: Tree, rest: seq<Token>, end: Token)
    ensures Ahead(Yield(last) + rest, end).major == First(Yield(last), Ahead(rest, end).major)
    ensures Yields(Snoc(init, last)) + rest == Yields(init) + (Yield(last) + rest)
  {
  }

  lemma {:induction false} LastIsDriven(g: Grammar, t: Tables, past: seq<Past>, k: Ranking, c: Conf, init: Forest,
          mid: nat, e: Conf, last: Tree, rest: seq<Token>, end: Token, m: nat) returns (d: Conf)
    requires Sound(g, t, past, e) && Ranked(g, t, k) && Ahead(rest, end).major < NTOKEN && PushedAll(c, init, mid, e)
    requires Goes(t, mid, last, Ahead(rest, end).major) == To(m) && HasRoom(last, |c.stack| + Size(init))
    ensures Sound(g, t, past, d) && PushedAll(c, Snoc(init, last), m, d)
    ensures Parsed(t, e, Yield(last) + rest, end, Rounds(k)) == Parsed(t, d, rest, end, Rounds(k))
    decreases last, 2
  {
    TreeIsDriven(g, t, past, k, e, last, rest, end, m);
    d := Push(t, e, m, last);
    PushedOneMore(t, c, init, mid, e, last, m);
  }

  /** What the tables follow is accepted, and leaves the parser as it was at first. */
  lemma FollowedIsAccepted(g: Grammar, t: Tables, past: seq<Past>, k: Ranking, tr: Tree, tokens: seq<Token>, end: Token)
    requires Consistent(g, t, past) && Ranked(g, t, k) && end.major < NTOKEN && Followed(t, tr, tokens, end)
    ensures Parsed(t, Init(), tokens, end, Rounds(k)) == (Init(), true)
  {
    var c, d := Init(), Push(t, Init(), ACCEPT_ACTION, tr);
    EmptySound(g, t, past, c);
    TreeIsDriven(g, t, past, k, c, tr, [], end, ACCEPT_ACTION);
    assert Yield(tr) + [] == tokens;
    RoundReady(g, t, past, d, end);
    assert Iterate(t, d, end) == (Init(), Accepted);
    assert Drive(t, d, end, Rounds(k)) == (Init(), Accepted);
  }
}
