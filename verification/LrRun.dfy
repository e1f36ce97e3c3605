/** The driver as a machine that makes one action at a time, and why what it accepts is derived from the grammar. */
module LrRun {
  import opened LrTables
  import opened LrTrees

  /** yyStackEntry: a state, or above MAX_SHIFT what is still to be done, and the symbol that led here. */
  datatype Entry = Entry(stateno: nat, major: nat)

  /** The stack with the trees of its symbols, and the tokens shifted since it was last empty. */
  datatype Conf = Conf(stack: seq<Entry>, trees: seq<Tree>, shifted: seq<Token>)

  datatype Kind = Reduced | Shifted | Accepted | Failed | Overflowed

  /** sqlite3ParserInit */
  function Init(): Conf {
    Conf([Entry(0, 0)], [], [])
  }

  /** yyStackOverflow: every symbol is popped. */
  function Overflow(c: Conf): Conf
    requires c.stack != []
  {
    Conf(c.stack[..1], [], [])
  }

  /** yy_shift */
  function Shift(c: Conf, act: nat, tok: Token): (r: (Conf, Kind))
    requires c.stack != []
  {
    if |c.stack| >= STACK_DEPTH then (Overflow(c), Overflowed)
    else
      var stateno := if act > MAX_SHIFT then act + (MIN_REDUCE - MIN_SHIFTREDUCE) else act;
      (Conf(c.stack + [Entry(stateno, tok.major)], c.trees + [Leaf(tok)], c.shifted + [tok]), Shifted)
  }

  /** Nothing stands in the way of reducing by rule r. */
  ghost predicate Ready(t: Tables, c: Conf, r: nat) {
    && TablesOk(t) && r < NRULE
    && var n := -t.nRhs[r];
    && n < |c.stack| && n <= |c.trees|
    && GotoOk(t, c.stack[|c.stack| - 1 - n].stateno, t.ruleLhs[r])
  }

  /** yy_reduce */
  ghost function Reduce(t: Tables, c: Conf, r: nat): (Conf, Kind)
    requires Ready(t, c, r)
  {
    var n := -t.nRhs[r];
    if n == 0 && |c.stack| >= STACK_DEPTH then (Overflow(c), Overflowed)
    else
      var base, keep := |c.stack| - n, |c.trees| - n;
      var act := FindReduce(t, c.stack[base - 1].stateno, t.ruleLhs[r]);
      var node := Node(r, Kids(c.trees[keep..]));
      (Conf(c.stack[..base] + [Entry(act, t.ruleLhs[r])], c.trees[..keep] + [node], c.shifted), Reduced)
  }

  ghost function Action(t: Tables, c: Conf, tok: Token): nat
    requires TablesOk(t) && c.stack != [] && tok.major < NTOKEN
  {
    FindShift(t, c.stack[|c.stack| - 1].stateno, tok.major)
  }

  ghost predicate CanIterate(t: Tables, c: Conf, tok: Token) {
    && TablesOk(t) && c.stack != [] && tok.major < NTOKEN
    && (Action(t, c, tok) >= MIN_REDUCE ==> Ready(t, c, Action(t, c, tok) - MIN_REDUCE))
  }

  /** One round of the loop of sqlite3Parser. */
  ghost function Iterate(t: Tables, c: Conf, tok: Token): (Conf, Kind)
    requires CanIterate(t, c, tok)
  {
    var act := Action(t, c, tok);
    if act >= MIN_REDUCE then Reduce(t, c, act - MIN_REDUCE)
    else if act <= MAX_SHIFTREDUCE then Shift(c, act, tok)
    else if act == ACCEPT_ACTION then (Conf(c.stack[..|c.stack| - 1], [], []), Accepted)
    else (c, Failed)
  }

  /** At depth k the stack is as p says. */
  ghost predicate Known(stack: seq<Entry>, k: nat, p: Past)
    requires k < |stack| && PastOk(p)
  {
    && |p.symbols| <= k
    && forall j :: 0 <= j < |p.symbols| ==>
         stack[k - |p.symbols| + 1 + j].major in p.symbols[j] && stack[k - |p.symbols| + j].stateno in p.states[j]
  }

  lemma KnownPushed(stack: seq<Entry>, k: nat, p: Past)
    requires k + 1 < |stack| && PastOk(p) && Known(stack, k, p)
    ensures Known(stack, k + 1, Pushed(p, stack[k].stateno, stack[k + 1].major))
  {
  }

  lemma KnownWeaker(stack: seq<Entry>, k: nat, p: Past, q: Past)
    requires k < |stack| && PastOk(p) && PastOk(q) && Known(stack, k, p) && Weaker(q, p)
    ensures Known(stack, k, q)
  {
    var d := |p.symbols| - |q.symbols|;
    forall j | 0 <= j < |q.symbols|
      ensures stack[k - |q.symbols| + 1 + j].major in q.symbols[j] && stack[k - |q.symbols| + j].stateno in q.states[j]
    {
      assert stack[k - |p.symbols| + 1 + (d + j)].major in p.symbols[d + j];
    }
  }

  lemma KnownPrefix(stack: seq<Entry>, more: seq<Entry>, k: nat, p: Past)
    requires k < |stack| && k < |more| && stack[..k + 1] == more[..k + 1] && PastOk(p) && Known(stack, k, p)
    ensures Known(more, k, p)
  {
    forall i | 0 <= i <= k ensures stack[i] == more[i] {
      assert stack[..k + 1][i] == more[..k + 1][i];
    }
  }

  /** What every place of the stack keeps. */
  ghost predicate PlaceOk(g: Grammar, t: Tables, past: seq<Past>, c: Conf, k: nat)
    requires Consistent(g, t, past) && k < |c.stack| == |c.trees| + 1
  {
    var e := c.stack[k];
    && (k > 0 ==> e.stateno != 0 && e.major == Root(t, c.trees[k - 1]) && Built(g, t, c.trees[k - 1]))
    && (k < |c.stack| - 1 ==> e.stateno <= MAX_SHIFT)
    && (e.stateno <= MAX_SHIFT ==> Known(c.stack, k, past[e.stateno]))
  }

  /** A code on top that is not a state: a reduction whose turn has come, or acceptance. */
  ghost predicate TopOk(g: Grammar, t: Tables, past: seq<Past>, stack: seq<Entry>)
    requires Consistent(g, t, past) && stack != []
  {
    var top := |stack| - 1;
    stack[top].stateno > MAX_SHIFT ==>
      && top >= 1 && stack[top - 1].stateno <= MAX_SHIFT
      && var s := stack[top - 1].stateno;
         if stack[top].stateno >= MIN_REDUCE then
           Reducible(g, t, stack[top].stateno - MIN_REDUCE, Pushed(past[s], s, stack[top].major))
         else stack[top].stateno == ACCEPT_ACTION && top == 1 && stack[top].major == g.start
  }

  /**
   The invariant: the trees on the stack are built by the grammar and spell what was shifted; the stack has its size.
   */
  ghost predicate Sound(g: Grammar, t: Tables, past: seq<Past>, c: Conf) {
    && Consistent(g, t, past)
    && 1 <= |c.stack| <= STACK_DEPTH && |c.stack| == |c.trees| + 1 && c.stack[0].stateno == 0
    && (forall k :: 0 <= k < |c.stack| ==> PlaceOk(g, t, past, c, k))
    && TopOk(g, t, past, c.stack)
    && Concat(c.trees) == c.shifted
  }

  lemma EmptySound(g: Grammar, t: Tables, past: seq<Past>, c: Conf)
    requires Consistent(g, t, past) && |c.stack| == 1 && c.stack[0].stateno == 0 && c.trees == [] && c.shifted == []
    ensures Sound(g, t, past, c)
  {
  }

  /** Where a rule is reducible, its right-hand side is on the stack and the state under it has a goto. */
  lemma ReducibleHere(g: Grammar, t: Tables, past: seq<Past>, c: Conf, r: nat, p: Past)
    requires Sound(g, t, past, c) && PastOk(p) && Known(c.stack, |c.stack| - 1, p) && Reducible(g, t, r, p)
    ensures Ready(t, c, r) && RhsOnTop(g, t, c, r)
  {
    var n, m, top := |g.rhs[r]|, |p.symbols|, |c.stack| - 1;
    forall j | 0 <= j < n ensures Fits(g, t, g.rhs[r][j], c.stack[top - n + 1 + j].major) {
      assert c.stack[top - m + 1 + (m - n + j)].major in p.symbols[m - n + j];
    }
    assert c.stack[top - m + (m - n)].stateno in p.states[m - n];
  }

  ghost predicate RhsOnTop(g: Grammar, t: Tables, c: Conf, r: nat)
    requires GrammarOk(g, t)
  {
    && r < NRULE && |g.rhs[r]| < |c.stack|
    && HasGoto(g, c.stack[|c.stack| - 1 - |g.rhs[r]|].stateno, t.ruleLhs[r])
    && forall j :: 0 <= j < |g.rhs[r]| ==> Fits(g, t, g.rhs[r][j], c.stack[|c.stack| - |g.rhs[r]| + j].major)
  }

  /** Whenever the driver decides to reduce, it can. */
  lemma ActionReady(g: Grammar, t: Tables, past: seq<Past>, c: Conf, tok: Token)
    requires Sound(g, t, past, c) && tok.major < NTOKEN && Action(t, c, tok) >= MIN_REDUCE
    ensures Ready(t, c, Action(t, c, tok) - MIN_REDUCE) && RhsOnTop(g, t, c, Action(t, c, tok) - MIN_REDUCE)
  {
    var top := |c.stack| - 1;
    var code, r := c.stack[top].stateno, Action(t, c, tok) - MIN_REDUCE;
    assert PlaceOk(g, t, past, c, top);
    if code <= MAX_SHIFT {
      assert ActionOk(g, t, past, code, tok.major, FindShift(t, code, tok.major));
      if g.rhs[r] != [] {
        ReducibleHere(g, t, past, c, r, past[code]);
      }
    } else {
      assert PlaceOk(g, t, past, c, top - 1);
      var s := c.stack[top - 1].stateno;
      KnownPushed(c.stack, top - 1, past[s]);
      ReducibleHere(g, t, past, c, r, Pushed(past[s], s, c.stack[top].major));
    }
  }

  /** A sound stack with one more entry whose code is right for it. */
  lemma PushSound(g: Grammar, t: Tables, past: seq<Past>, c: Conf, e: Entry, tr: Tree, d: Conf)
    requires Consistent(g, t, past) && 1 <= |c.stack| < STACK_DEPTH && |c.stack| == |c.trees| + 1
    requires c.stack[0].stateno == 0
    requires forall k :: 0 <= k < |c.stack| ==> PlaceOk(g, t, past, c, k)
    requires c.stack[|c.stack| - 1].stateno <= MAX_SHIFT
    requires e.major == Root(t, tr) && Built(g, t, tr) && e.stateno != 0
    requires d.stack == c.stack + [e] && d.trees == c.trees + [tr] && d.shifted == Concat(d.trees)
    requires e.stateno <= MAX_SHIFT ==> EntryOk(past, c.stack[|c.stack| - 1].stateno, e.major, e.stateno)
    requires TopOk(g, t, past, d.stack)
    ensures Sound(g, t, past, d)
  {
    var n := |c.stack|;
    forall k | 0 <= k < |d.stack| ensures PlaceOk(g, t, past, d, k) {
      if k < n {
        PlacePrefix(g, t, past, c, d, k);
      } else {
        assert PlaceOk(g, t, past, c, n - 1);
        var s := c.stack[n - 1].stateno;
        KnownPrefix(c.stack, d.stack, n - 1, past[s]);
        KnownPushed(d.stack, n - 1, past[s]);
        if e.stateno <= MAX_SHIFT {
          KnownWeaker(d.stack, n, Pushed(past[s], s, e.major), past[e.stateno]);
        }
      }
    }
  }

  lemma PlacePrefix(g: Grammar, t: Tables, past: seq<Past>, c: Conf, d: Conf, k: nat)
    requires Consistent(g, t, past) && k < |c.stack| == |c.trees| + 1 && k < |d.stack| == |d.trees| + 1
    requires c.stack[..k + 1] == d.stack[..k + 1] && c.trees[..k] == d.trees[..k]
    requires PlaceOk(g, t, past, c, k) && c.stack[k].stateno <= MAX_SHIFT
    ensures PlaceOk(g, t, past, d, k)
  {
    assert d.stack[k] == d.stack[..k + 1][k] == c.stack[..k + 1][k];
    KnownPrefix(c.stack, d.stack, k, past[c.stack[k].stateno]);
    if k > 0 {
      assert c.trees[..k][k - 1] == d.trees[..k][k - 1];
    }
  }

  lemma ShiftSound(g: Grammar, t: Tables, past: seq<Past>, c: Conf, tok: Token, d: Conf, kind: Kind)
    requires Sound(g, t, past, c) && tok.major < NTOKEN && Action(t, c, tok) <= MAX_SHIFTREDUCE
    requires (d, kind) == Shift(c, Action(t, c, tok), tok)
    ensures Sound(g, t, past, d)
  {
    var act, top := Action(t, c, tok), |c.stack| - 1;
    if |c.stack| < STACK_DEPTH {
      var s := c.stack[top].stateno;
      assert s <= MAX_SHIFT;
      assert ActionOk(g, t, past, s, tok.major, FindShift(t, s, tok.major));
      assert d.trees[..|c.trees|] == c.trees;
      PushSound(g, t, past, c, d.stack[top + 1], Leaf(tok), d);
    }
  }

  /** The stack with the right-hand side popped. */
  lemma PoppedOk(g: Grammar, t: Tables, past: seq<Past>, c: Conf, n: nat, b: Conf)
    requires Sound(g, t, past, c) && n < |c.stack|
    requires b == Conf(c.stack[..|c.stack| - n], c.trees[..|c.trees| - n], [])
    requires b.stack[|b.stack| - 1].stateno <= MAX_SHIFT
    ensures forall k :: 0 <= k < |b.stack| ==> PlaceOk(g, t, past, b, k)
  {
    forall k | 0 <= k < |b.stack| ensures PlaceOk(g, t, past, b, k) {
      assert PlaceOk(g, t, past, c, k);
      PlacePrefix(g, t, past, c, b, k);
    }
  }

  /** Popped trees become one node that spells the same tokens. */
  lemma NodeBuilt(g: Grammar, t: Tables, past: seq<Past>, c: Conf, r: nat, keep: nat)
    requires Sound(g, t, past, c) && RhsOnTop(g, t, c, r) && keep == |c.trees| - |g.rhs[r]|
    ensures Built(g, t, Node(r, Kids(c.trees[keep..])))
    ensures Concat(c.trees[..keep] + [Node(r, Kids(c.trees[keep..]))]) == c.shifted
  {
    var popped := c.trees[keep..];
    forall j | 0 <= j < |popped| ensures Built(g, t, popped[j]) && Fits(g, t, g.rhs[r][j], Root(t, popped[j])) {
      assert PlaceOk(g, t, past, c, keep + 1 + j);
    }
    KidsBuilt(g, t, g.rhs[r], popped);
    assert c.trees == c.trees[..keep] + popped;
    NodeSpells(c.trees[..keep], popped, r, c.trees);
  }

  lemma NodeSpells(front: seq<Tree>, popped: seq<Tree>, r: nat, trees: seq<Tree>)
    requires trees == front + popped
    ensures Concat(front + [Node(r, Kids(popped))]) == Concat(trees)
  {
    KidsYield(popped);
    ConcatSplit(front, popped);
    ConcatSnoc(front, Node(r, Kids(popped)));
  }

  /** After the pop, the goto of the state on top is a right code for the left-hand side. */
  lemma GotoSound(g: Grammar, t: Tables, past: seq<Past>, b: Conf, a: nat, tr: Tree, d: Conf)
    requires Consistent(g, t, past) && 1 <= |b.stack| < STACK_DEPTH && |b.stack| == |b.trees| + 1
    requires b.stack[0].stateno == 0
    requires forall k :: 0 <= k < |b.stack| ==> PlaceOk(g, t, past, b, k)
    requires HasGoto(g, b.stack[|b.stack| - 1].stateno, a) && a == Root(t, tr) && Built(g, t, tr)
    requires d.stack == b.stack + [Entry(FindReduce(t, b.stack[|b.stack| - 1].stateno, a), a)]
    requires d.trees == b.trees + [tr] && d.shifted == Concat(d.trees)
    ensures Sound(g, t, past, d)
  {
    var top := |b.stack| - 1;
    var s := b.stack[top].stateno;
    assert GotoActionOk(g, t, past, s, a, FindReduce(t, s, a));
    assert PlaceOk(g, t, past, b, top);
    PushSound(g, t, past, b, d.stack[top + 1], tr, d);
  }

  lemma PopGotoSound(g: Grammar, t: Tables, past: seq<Past>, c: Conf, n: nat, b: Conf, a: nat, tr: Tree, d: Conf)
    requires Sound(g, t, past, c) && n < |c.stack| && (n > 0 || |c.stack| < STACK_DEPTH)
    requires b == Conf(c.stack[..|c.stack| - n], c.trees[..|c.trees| - n], [])
    requires HasGoto(g, b.stack[|b.stack| - 1].stateno, a) && a == Root(t, tr) && Built(g, t, tr)
    requires d.stack == b.stack + [Entry(FindReduce(t, b.stack[|b.stack| - 1].stateno, a), a)]
    requires d.trees == b.trees + [tr] && d.shifted == Concat(d.trees)
    ensures Sound(g, t, past, d)
  {
    PoppedOk(g, t, past, c, n, b);
    GotoSound(g, t, past, b, a, tr, d);
  }

  lemma ReduceSound(g: Grammar, t: Tables, past: seq<Past>, c: Conf, r: nat, d: Conf, kind: Kind)
    requires Sound(g, t, past, c) && Ready(t, c, r) && RhsOnTop(g, t, c, r) && (d, kind) == Reduce(t, c, r)
    ensures Sound(g, t, past, d)
  {
    var n := |g.rhs[r]|;
    if kind == Reduced {
      var keep := |c.trees| - n;
      var b := Conf(c.stack[..|c.stack| - n], c.trees[..keep], []);
      var node := Node(r, Kids(c.trees[keep..]));
      NodeBuilt(g, t, past, c, r, keep);
      PopGotoSound(g, t, past, c, n, b, t.ruleLhs[r], node, d);
    } else {
      EmptySound(g, t, past, d);
    }
  }

  lemma StateNeverAccepts(g: Grammar, t: Tables, past: seq<Past>, s: nat, y: nat)
    requires Consistent(g, t, past) && s <= MAX_SHIFT && y < NTOKEN
    ensures FindShift(t, s, y) != ACCEPT_ACTION
  {
    assert ActionOk(g, t, past, s, y, FindShift(t, s, y));
  }

  /** Acceptance: the one tree on the stack is the start symbol's, and the tokens shifted derive from it. */
  lemma AcceptedDerives(g: Grammar, t: Tables, past: seq<Past>, c: Conf, tok: Token)
    requires Sound(g, t, past, c) && tok.major < NTOKEN && Action(t, c, tok) == ACCEPT_ACTION
    ensures |c.stack| == 2 && c.stack[1].major == g.start
    ensures Derives(g, t, g.start, c.shifted)
  {
    var top := |c.stack| - 1;
    var code := c.stack[top].stateno;
    if code <= MAX_SHIFT {
      StateNeverAccepts(g, t, past, code, tok.major);
    }
    assert PlaceOk(g, t, past, c, 1);
    BuiltDerives(g, t, c.trees[0]);
    assert Concat(c.trees[..0]) == [];
    assert c.trees[..|c.trees| - 1] == [];
    assert Concat(c.trees) == Yield(c.trees[0]);
  }

  /** No assertion of the engine stops a round of the loop. */
  lemma NeverStuck(g: Grammar, t: Tables, past: seq<Past>, c: Conf, tok: Token)
    requires Sound(g, t, past, c) && tok.major < NTOKEN
    ensures CanIterate(t, c, tok)
  {
    if Action(t, c, tok) >= MIN_REDUCE {
      ActionReady(g, t, past, c, tok);
    }
  }

  /** Every round of the loop keeps the invariant, and acceptance means derivation. */
  lemma IterateSound(g: Grammar, t: Tables, past: seq<Past>, c: Conf, tok: Token, d: Conf, kind: Kind)
    requires Sound(g, t, past, c) && CanIterate(t, c, tok) && (d, kind) == Iterate(t, c, tok)
    ensures Sound(g, t, past, d)
    ensures kind == Accepted ==> Derives(g, t, g.start, c.shifted)
  {
    var act := Action(t, c, tok);
    if act >= MIN_REDUCE {
      ActionReady(g, t, past, c, tok);
      ReduceSound(g, t, past, c, act - MIN_REDUCE, d, kind);
    } else if act <= MAX_SHIFTREDUCE {
      ShiftSound(g, t, past, c, tok, d, kind);
    } else if act == ACCEPT_ACTION {
      AcceptedDerives(g, t, past, c, tok);
      EmptySound(g, t, past, d);
    }
  }

  /** SHIFTREDUCE is a shift now and the reduction as soon as the driver looks again, whatever token comes. */
  lemma ShiftReduceDefers(g: Grammar, t: Tables, past: seq<Past>, c: Conf, tok: Token, d: Conf, kind: Kind, r: nat,
          next: Token)
    requires Sound(g, t, past, c) && CanIterate(t, c, tok) && (d, kind) == Iterate(t, c, tok)
    requires Action(t, c, tok) == MIN_SHIFTREDUCE + r <= MAX_SHIFTREDUCE && |c.stack| < STACK_DEPTH
    requires next.major < NTOKEN
    ensures kind == Shifted && CanIterate(t, d, next) && Ready(t, d, r)
    ensures Iterate(t, d, next) == Reduce(t, d, r) && Iterate(t, d, next).1 == Reduced
  {
    IterateSound(g, t, past, c, tok, d, kind);
    NeverStuck(g, t, past, d, next);
    assert Action(t, d, next) == MIN_REDUCE + r;
    ActionReady(g, t, past, d, next);
    assert TopOk(g, t, past, d.stack);
  }

  /** States s of the driver: round i looks at token toks[i]. */
  ghost predicate Run(g: Grammar, t: Tables, past: seq<Past>, s: seq<Conf>, toks: seq<Token>) {
    && Consistent(g, t, past) && |s| == |toks| + 1 && s[0] == Init()
    && forall i :: 0 <= i < |toks| ==> Moves(t, s, toks, i)
  }

  ghost predicate Moves(t: Tables, s: seq<Conf>, toks: seq<Token>, i: nat)
    requires i < |toks| < |s|
  {
    CanIterate(t, s[i], toks[i]) && s[i + 1] == Iterate(t, s[i], toks[i]).0
  }

  ghost predicate Accepts(t: Tables, c: Conf, tok: Token) {
    CanIterate(t, c, tok) && Iterate(t, c, tok).1 == Accepted
  }

  /**
   Over whole runs: the stack stays within its array, its trees spell the tokens shifted, and acceptance is derivation.
   */
  lemma {:induction false} RunSound(g: Grammar, t: Tables, past: seq<Past>, s: seq<Conf>, toks: seq<Token>, i: nat)
    requires Run(g, t, past, s, toks) && i < |s|
    ensures Sound(g, t, past, s[i])
    ensures forall tok :: Accepts(t, s[i], tok) ==> Derives(g, t, g.start, s[i].shifted)
  {
    if i > 0 {
      RunSound(g, t, past, s, toks, i - 1);
      assert Moves(t, s, toks, i - 1);
      var (d, kind) := Iterate(t, s[i - 1], toks[i - 1]);
      IterateSound(g, t, past, s[i - 1], toks[i - 1], d, kind);
    } else {
      EmptySound(g, t, past, s[0]);
    }
    forall tok | Accepts(t, s[i], tok) ensures Derives(g, t, g.start, s[i].shifted) {
      var (d, kind) := Iterate(t, s[i], tok);
      IterateSound(g, t, past, s[i], tok, d, kind);
    }
  }

  /** A run never gets stuck: there is a next round for every token. */
  lemma RunExtends(g: Grammar, t: Tables, past: seq<Past>, s: seq<Conf>, toks: seq<Token>, tok: Token) returns (d: Conf)
    requires Run(g, t, past, s, toks) && tok.major < NTOKEN
    ensures Run(g, t, past, s + [d], toks + [tok])
    ensures CanIterate(t, s[|toks|], tok) && d == Iterate(t, s[|toks|], tok).0
  {
    RunSound(g, t, past, s, toks, |toks|);
    d := LastMoves(g, t, past, s, toks, tok);
    forall i | 0 <= i < |toks| ensures Moves(t, s + [d], toks + [tok], i) {
      MovesPrefix(t, s, toks, s + [d], toks + [tok], i);
    }
    assert (s + [d])[0] == s[0];
  }

  lemma LastMoves(g: Grammar, t: Tables, past: seq<Past>, s: seq<Conf>, toks: seq<Token>, tok: Token) returns (d: Conf)
    requires |s| == |toks| + 1 && Sound(g, t, past, s[|toks|]) && tok.major < NTOKEN
    ensures Moves(t, s + [d], toks + [tok], |toks|)
    ensures CanIterate(t, s[|toks|], tok) && d == Iterate(t, s[|toks|], tok).0
  {
    var c := s[|toks|];
    NeverStuck(g, t, past, c, tok);
    d := Iterate(t, c, tok).0;
    assert (s + [d])[|toks|] == c && (s + [d])[|toks| + 1] == d && (toks + [tok])[|toks|] == tok;
  }

  lemma MovesPrefix(t: Tables, s: seq<Conf>, toks: seq<Token>, s': seq<Conf>, toks': seq<Token>, i: nat)
    requires i < |toks| < |s| && |toks'| < |s'| && s <= s' && toks <= toks' && Moves(t, s, toks, i)
    ensures Moves(t, s', toks', i)
  {
    assert s'[i] == s[i] && s'[i + 1] == s[i + 1] && toks'[i] == toks[i];
  }
}
