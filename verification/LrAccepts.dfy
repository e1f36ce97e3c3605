/** The driver accepts exactly the inputs with a tree that the tables follow and the stack has room for. */
module LrAccepts {
  import opened LrTables
  import opened LrTrees
  import opened LrRun
  import opened LrDrive
  import opened LrEnds
  import opened LrComplete

  /** Tree k on the stack was built as the tables lead from code k to code k + 1, with y behind everything. */
  ghost predicate TracedAt(t: Tables, c: Conf, y: nat, k: nat)
    requires TablesOk(t) && k < |c.trees| && |c.stack| == |c.trees| + 1
  {
    var x := First(Concat(c.trees[k + 1..]), y);
    x < NTOKEN && Goes(t, c.stack[k].stateno, c.trees[k], x) == To(c.stack[k + 1].stateno) && HasRoom(c.trees[k], k + 1)
  }

  ghost predicate Traced(t: Tables, c: Conf, y: nat) {
    && TablesOk(t) && |c.stack| == |c.trees| + 1
    && forall k :: 0 <= k < |c.trees| ==> TracedAt(t, c, y, k)
  }

  /** What comes first does not depend on how it is put together. */
  lemma FirstJoin(a: seq<Token>, b: seq<Token>, y: nat)
    ensures First(a + b, y) == First(a, First(b, y))
  {
    if a == [] {
      assert a + b == b;
    }
  }

  /** After a shift, tree k is as before: what came next was the token that is now on the stack. */
  lemma ShiftTracedAt(t: Tables, c: Conf, tok: Token, d: Conf, y: nat, k: nat)
    requires TablesOk(t) && |c.stack| == |c.trees| + 1 && k < |c.trees| && TracedAt(t, c, tok.major, k)
    requires d.trees == c.trees + [Leaf(tok)] && |d.stack| == |d.trees| + 1 && d.stack[..|c.stack|] == c.stack
    ensures TracedAt(t, d, y, k)
  {
    var behind := c.trees[k + 1..];
    assert d.trees[k + 1..] == behind + [Leaf(tok)];
    ConcatSnoc(behind, Leaf(tok));
    FirstJoin(Concat(behind), [tok], y);
    assert d.stack[k] == d.stack[..|c.stack|][k] && d.stack[k + 1] == d.stack[..|c.stack|][k + 1];
  }

  lemma ShiftTraced(t: Tables, c: Conf, tok: Token, d: Conf, y: nat)
    requires Traced(t, c, tok.major) && CanIterate(t, c, tok) && (d, Shifted) == Iterate(t, c, tok) && y < NTOKEN
    ensures Traced(t, d, y)
  {
    forall k | 0 <= k < |d.trees| ensures TracedAt(t, d, y, k) {
      if k < |c.trees| {
        ShiftTracedAt(t, c, tok, d, y, k);
      } else {
        assert d.trees[k + 1..] == [];
      }
    }
  }

  /** The trees from place `keep` to place m, as the children of a node. */
  lemma {:induction false} PoppedTraced(t: Tables, c: Conf, y: nat, keep: nat, m: nat, behind: seq<Token>)
    requires Traced(t, c, y) && keep <= m <= |c.trees| && behind == Concat(c.trees[m..]) && y < NTOKEN
    ensures First(behind, y) < NTOKEN
    ensures GoesAll(t, c.stack[keep].stateno, Kids(c.trees[keep..m]), First(behind, y)) == To(c.stack[m].stateno)
    ensures HasRoomAll(Kids(c.trees[keep..m]), keep + 1)
    decreases m
  {
    if keep == m {
      assert c.trees[keep..m] == [];
      if m < |c.trees| {
        FirstOfRest(t, c, y, m);
      }
    } else {
      var last := c.trees[m - 1];
      assert TracedAt(t, c, y, m - 1);
      assert c.trees[keep..m][..m - keep - 1] == c.trees[keep..m - 1];
      ConcatCons(c.trees, m - 1);
      FirstJoin(Yield(last), behind, y);
      PoppedTraced(t, c, y, keep, m - 1, Concat(c.trees[m - 1..]));
    }
  }

  lemma FirstOfRest(t: Tables, c: Conf, y: nat, m: nat)
    requires Traced(t, c, y) && m < |c.trees| && y < NTOKEN
    ensures First(Concat(c.trees[m..]), y) < NTOKEN
  {
    assert TracedAt(t, c, y, m);
    var x := First(Concat(c.trees[m + 1..]), y);
    GoesFirst(t, c.stack[m].stateno, c.trees[m], x);
    ConcatCons(c.trees, m);
    FirstJoin(Yield(c.trees[m]), Concat(c.trees[m + 1..]), y);
  }

  /** The tables lead over tokens only. */
  lemma {:induction false} GoesFirst(t: Tables, s: nat, tr: Tree, y: nat)
    requires TablesOk(t) && y < NTOKEN && Goes(t, s, tr, y).To?
    ensures First(Yield(tr), y) < NTOKEN
    decreases tr
  {
    match tr
    case Leaf(_) =>
    case Node(_, kids) => GoesAllFirst(t, s, kids, y);
  }

  lemma {:induction false} GoesAllFirst(t: Tables, s: nat, f: Forest, y: nat)
    requires TablesOk(t) && y < NTOKEN && GoesAll(t, s, f, y).To?
    ensures First(Yields(f), y) < NTOKEN
    decreases f
  {
    match f
    case Empty =>
    case Snoc(init, last) =>
      GoesAllFirst(t, s, init, First(Yield(last), y));
      FirstJoin(Yields(init), Yield(last), y);
  }

  lemma {:induction false} ConcatCons(trees: seq<Tree>, m: nat)
    requires m < |trees|
    ensures Concat(trees[m..]) == Yield(trees[m]) + Concat(trees[m + 1..])
  {
    assert trees[m..] == [trees[m]] + trees[m + 1..];
    ConcatSplit([trees[m]], trees[m + 1..]);
    assert Concat([trees[m]]) == Yield(trees[m]) by {
      ConcatSnoc([], trees[m]);
      assert [] + [trees[m]] == [trees[m]];
    }
  }

  /** After a reduction a tree below it is as before: the new node spells what its children spelled. */
  lemma BelowTraced(t: Tables, c: Conf, y: nat, r: nat, keep: nat, d: Conf, k: nat)
    requires Traced(t, c, y) && k < keep <= |c.trees| && TracedAt(t, c, y, k)
    requires d.trees == c.trees[..keep] + [Node(r, Kids(c.trees[keep..]))]
    requires |d.stack| == |d.trees| + 1 && d.stack[..keep + 1] == c.stack[..keep + 1]
    ensures TracedAt(t, d, y, k)
  {
    var front, popped := c.trees[k + 1..keep], c.trees[keep..];
    assert d.trees[k + 1..] == front + [Node(r, Kids(popped))];
    assert c.trees[k + 1..] == front + popped;
    NodeSpells(front, popped, r, c.trees[k + 1..]);
    assert d.stack[k] == d.stack[..keep + 1][k] && d.stack[k + 1] == d.stack[..keep + 1][k + 1];
  }

  lemma ReduceTraced(t: Tables, c: Conf, tok: Token, d: Conf)
    requires Traced(t, c, tok.major) && CanIterate(t, c, tok) && (d, Reduced) == Iterate(t, c, tok)
    ensures Traced(t, d, tok.major)
  {
    var y, r := tok.major, Action(t, c, tok) - MIN_REDUCE;
    var n := -t.nRhs[r];
    var keep := |c.trees| - n;
    forall k | 0 <= k < |d.trees| ensures TracedAt(t, d, y, k) {
      if k < keep {
        assert d.stack[..keep + 1] == c.stack[..keep + 1];
        BelowTraced(t, c, y, r, keep, d, k);
      } else {
        NodeTraced(t, c, y, r, keep, d);
      }
    }
  }

  lemma NodeTraced(t: Tables, c: Conf, y: nat, r: nat, keep: nat, d: Conf)
    requires Traced(t, c, y) && y < NTOKEN && Ready(t, c, r) && keep == |c.trees| + t.nRhs[r]
    requires FindShift(t, Top(c), y) == MIN_REDUCE + r && !(t.nRhs[r] == 0 && |c.stack| >= STACK_DEPTH)
    requires d == Reduce(t, c, r).0
    ensures |d.trees| == keep + 1 && |d.stack| == keep + 2 && TracedAt(t, d, y, keep)
  {
    var m := |c.trees|;
    assert c.trees[m..] == [] && c.trees[keep..m] == c.trees[keep..];
    PoppedTraced(t, c, y, keep, m, []);
    assert d.trees[keep + 1..] == [];
    assert d.stack[keep] == c.stack[keep];
  }

  lemma RoundTraced(g: Grammar, t: Tables, past: seq<Past>, c: Conf, tok: Token, e: Conf, kind: Kind)
    requires Sound(g, t, past, c) && tok.major < NTOKEN && Traced(t, c, tok.major)
    requires CanIterate(t, c, tok) && (e, kind) == Iterate(t, c, tok)
    ensures kind == Reduced ==> Traced(t, e, tok.major)
    ensures kind == Shifted ==> forall y: nat :: y < NTOKEN ==> Traced(t, e, y)
    ensures kind == Accepted ==> exists tr :: Followed(t, tr, c.shifted, tok)
  {
    if kind == Reduced {
      ReduceTraced(t, c, tok, e);
    } else if kind == Shifted {
      forall y: nat | y < NTOKEN ensures Traced(t, e, y) {
        ShiftTraced(t, c, tok, e, y);
      }
    } else if kind == Accepted {
      AcceptTraced(g, t, past, c, tok);
    }
  }

  /** After a shift the trees are traced whatever comes next, and after acceptance there is one tree. */
  lemma {:induction false} DriveTraced(g: Grammar, t: Tables, past: seq<Past>, c: Conf, tok: Token, rounds: nat,
          d: Conf, kind: Kind)
    requires Sound(g, t, past, c) && tok.major < NTOKEN && Traced(t, c, tok.major)
    requires (d, kind) == Drive(t, c, tok, rounds)
    ensures kind == Shifted ==> forall y: nat :: y < NTOKEN ==> Traced(t, d, y)
    ensures kind == Accepted ==> exists tr :: Followed(t, tr, c.shifted, tok)
    decreases rounds
  {
    if rounds > 0 {
      NeverStuck(g, t, past, c, tok);
      var (e, first) := Iterate(t, c, tok);
      RoundTraced(g, t, past, c, tok, e, first);
      DriveRound(t, c, tok, rounds, e, first, (d, kind));
      if first == Reduced {
        IterateAnswers(g, t, past, c, tok, e, first);
        DriveTraced(g, t, past, e, tok, rounds - 1, d, kind);
      }
    }
  }

  lemma AcceptTraced(g: Grammar, t: Tables, past: seq<Past>, c: Conf, tok: Token)
    requires Sound(g, t, past, c) && tok.major < NTOKEN && Traced(t, c, tok.major)
    requires CanIterate(t, c, tok) && Action(t, c, tok) == ACCEPT_ACTION
    ensures |c.trees| == 1 && Followed(t, c.trees[0], c.shifted, tok)
  {
    AcceptedDerives(g, t, past, c, tok);
    var code := c.stack[1].stateno;
    if code <= MAX_SHIFT {
      StateNeverAccepts(g, t, past, code, tok.major);
    }
    assert TracedAt(t, c, tok.major, 0);
    assert c.trees[1..] == [] && c.trees == [c.trees[0]];
    ConcatCons(c.trees, 0);
    assert c.trees[0..] == c.trees;
  }

  lemma {:induction false} ParsedTraced(g: Grammar, t: Tables, past: seq<Past>, c: Conf, tokens: seq<Token>, end: Token,
          rounds: nat, d: Conf)
    requires Sound(g, t, past, c) && end.major < NTOKEN && AllTokens(tokens)
    requires Traced(t, c, Ahead(tokens, end).major) && (d, true) == Parsed(t, c, tokens, end, rounds)
    ensures exists tr :: Followed(t, tr, c.shifted + tokens, end)
    decreases |tokens|
  {
    var tok := Ahead(tokens, end);
    var (e, kind) := Drive(t, c, tok, rounds);
    DriveAnswers(g, t, past, c, tok, rounds, e, kind);
    DriveTraced(g, t, past, c, tok, rounds, e, kind);
    ShiftedTokens(c, tokens, e);
    if tokens != [] {
      ParsedTraced(g, t, past, e, tokens[1..], end, rounds, d);
    }
  }

  /**
   Acceptance, both ways: an input is accepted if and only if there is a tree over its tokens that the tables follow and
   the stack has room for; and then the stack is back at the first state alone.
   */
  lemma AcceptsExactly(g: Grammar, t: Tables, past: seq<Past>, k: Ranking, tokens: seq<Token>, end: Token, d: Conf,
          accepted: bool)
    requires Consistent(g, t, past) && Ranked(g, t, k) && end.major < NTOKEN && AllTokens(tokens)
    requires (d, accepted) == Parsed(t, Init(), tokens, end, Rounds(k))
    ensures accepted <==> exists tr :: Followed(t, tr, tokens, end)
    ensures accepted ==> d == Init()
  {
    EmptySound(g, t, past, Init());
    if accepted {
      ParsedTraced(g, t, past, Init(), tokens, end, Rounds(k), d);
      assert [] + tokens == tokens;
    }
    if tr :| Followed(t, tr, tokens, end) {
      FollowedIsAccepted(g, t, past, k, tr, tokens, end);
    }
  }
}
