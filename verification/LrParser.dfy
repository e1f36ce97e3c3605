/**
 The engine of the generated parser in its own form: a stack array, and a loop that reduces until the token is used.
 */
module LrParser {
  import opened LrTables
  import opened LrTrees
  import opened LrRun
  import opened LrDrive
  import opened LrEnds
  import opened LrComplete
  import opened LrAccepts

  class Parser {
    const t: Tables
    ghost const g: Grammar
    ghost const past: seq<Past>
    ghost const k: Ranking
    const yystack: array<Entry>
    var yytos: nat
    ghost var trees: seq<Tree>
    ghost var shifted: seq<Token>

    ghost function State(): Conf
      reads this, yystack
      requires yytos < yystack.Length
    {
      Conf(yystack[..yytos + 1], trees, shifted)
    }

    ghost predicate Valid()
      reads this, yystack
    {
      yystack.Length == STACK_DEPTH && yytos < STACK_DEPTH && Sound(g, t, past, State()) && Ranked(g, t, k)
    }

    constructor (t: Tables, ghost g: Grammar, ghost past: seq<Past>, ghost k: Ranking)
      requires Consistent(g, t, past) && Ranked(g, t, k)
      ensures Valid() && fresh(yystack) && this.t == t && this.g == g && this.past == past && this.k == k
      ensures State() == Init()
    {
      this.t, this.g, this.past, this.k := t, g, past, k;
      yystack := new Entry[STACK_DEPTH](_ => Entry(0, 0));
      yytos, trees, shifted := 0, [], [];
      new;
      assert yystack[..1] == [Entry(0, 0)];
      EmptySound(g, t, past, State());
    }

    /** yy_find_shift_action */
    method FindShiftAction(iLookAhead: nat, stateno: nat) returns (act: nat)
      requires TablesOk(t) && iLookAhead < NTOKEN
      ensures act == FindShift(t, stateno, iLookAhead)
    {
      if stateno > MAX_SHIFT {
        return stateno;
      }
      var y: nat := iLookAhead;
      while true
        invariant y < NTOKEN && FindShift(t, stateno, y) == FindShift(t, stateno, iLookAhead)
        decreases FallsBack(t, y)
      {
        var i := t.shiftOfst[stateno] + y;
        if i >= |t.lookahead| || t.lookahead[i] != y {
          if y < |t.fallback| && t.fallback[y] != 0 {
            y := t.fallback[y];
            continue;
          }
          var j := i - y + WILDCARD;
          if j < |t.lookahead| && t.lookahead[j] == WILDCARD && y > 0 {
            return t.action[j];
          }
          return t.defaults[stateno];
        }
        return t.action[i];
      }
    }

    /** yyStackOverflow */
    method StackOverflow()
      requires yytos < yystack.Length
      modifies this`yytos, this`trees, this`shifted
      ensures yytos < yystack.Length && State() == Overflow(old(State()))
    {
      while yytos > 0
        invariant yytos < yystack.Length && yytos <= old(yytos)
      {
        yytos := yytos - 1;
      }
      trees, shifted := [], [];
      assert yystack[..1] == yystack[..old(yytos) + 1][..1];
    }

    /** yy_shift */
    method YyShift(yyNewState: nat, tok: Token) returns (ghost kind: Kind)
      requires yystack.Length == STACK_DEPTH && yytos < STACK_DEPTH
      modifies yystack, this`yytos, this`trees, this`shifted
      ensures yytos < yystack.Length && (State(), kind) == Shift(old(State()), yyNewState, tok)
    {
      yytos := yytos + 1;
      if yytos > STACK_DEPTH - 1 {
        yytos := yytos - 1;
        StackOverflow();
        return Overflowed;
      }
      var stateno := yyNewState;
      if stateno > MAX_SHIFT {
        stateno := stateno + (MIN_REDUCE - MIN_SHIFTREDUCE);
      }
      yystack[yytos] := Entry(stateno, tok.major);
      trees, shifted := trees + [Leaf(tok)], shifted + [tok];
      kind := Shifted;
      assert yystack[..yytos + 1] == old(yystack[..yytos + 1]) + [yystack[yytos]];
    }

    /** yy_reduce, without the action code of the rule. */
    method YyReduce(yyruleno: nat) returns (ghost kind: Kind)
      requires yystack.Length == STACK_DEPTH && yytos < STACK_DEPTH && Ready(t, State(), yyruleno)
      modifies yystack, this`yytos, this`trees, this`shifted
      ensures yytos < yystack.Length && (State(), kind) == Reduce(t, old(State()), yyruleno)
    {
      ghost var c := State();
      if t.nRhs[yyruleno] == 0 {
        if yytos >= STACK_DEPTH - 1 {
          StackOverflow();
          return Overflowed;
        }
      }
      var yygoto, yysize := t.ruleLhs[yyruleno], t.nRhs[yyruleno];
      assert c.stack[|c.stack| - 1 + yysize] == yystack[yytos + yysize];
      var yyact := FindReduce(t, yystack[yytos + yysize].stateno, yygoto);
      var top := yytos + yysize + 1;
      yystack[top] := Entry(yyact, yygoto);
      yytos := top;
      ghost var keep := |trees| + yysize;
      trees := trees[..keep] + [Node(yyruleno, Kids(trees[keep..]))];
      kind := Reduced;
      assert yystack[..top + 1] == c.stack[..top] + [yystack[top]];
    }

    /** One round of the loop, from a sound state to a sound state. */
    method SoundRound(stateno: nat, tok: Token) returns (kind: Kind)
      requires Valid() && tok.major < NTOKEN && stateno == yystack[yytos].stateno
      modifies yystack, this`yytos, this`trees, this`shifted
      ensures Valid() && CanIterate(t, old(State()), tok) && (State(), kind) == Iterate(t, old(State()), tok)
    {
      ghost var c := State();
      RoundReady(g, t, past, c, tok);
      var yyact := FindShiftAction(tok.major, stateno);
      kind := Round(yyact, tok);
      IterateSound(g, t, past, c, tok, State(), kind);
    }

    /** The same, seen from the loop: `goal` is still what it comes to, and `rounds` are still enough. */
    method DriveOnce(stateno: nat, tok: Token, ghost rounds: nat, ghost goal: (Conf, Kind))
      returns (kind: Kind, yyact: nat)
      requires Valid() && tok.major < NTOKEN && stateno == yystack[yytos].stateno
      requires rounds > Potential(k, State(), tok) && goal == Drive(t, State(), tok, rounds)
      modifies yystack, this`yytos, this`trees, this`shifted
      ensures Valid() && yyact == yystack[yytos].stateno
      ensures goal == if kind == Reduced then Drive(t, State(), tok, rounds - 1) else (State(), kind)
      ensures kind == Reduced ==> rounds - 1 > Potential(k, State(), tok)
    {
      ghost var c := State();
      kind := SoundRound(stateno, tok);
      DriveRound(t, c, tok, rounds, State(), kind, goal);
      if kind == Reduced {
        ReductionFalls(g, t, past, k, c, tok, State());
      }
      yyact := yystack[yytos].stateno;
    }

    /** The loop of sqlite3Parser. */
    method FeedLoop(tok: Token) returns (kind: Kind)
      requires Valid() && tok.major < NTOKEN
      modifies yystack, this`yytos, this`trees, this`shifted
      ensures Valid() && kind != Reduced && (State(), kind) == Drive(t, old(State()), tok, Rounds(k))
    {
      ghost var n: nat := Rounds(k);
      ghost var goal := Drive(t, State(), tok, n);
      PotentialBounded(g, t, past, k, State(), tok);
      kind := Reduced;
      var yyact := yystack[yytos].stateno;
      while kind == Reduced
        invariant Valid() && yyact == yystack[yytos].stateno
        invariant goal == if kind == Reduced then Drive(t, State(), tok, n) else (State(), kind)
        invariant kind == Reduced ==> n > Potential(k, State(), tok)
        decreases n
      {
        kind, yyact := DriveOnce(yyact, tok, n, goal);
        n := n - 1;
      }
    }

    /** sqlite3Parser */
    method Feed(tok: Token) returns (kind: Kind)
      requires Valid() && tok.major < NTOKEN
      modifies yystack, this`yytos, this`trees, this`shifted
      ensures Valid() && kind != Reduced && (State(), kind) == Drive(t, old(State()), tok, Rounds(k))
      ensures Answers(g, t, old(State()), tok, State(), kind)
    {
      ghost var c := State();
      kind := FeedLoop(tok);
      DriveAnswers(g, t, past, c, tok, Rounds(k), State(), kind);
    }

    /** One round of the loop, once the action is known. */
    method Round(yyact: nat, tok: Token) returns (kind: Kind)
      requires yystack.Length == STACK_DEPTH && yytos < STACK_DEPTH && CanIterate(t, State(), tok)
      requires yyact == Action(t, State(), tok)
      requires yyact == ACCEPT_ACTION ==> yytos == 1
      modifies yystack, this`yytos, this`trees, this`shifted
      ensures yytos < yystack.Length && (State(), kind) == Iterate(t, old(State()), tok)
      ensures kind == Accepted || kind == Overflowed ==> yytos == 0 && shifted == []
    {
      ghost var c := State();
      if yyact >= MIN_REDUCE {
        var full := t.nRhs[yyact - MIN_REDUCE] == 0 && yytos >= STACK_DEPTH - 1;
        ghost var k := YyReduce(yyact - MIN_REDUCE);
        kind := if full then Overflowed else Reduced;
      } else if yyact <= MAX_SHIFTREDUCE {
        var full := yytos + 1 > STACK_DEPTH - 1;
        ghost var k := YyShift(yyact, tok);
        kind := if full then Overflowed else Shifted;
      } else if yyact == ACCEPT_ACTION {
        yytos := yytos - 1;
        trees, shifted := [], [];
        kind := Accepted;
        assert yystack[..1] == c.stack[..1];
      } else {
        kind := Failed;
      }
    }

    /** A whole input, as sqlite3RunParser feeds it: token by token up to the end mark, given up at the first error. */
    method Parse(tokens: seq<Token>, end: Token) returns (accepted: bool)
      requires Valid() && end.major < NTOKEN && AllTokens(tokens)
      modifies yystack, this`yytos, this`trees, this`shifted
      ensures Valid() && (State(), accepted) == Parsed(t, old(State()), tokens, end, Rounds(k))
      ensures accepted ==> Derives(g, t, g.start, old(shifted) + tokens)
      ensures old(State()) == Init() ==> (accepted <==> exists tr :: Followed(t, tr, tokens, end))
      ensures old(State()) == Init() && accepted ==> State() == Init()
    {
      ghost var first, goal := State(), Parsed(t, State(), tokens, end, Rounds(k));
      ParsedDerives(g, t, past, first, tokens, end, Rounds(k), goal.0, goal.1);
      if first == Init() {
        AcceptsExactly(g, t, past, k, tokens, end, goal.0, goal.1);
      }
      var i := 0;
      while i < |tokens|
        invariant 0 <= i <= |tokens| && Valid()
        invariant goal == Parsed(t, State(), tokens[i..], end, Rounds(k))
      {
        assert tokens[i..][0] == tokens[i] && tokens[i..][1..] == tokens[i + 1..];
        var kind := Feed(tokens[i]);
        if kind != Shifted {
          return false;
        }
        i := i + 1;
      }
      var kind := Feed(end);
      accepted := kind == Accepted;
    }
  }
}
