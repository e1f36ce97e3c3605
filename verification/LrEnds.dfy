/** Why the driver comes to an end with every token: each reduction lowers a potential. */
module LrEnds {
  import opened LrTables
  import opened LrTrees
  import opened LrRun
  import opened LrDrive

  /** A number for every code on top of the stack and every token, none above `bound`. */
  datatype Ranking = Ranking(rank: (nat, nat) -> nat, bound: nat)

  /** Reducing by rule r on token y, with code s on top: what the new code gains is less than what the stack loses. */
  ghost predicate Falls(g: Grammar, t: Tables, k: Ranking, s: nat, y: nat, r: nat)
    requires GrammarOk(g, t) && r < NRULE
  {
    forall p: nat :: HasGoto(g, p, t.ruleLhs[r]) && (t.nRhs[r] == 0 ==> p == s) ==>
      k.rank(FindReduce(t, p, t.ruleLhs[r]), y) + 2 + t.nRhs[r] <= k.rank(s, y)
  }

  /** Finitely many checks again: no chain of reductions on one token gets round in a circle. */
  ghost predicate Ranked(g: Grammar, t: Tables, k: Ranking) {
    && GrammarOk(g, t)
    && (forall s: nat, y: nat :: k.rank(s, y) <= k.bound)
    && forall s: nat, y: nat :: y < NTOKEN && MIN_REDUCE <= FindShift(t, s, y) < MIN_REDUCE + NRULE ==>
         Falls(g, t, k, s, y, FindShift(t, s, y) - MIN_REDUCE)
  }

  /** The height of the stack and the rank of its top. */
  ghost function Potential(k: Ranking, c: Conf, tok: Token): nat
    requires c.stack != []
  {
    |c.stack| + k.rank(c.stack[|c.stack| - 1].stateno, tok.major)
  }

  /** No sound configuration has more, and so no token takes more rounds. */
  ghost function Rounds(k: Ranking): nat {
    STACK_DEPTH + k.bound + 1
  }

  lemma PotentialBounded(g: Grammar, t: Tables, past: seq<Past>, k: Ranking, c: Conf, tok: Token)
    requires Sound(g, t, past, c) && Ranked(g, t, k)
    ensures Potential(k, c, tok) < Rounds(k)
  {
    assert k.rank(c.stack[|c.stack| - 1].stateno, tok.major) <= k.bound;
  }

  /** A round that reduces lowers the potential. */
  lemma ReductionFalls(g: Grammar, t: Tables, past: seq<Past>, k: Ranking, c: Conf, tok: Token, d: Conf)
    requires Sound(g, t, past, c) && Ranked(g, t, k)
    requires CanIterate(t, c, tok) && (d, Reduced) == Iterate(t, c, tok)
    ensures d.stack != [] && Potential(k, d, tok) < Potential(k, c, tok)
  {
    var s, r := c.stack[|c.stack| - 1].stateno, Action(t, c, tok) - MIN_REDUCE;
    ActionReady(g, t, past, c, tok);
    assert Falls(g, t, k, s, tok.major, r);
    var p := c.stack[|c.stack| - 1 + t.nRhs[r]].stateno;
    assert HasGoto(g, p, t.ruleLhs[r]);
    assert k.rank(FindReduce(t, p, t.ruleLhs[r]), tok.major) + 2 + t.nRhs[r] <= k.rank(s, tok.major);
  }

  /** So every token is answered: shifted, accepted on or refused, unless the stack runs over. */
  lemma {:induction false} DriveEnds(g: Grammar, t: Tables, past: seq<Past>, k: Ranking, c: Conf, tok: Token,
          rounds: nat)
    requires Sound(g, t, past, c) && Ranked(g, t, k) && tok.major < NTOKEN && rounds > Potential(k, c, tok)
    ensures Drive(t, c, tok, rounds).1 != Reduced
    decreases rounds
  {
    NeverStuck(g, t, past, c, tok);
    var (d, kind) := Iterate(t, c, tok);
    if kind == Reduced {
      IterateSound(g, t, past, c, tok, d, kind);
      ReductionFalls(g, t, past, k, c, tok, d);
      DriveEnds(g, t, past, k, d, tok, rounds - 1);
    }
  }

  /** And every input: no bound from Rounds on makes a difference. */
  lemma {:induction false} ParsedEnds(g: Grammar, t: Tables, past: seq<Past>, k: Ranking, c: Conf, tokens: seq<Token>,
        end: Token, rounds: nat)
    requires Sound(g, t, past, c) && Ranked(g, t, k) && rounds >= Rounds(k)
    requires end.major < NTOKEN && forall i :: 0 <= i < |tokens| ==> tokens[i].major < NTOKEN
    ensures Parsed(t, c, tokens, end, rounds) == Parsed(t, c, tokens, end, Rounds(k))
    decreases |tokens|
  {
    var tok := if tokens == [] then end else tokens[0];
    PotentialBounded(g, t, past, k, c, tok);
    DriveEnds(g, t, past, k, c, tok, Rounds(k));
    MoreRounds(t, c, tok, Rounds(k), rounds);
    var (d, kind) := Drive(t, c, tok, rounds);
    DriveAnswers(g, t, past, c, tok, rounds, d, kind);
    if tokens != [] && kind == Shifted {
      ParsedEnds(g, t, past, k, d, tokens[1..], end, rounds);
    }
  }
}
