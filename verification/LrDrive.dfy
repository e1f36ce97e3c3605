/** The driver over one token and over a whole input: what the parsing loop computes, and that it is a run. */
module LrDrive {
  import opened LrTables
  import opened LrTrees
  import opened LrRun

  /**
   sqlite3Parser: rounds until the token is shifted, accepted on or refused, or the stack runs over, `rounds` at most.
   */
  ghost function Drive(t: Tables, c: Conf, tok: Token, rounds: nat): (Conf, Kind)
    decreases rounds
  {
    if rounds == 0 || !CanIterate(t, c, tok) then (c, Reduced)
    else
      var (d, kind) := Iterate(t, c, tok);
      if kind == Reduced then Drive(t, d, tok, rounds - 1) else (d, kind)
  }

  /** A whole input, token by token up to the end mark, given up at the first token that is not shifted. */
  ghost function Parsed(t: Tables, c: Conf, tokens: seq<Token>, end: Token, rounds: nat): (Conf, bool)
    decreases |tokens|
  {
    if tokens == [] then
      var (d, kind) := Drive(t, c, end, rounds);
      (d, kind == Accepted)
    else
      var (d, kind) := Drive(t, c, tokens[0], rounds);
      if kind == Shifted then Parsed(t, d, tokens[1..], end, rounds) else (d, false)
  }

  /** Feeding a token, one round at a time. */
  lemma DriveRound(t: Tables, c: Conf, tok: Token, rounds: nat, d: Conf, kind: Kind, goal: (Conf, Kind))
    requires rounds > 0 && goal == Drive(t, c, tok, rounds) && CanIterate(t, c, tok) && (d, kind) == Iterate(t, c, tok)
    ensures goal == if kind == Reduced then Drive(t, d, tok, rounds - 1) else (d, kind)
  {
  }

  /** What an answer says about the tokens on the stack. */
  ghost predicate Answers(g: Grammar, t: Tables, c: Conf, tok: Token, d: Conf, kind: Kind) {
    && (kind == Reduced || kind == Failed ==> d.shifted == c.shifted)
    && (kind == Shifted ==> d.shifted == c.shifted + [tok])
    && (kind == Accepted ==> GrammarOk(g, t) && Derives(g, t, g.start, c.shifted))
    && (kind == Accepted || kind == Overflowed ==> |d.stack| == 1 && d.shifted == [])
  }

  lemma IterateAnswers(g: Grammar, t: Tables, past: seq<Past>, c: Conf, tok: Token, d: Conf, kind: Kind)
    requires Sound(g, t, past, c) && CanIterate(t, c, tok) && (d, kind) == Iterate(t, c, tok)
    ensures Sound(g, t, past, d) && Answers(g, t, c, tok, d, kind)
  {
    IterateSound(g, t, past, c, tok, d, kind);
    if Action(t, c, tok) == ACCEPT_ACTION {
      AcceptedDerives(g, t, past, c, tok);
    }
  }

  /** What the driver needs for its next round. */
  lemma RoundReady(g: Grammar, t: Tables, past: seq<Past>, c: Conf, tok: Token)
    requires Sound(g, t, past, c) && tok.major < NTOKEN
    ensures CanIterate(t, c, tok) && (Action(t, c, tok) == ACCEPT_ACTION ==> |c.stack| == 2)
  {
    NeverStuck(g, t, past, c, tok);
    if Action(t, c, tok) == ACCEPT_ACTION {
      AcceptedDerives(g, t, past, c, tok);
    }
  }

  lemma {:induction false} DriveAnswers(g: Grammar, t: Tables, past: seq<Past>, c: Conf, tok: Token, rounds: nat,
        d: Conf, kind: Kind)
    requires Sound(g, t, past, c) && tok.major < NTOKEN && (d, kind) == Drive(t, c, tok, rounds)
    ensures Sound(g, t, past, d) && Answers(g, t, c, tok, d, kind)
    decreases rounds
  {
    if rounds > 0 {
      NeverStuck(g, t, past, c, tok);
      var (e, first) := Iterate(t, c, tok);
      IterateAnswers(g, t, past, c, tok, e, first);
      if first == Reduced {
        DriveAnswers(g, t, past, e, tok, rounds - 1, d, kind);
      }
    }
  }

  /** Once the rounds are enough for an answer, more of them change nothing. */
  lemma {:induction false} MoreRounds(t: Tables, c: Conf, tok: Token, rounds: nat, more: nat)
    requires Drive(t, c, tok, rounds).1 != Reduced && rounds <= more
    ensures Drive(t, c, tok, more) == Drive(t, c, tok, rounds)
    decreases rounds
  {
    var (d, kind) := Iterate(t, c, tok);
    if kind == Reduced {
      MoreRounds(t, d, tok, rounds - 1, more - 1);
    }
  }

  function Repeat(tok: Token, k: nat): seq<Token> {
    seq(k, _ => tok)
  }

  /** Feeding a token continues a run: each round looks at that token, and the last state is the one it is left in. */
  lemma {:induction false} DriveIsRun(g: Grammar, t: Tables, past: seq<Past>, s: seq<Conf>, toks: seq<Token>,
          tok: Token, rounds: nat, c: Conf, goal: (Conf, Kind))
    returns (more: seq<Conf>)
    requires Run(g, t, past, s, toks) && tok.major < NTOKEN && c == s[|toks|] && goal == Drive(t, c, tok, rounds)
    ensures |more| <= rounds && Run(g, t, past, s + more, toks + Repeat(tok, |more|))
    ensures (s + more)[|toks| + |more|] == goal.0
    ensures goal.1 == Reduced ==> |more| == rounds
    decreases rounds
  {
    more := [];
    assert s + more == s && toks + Repeat(tok, 0) == toks;
    if rounds > 0 {
      var d := RunExtends(g, t, past, s, toks, tok);
      var kind := Iterate(t, c, tok).1;
      DriveRound(t, c, tok, rounds, d, kind, goal);
      var s', toks' := s + [d], toks + [tok];
      if kind == Reduced {
        var rest := DriveIsRun(g, t, past, s', toks', tok, rounds - 1, d, goal);
        JoinRun(s, toks, tok, d, rest);
        more := [d] + rest;
      } else {
        JoinRun(s, toks, tok, d, []);
        more := [d];
      }
    }
  }

  lemma JoinRun(s: seq<Conf>, toks: seq<Token>, tok: Token, d: Conf, rest: seq<Conf>)
    ensures s + ([d] + rest) == (s + [d]) + rest
    ensures toks + Repeat(tok, |[d] + rest|) == (toks + [tok]) + Repeat(tok, |rest|)
    ensures toks + Repeat(tok, 1) == toks + [tok]
  {
  }

  /** An accepted input derives from the start symbol as a whole. */
  lemma {:induction false} ParsedDerives(g: Grammar, t: Tables, past: seq<Past>, c: Conf, tokens: seq<Token>,
          end: Token, rounds: nat, d: Conf, accepted: bool)
    requires Sound(g, t, past, c) && (d, accepted) == Parsed(t, c, tokens, end, rounds)
    requires end.major < NTOKEN && forall i :: 0 <= i < |tokens| ==> tokens[i].major < NTOKEN
    ensures Sound(g, t, past, d) && (accepted ==> Derives(g, t, g.start, c.shifted + tokens))
    decreases |tokens|
  {
    var tok := if tokens == [] then end else tokens[0];
    var (e, kind) := Drive(t, c, tok, rounds);
    DriveAnswers(g, t, past, c, tok, rounds, e, kind);
    if tokens != [] && kind == Shifted {
      ParsedDerives(g, t, past, e, tokens[1..], end, rounds, d, accepted);
    }
    ShiftedTokens(c, tokens, e);
  }

  lemma ShiftedTokens(c: Conf, tokens: seq<Token>, e: Conf)
    ensures tokens == [] ==> c.shifted + tokens == c.shifted
    ensures tokens != [] && e.shifted == c.shifted + [tokens[0]] ==> e.shifted + tokens[1..] == c.shifted + tokens
  {
  }

  /** An input that is accepted with some bound on the rounds is accepted with every larger one. */
  lemma {:induction false} ParsedMoreRounds(t: Tables, c: Conf, tokens: seq<Token>, end: Token, rounds: nat, more: nat)
    requires Parsed(t, c, tokens, end, rounds).1 && rounds <= more
    ensures Parsed(t, c, tokens, end, more) == Parsed(t, c, tokens, end, rounds)
    decreases |tokens|
  {
    if tokens == [] {
      MoreRounds(t, c, end, rounds, more);
    } else {
      MoreRounds(t, c, tokens[0], rounds, more);
      ParsedMoreRounds(t, Drive(t, c, tokens[0], rounds).0, tokens[1..], end, rounds, more);
    }
  }
}
