/** The action tables of the generated parser, and what it takes for them to fit a grammar. */
module LrTables {

  const NOCODE: nat := 278
  const WILDCARD: nat := 91
  const STACK_DEPTH: nat := 100
  const NRULE: nat := 369
  const NTOKEN: nat := 155
  const MAX_SHIFT: nat := 527
  const MIN_SHIFTREDUCE: nat := 764
  const MAX_SHIFTREDUCE: nat := 1132
  const ERROR_ACTION: nat := 1133
  const ACCEPT_ACTION: nat := 1134
  const MIN_REDUCE: nat := 1136

  /** The constant arrays; nRhs holds the negated lengths of the right-hand sides. */
  datatype Tables = Tables(
    shiftOfst: seq<nat>, reduceOfst: seq<int>, lookahead: seq<nat>, action: seq<nat>, defaults: seq<nat>,
    fallback: seq<nat>, ruleLhs: seq<nat>, nRhs: seq<int>)

  /** Sizes, and what the assertions of the engine say about the arrays. */
  ghost predicate TablesOk(t: Tables) {
    && |t.shiftOfst| == MAX_SHIFT + 1 && |t.defaults| == MAX_SHIFT + 1
    && |t.action| <= |t.lookahead|
    && (forall i :: |t.action| <= i < |t.lookahead| ==> t.lookahead[i] == NOCODE)
    && |t.fallback| <= NTOKEN
    && (forall y :: 0 <= y < |t.fallback| ==> t.fallback[y] < |t.fallback| && t.fallback[t.fallback[y]] == 0)
    && |t.ruleLhs| == NRULE && |t.nRhs| == NRULE
    && (forall r :: 0 <= r < NRULE ==> NTOKEN <= t.ruleLhs[r] < NOCODE && t.nRhs[r] <= 0)
  }

  predicate FallsBack(t: Tables, y: nat) {
    y < |t.fallback| && t.fallback[y] != 0
  }

  /** The table has an action of its own for y at this offset. */
  predicate Listed(t: Tables, ofst: int, y: nat) {
    0 <= ofst + y < |t.action| && |t.action| <= |t.lookahead| && t.lookahead[ofst + y] == y
  }

  /** yy_find_shift_action */
  ghost function FindShift(t: Tables, s: nat, y: nat): nat
    requires TablesOk(t) && y < NTOKEN
    decreases FallsBack(t, y)
  {
    if s > MAX_SHIFT then s
    else
      var ofst := t.shiftOfst[s];
      if Listed(t, ofst, y) then t.action[ofst + y]
      else if FallsBack(t, y) then FindShift(t, s, t.fallback[y])
      else if Listed(t, ofst, WILDCARD) && y > 0 then t.action[ofst + WILDCARD]
      else t.defaults[s]
  }

  /** A grammar may ask for x where the input has token y: by fallback, or because x is the wildcard. */
  predicate StandsFor(t: Tables, x: nat, y: nat) {
    x == y || (FallsBack(t, y) && t.fallback[y] == x) || (x == WILDCARD && 0 < y < NTOKEN)
  }

  /** An action is the default, or the table's for a token the input token may stand for. */
  lemma FindShiftStandsFor(t: Tables, s: nat, y: nat) returns (x: nat)
    requires TablesOk(t) && s <= MAX_SHIFT && y < NTOKEN
    ensures FindShift(t, s, y) == t.defaults[s]
      || (StandsFor(t, x, y) && Listed(t, t.shiftOfst[s], x) && FindShift(t, s, y) == t.action[t.shiftOfst[s] + x])
  {
    x := y;
    if Listed(t, t.shiftOfst[s], y) {
    } else if FallsBack(t, y) {
      x := t.fallback[y];
      if !Listed(t, t.shiftOfst[s], x) {
        x := WILDCARD;
      }
    } else {
      x := WILDCARD;
    }
  }

  /** Which entry it is: that of the token itself, else of its fallback, else of the wildcard, else the default. */
  lemma FindShiftPrefers(t: Tables, s: nat, y: nat, ofst: nat, a: nat)
    requires TablesOk(t) && s <= MAX_SHIFT && y < NTOKEN && ofst == t.shiftOfst[s] && a == FindShift(t, s, y)
    ensures Listed(t, ofst, y) ==> a == t.action[ofst + y]
    ensures !Listed(t, ofst, y) && FallsBack(t, y) && Listed(t, ofst, t.fallback[y]) ==>
      a == t.action[ofst + t.fallback[y]]
    ensures
      var z := if FallsBack(t, y) then t.fallback[y] else y;
      !Listed(t, ofst, y) && !Listed(t, ofst, z) ==>
        a == if z > 0 && Listed(t, ofst, WILDCARD) then t.action[ofst + WILDCARD] else t.defaults[s]
  {
    if !Listed(t, ofst, y) && FallsBack(t, y) {
      assert !FallsBack(t, t.fallback[y]);
    }
  }

  /** yy_find_reduce_action does not run into one of its assertions. */
  predicate GotoOk(t: Tables, s: nat, a: nat) {
    s < |t.reduceOfst| && Listed(t, t.reduceOfst[s], a)
  }

  /** yy_find_reduce_action */
  function FindReduce(t: Tables, s: nat, a: nat): nat
    requires GotoOk(t, s, a)
  {
    t.action[t.reduceOfst[s] + a]
  }

  /**
   The grammar behind the tables. Each place on a right-hand side accepts some symbols (`ID|STRING`); a rule of one
   symbol in `optimizedOut` is never reduced by: its right-hand side is taken where its left-hand side is asked for.
   `gotos` are the states and left-hand sides that the automaton has a goto for; others may hit entries by chance.
   */
  datatype Grammar = Grammar(start: nat, rhs: seq<seq<set<nat>>>, optimizedOut: set<nat>, gotos: set<(nat, nat)>)

  /** The automaton goes somewhere from state s on left-hand side a. */
  predicate HasGoto(g: Grammar, s: nat, a: nat) {
    (s, a) in g.gotos
  }

  ghost predicate GrammarOk(g: Grammar, t: Tables) {
    && TablesOk(t) && |g.rhs| == NRULE
    && (forall r :: 0 <= r < NRULE ==> |g.rhs[r]| == -t.nRhs[r])
    && (forall r :: r in g.optimizedOut ==> r < NRULE && |g.rhs[r]| == 1)
    && (forall s: nat, a: nat :: HasGoto(g, s, a) ==> s <= MAX_SHIFT && a >= NTOKEN && GotoOk(t, s, a))
  }

  /** y is x, or x is rewritten to y by the optimized-out rules of the chain, one after the other. */
  ghost predicate Unit(g: Grammar, t: Tables, chain: seq<nat>, x: nat, y: nat)
    requires GrammarOk(g, t)
  {
    if chain == [] then StandsFor(t, x, y)
    else
      && chain[0] in g.optimizedOut && t.ruleLhs[chain[0]] == x
      && exists z :: z in g.rhs[chain[0]][0] && Unit(g, t, chain[1..], z, y)
  }

  /** Symbol y may stand at a place that accepts `place`. */
  ghost predicate Fits(g: Grammar, t: Tables, place: set<nat>, y: nat)
    requires GrammarOk(g, t)
  {
    exists x, chain :: x in place && Unit(g, t, chain, x, y)
  }

  /**
   What is known of the stack below a state: the symbols on top of it (the last one topmost), and under each of them
   the states that may lie there.
   */
  datatype Past = Past(symbols: seq<set<nat>>, states: seq<set<nat>>)

  predicate PastOk(p: Past) {
    |p.symbols| == |p.states|
  }

  /** After symbol y is pushed on state s. */
  function Pushed(p: Past, s: nat, y: nat): (r: Past)
    requires PastOk(p)
    ensures PastOk(r)
  {
    Past(p.symbols + [{y}], p.states + [{s}])
  }

  /** q forgets some of what p knows. */
  predicate Weaker(q: Past, p: Past)
    requires PastOk(p) && PastOk(q)
  {
    && |q.symbols| <= |p.symbols|
    && forall j :: 0 <= j < |q.symbols| ==>
         && p.symbols[|p.symbols| - |q.symbols| + j] <= q.symbols[j]
         && p.states[|p.symbols| - |q.symbols| + j] <= q.states[j]
  }

  /** Rule r can be reduced by wherever p is known: its right-hand side is on top and the state under it has a goto. */
  ghost predicate Reducible(g: Grammar, t: Tables, r: nat, p: Past)
    requires GrammarOk(g, t) && PastOk(p)
  {
    && r < NRULE && 0 < |g.rhs[r]| <= |p.symbols|
    && (forall j, y :: 0 <= j < |g.rhs[r]| && y in p.symbols[|p.symbols| - |g.rhs[r]| + j] ==>
      Fits(g, t, g.rhs[r][j], y))
    && (forall s :: s in p.states[|p.symbols| - |g.rhs[r]|] ==> HasGoto(g, s, t.ruleLhs[r]))
  }

  /** Going to state n after y was pushed on s. */
  ghost predicate EntryOk(past: seq<Past>, s: nat, y: nat, n: nat) {
    && s < |past| && n < |past| && PastOk(past[s]) && PastOk(past[n])
    && n != 0 && Weaker(past[n], Pushed(past[s], s, y))
  }

  /** The action of state s on token y. */
  ghost predicate ActionOk(g: Grammar, t: Tables, past: seq<Past>, s: nat, y: nat, a: nat)
    requires GrammarOk(g, t) && s < |past| && PastOk(past[s])
  {
    if a <= MAX_SHIFT then EntryOk(past, s, y, a)
    else if MIN_SHIFTREDUCE <= a <= MAX_SHIFTREDUCE then
      Reducible(g, t, a - MIN_SHIFTREDUCE, Pushed(past[s], s, y))
    else if a >= MIN_REDUCE then
      var r := a - MIN_REDUCE;
      r < NRULE && if g.rhs[r] == [] then HasGoto(g, s, t.ruleLhs[r]) else Reducible(g, t, r, past[s])
    else a == ERROR_ACTION
  }

  /** The goto of state s on left-hand side a: a state, a reduction at once, or acceptance of the start symbol. */
  ghost predicate GotoActionOk(g: Grammar, t: Tables, past: seq<Past>, s: nat, a: nat, n: nat)
    requires GrammarOk(g, t) && s < |past| && PastOk(past[s])
  {
    if n <= MAX_SHIFT then EntryOk(past, s, a, n)
    else if n >= MIN_REDUCE then Reducible(g, t, n - MIN_REDUCE, Pushed(past[s], s, a))
    else n == ACCEPT_ACTION && s == 0 && a == g.start
  }

  /** The tables fit the grammar: finitely many checks, one for each state and symbol. */
  ghost predicate Consistent(g: Grammar, t: Tables, past: seq<Past>) {
    && GrammarOk(g, t) && |past| == MAX_SHIFT + 1
    && (forall s :: 0 <= s <= MAX_SHIFT ==> PastOk(past[s])) && past[0] == Past([], [])
    && (forall s, y: nat :: 0 <= s <= MAX_SHIFT && y < NTOKEN ==> ActionOk(g, t, past, s, y, FindShift(t, s, y)))
    && (forall s: nat, a: nat :: HasGoto(g, s, a) ==> GotoActionOk(g, t, past, s, a, FindReduce(t, s, a)))
  }
}
