/** Replacing many tokens of one SQL text at once: the meaning of an ALTER TABLE RENAME edit. */
module RenameText {

  /** A token occupies n characters from offset off. */
  datatype Span = Span(off: nat, n: nat)

  /** sqlite3IsIdChar */
  predicate IsIdChar(c: char) {
    || '0' <= c <= '9' || 'A' <= c <= 'Z' || 'a' <= c <= 'z'
    || c == '$' || c == '_' || c >= 128 as char
  }

  /** %w */
  function Escape(s: string): (r: string)
    ensures |r| >= |s|
    ensures ('\0' in r) == ('\0' in s)
  {
    if s == "" then ""
    else if s[0] == '"' then "\"\"" + Escape(s[1..])
    else [s[0]] + Escape(s[1..])
  }

  /** "\"%w\"" */
  function Quoted(s: string): (r: string)
    ensures |r| >= |s| + 2
    ensures ('\0' in r) == ('\0' in s)
  {
    "\"" + Escape(s) + "\""
  }

  /** What a quoted identifier reads as: nothing, if it is not well formed. */
  datatype Reading = Nothing | Name(text: string)

  /** The inside of a quoted identifier: quote characters stand there in pairs, each for one. */
  function Inside(s: string): Reading {
    if s == "" then Name("")
    else if s[0] != '"' then Before(s[0], Inside(s[1..]))
    else if |s| > 1 && s[1] == '"' then Before('"', Inside(s[2..]))
    else Nothing
  }

  function Before(c: char, r: Reading): Reading {
    if r.Name? then Name([c] + r.text) else Nothing
  }

  /** sqlite3Dequote for a text that is one double-quoted identifier from its first character to its last. */
  function Unquote(s: string): Reading {
    if |s| >= 2 && s[0] == '"' && s[|s| - 1] == '"' then Inside(s[1..|s| - 1]) else Nothing
  }

  lemma {:induction false} EscapedInside(s: string)
    ensures Inside(Escape(s)) == Name(s)
  {
    if s != "" {
      var rest := Escape(s[1..]);
      EscapedInside(s[1..]);
      if s[0] == '"' {
        assert Escape(s)[2..] == rest;
      } else {
        assert Escape(s)[1..] == rest;
      }
      assert [s[0]] + s[1..] == s;
    }
  }

  /** Every name survives quoting. */
  lemma QuotedReads(z: string)
    ensures Unquote(Quoted(z)) == Name(z)
  {
    EscapedInside(z);
    assert Quoted(z)[1..|Quoted(z)| - 1] == Escape(z);
  }

  /**
   What may stand in the place of a token that began with c: the new name itself after an identifier character, unless
   it is to be quoted always, and otherwise a quoted identifier that reads as the new name.
   */
  predicate StandsFor(w: string, c: char, zNew: string, bQuote: bool) {
    if IsIdChar(c) && !bQuote then w == zNew else Unquote(w) == Name(zNew)
  }

  /** A token that starts with an identifier character gets the plain text, unless all are to be quoted. */
  function Replacement(sql: string, t: Span, zNew: string, bQuote: bool): (r: string)
    requires t.off < |sql|
    ensures |r| <= |Quoted(zNew)|
    ensures '\0' !in zNew ==> '\0' !in r
  {
    if IsIdChar(sql[t.off]) && !bQuote then zNew else Quoted(zNew)
  }

  ghost predicate Apart(a: Span, b: Span) {
    a.off + a.n <= b.off || b.off + b.n <= a.off
  }

  /** Non-empty spans of the text, no two overlapping. */
  ghost predicate Disjoint(sql: string, spans: set<Span>) {
    (forall t :: t in spans ==> t.n > 0 && t.off + t.n <= |sql|)
    && forall a, b :: a in spans && b in spans && a != b ==> Apart(a, b)
  }

  /** One of the spans starts at i. */
  ghost predicate Starts(spans: set<Span>, i: nat) {
    exists t :: t in spans && t.off == i
  }

  ghost function Starting(spans: set<Span>, i: nat): (t: Span)
    requires Starts(spans, i)
    ensures t in spans && t.off == i
  {
    var t :| t in spans && t.off == i;
    t
  }

  /**
   Simultaneous substitution, reading the text once from position i: at the start of a token its replacement is
   taken and the token skipped, any other character is kept. The spans are a set: there is no order.
   */
  ghost function Simultaneous(sql: string, spans: set<Span>, i: nat, zNew: string, bQuote: bool): string
    requires Disjoint(sql, spans) && i <= |sql|
    decreases |sql| - i
  {
    if i == |sql| then ""
    else if Starts(spans, i) then
      var t := Starting(spans, i);
      Replacement(sql, t, zNew, bQuote) + Simultaneous(sql, spans, i + t.n, zNew, bQuote)
    else [sql[i]] + Simultaneous(sql, spans, i + 1, zNew, bQuote)
  }

  /**
   `out` is the text from position i on with each token renamed: a piece that stands for the new name in the place of
   each token, and every other character as it was.
   */
  ghost predicate Renamed(sql: string, spans: set<Span>, i: nat, out: string, zNew: string, bQuote: bool)
    requires Disjoint(sql, spans) && i <= |sql|
    decreases |sql| - i
  {
    if i == |sql| then out == ""
    else if Starts(spans, i) then
      exists n: nat :: n <= |out| && StandsFor(out[..n], sql[i], zNew, bQuote)
        && Renamed(sql, spans, i + Starting(spans, i).n, out[n..], zNew, bQuote)
    else out != "" && out[0] == sql[i] && Renamed(sql, spans, i + 1, out[1..], zNew, bQuote)
  }

  lemma ReplacementStands(sql: string, t: Span, zNew: string, bQuote: bool)
    requires t.off < |sql|
    ensures StandsFor(Replacement(sql, t, zNew, bQuote), sql[t.off], zNew, bQuote)
  {
    QuotedReads(zNew);
  }

  lemma RenamedToken(sql: string, spans: set<Span>, i: nat, w: string, tail: string, zNew: string, bQuote: bool)
    requires Disjoint(sql, spans) && i < |sql| && Starts(spans, i) && StandsFor(w, sql[i], zNew, bQuote)
    requires Renamed(sql, spans, i + Starting(spans, i).n, tail, zNew, bQuote)
    ensures Renamed(sql, spans, i, w + tail, zNew, bQuote)
  {
    var out := w + tail;
    assert out[..|w|] == w && out[|w|..] == tail;
  }

  lemma RenamedKept(sql: string, spans: set<Span>, i: nat, tail: string, zNew: string, bQuote: bool)
    requires Disjoint(sql, spans) && i < |sql| && !Starts(spans, i)
    requires Renamed(sql, spans, i + 1, tail, zNew, bQuote)
    ensures Renamed(sql, spans, i, [sql[i]] + tail, zNew, bQuote)
  {
    var out := [sql[i]] + tail;
    assert out[1..] == tail;
  }

  /** The substituted text renames each token and nothing else. */
  lemma {:induction false} SimultaneousRenames(sql: string, spans: set<Span>, i: nat, zNew: string, bQuote: bool)
    requires Disjoint(sql, spans) && i <= |sql|
    ensures Renamed(sql, spans, i, Simultaneous(sql, spans, i, zNew, bQuote), zNew, bQuote)
    decreases |sql| - i
  {
    if i < |sql| {
      var next := if Starts(spans, i) then i + Starting(spans, i).n else i + 1;
      SimultaneousRenames(sql, spans, next, zNew, bQuote);
      var tail := Simultaneous(sql, spans, next, zNew, bQuote);
      if Starts(spans, i) {
        var t := Starting(spans, i);
        ReplacementStands(sql, t, zNew, bQuote);
        RenamedToken(sql, spans, i, Replacement(sql, t, zNew, bQuote), tail, zNew, bQuote);
      } else {
        RenamedKept(sql, spans, i, tail, zNew, bQuote);
      }
    }
  }

  lemma NoTokenHere(sql: string, spans: set<Span>, i: nat, zNew: string, bQuote: bool)
    requires Disjoint(sql, spans) && i < |sql| && forall t :: t in spans ==> t.off != i
    ensures Simultaneous(sql, spans, i, zNew, bQuote) == [sql[i]] + Simultaneous(sql, spans, i + 1, zNew, bQuote)
  {
  }

  lemma TokenHere(sql: string, spans: set<Span>, t: Span, zNew: string, bQuote: bool)
    requires Disjoint(sql, spans) && t in spans
    ensures Simultaneous(sql, spans, t.off, zNew, bQuote)
            == Replacement(sql, t, zNew, bQuote) + Simultaneous(sql, spans, t.off + t.n, zNew, bQuote)
  {
    var u := Starting(spans, t.off);
    assert u == t || Apart(u, t);
  }

  /** Text before the first token is kept. */
  lemma {:induction false} KeptBefore(sql: string, spans: set<Span>, i: nat, k: nat, zNew: string, bQuote: bool)
    requires Disjoint(sql, spans) && i <= k <= |sql|
    requires forall t :: t in spans ==> k <= t.off || t.off < i
    ensures Simultaneous(sql, spans, i, zNew, bQuote) == sql[i..k] + Simultaneous(sql, spans, k, zNew, bQuote)
    decreases k - i
  {
    if i < k {
      NoTokenHere(sql, spans, i, zNew, bQuote);
      KeptBefore(sql, spans, i + 1, k, zNew, bQuote);
      assert sql[i..k] == [sql[i]] + sql[i + 1..k];
    } else {
      assert sql[i..k] == "";
    }
  }

  lemma SameStart(sql: string, spans: set<Span>, all: set<Span>, t: Span, i: nat)
    requires all == spans + {t} && Disjoint(sql, all) && t.off < i < |sql|
    ensures Starts(all, i) <==> Starts(spans, i)
    ensures Starts(spans, i) ==>
      Starting(all, i) == Starting(spans, i) && i + Starting(spans, i).n <= |sql| && Starting(spans, i).n > 0
  {
    if Starts(spans, i) {
      var u, v := Starting(spans, i), Starting(all, i);
      assert u in all;
      assert u == v || Apart(u, v);
    }
  }

  /** What lies behind a token does not depend on it. */
  lemma {:induction false} NotBehind(sql: string, spans: set<Span>, all: set<Span>, t: Span, i: nat, zNew: string,
          bQuote: bool)
    requires all == spans + {t} && Disjoint(sql, spans) && Disjoint(sql, all) && t.off < i <= |sql|
    ensures Simultaneous(sql, all, i, zNew, bQuote) == Simultaneous(sql, spans, i, zNew, bQuote)
    decreases |sql| - i
  {
    if i < |sql| {
      SameStart(sql, spans, all, t, i);
      var next := if Starts(spans, i) then i + Starting(spans, i).n else i + 1;
      NotBehind(sql, spans, all, t, next, zNew, bQuote);
    }
  }

  /** One edit step, from right to left: the token t in front of all tokens already replaced. */
  lemma EditOne(sql: string, done: set<Span>, t: Span, zNew: string, bQuote: bool)
    requires Disjoint(sql, done) && Disjoint(sql, done + {t})
    requires forall u :: u in done ==> t.off + t.n <= u.off
    ensures Simultaneous(sql, done, 0, zNew, bQuote)
            == sql[..t.off + t.n] + Simultaneous(sql, done, t.off + t.n, zNew, bQuote)
    ensures Simultaneous(sql, done + {t}, 0, zNew, bQuote)
            == sql[..t.off] + Replacement(sql, t, zNew, bQuote) + Simultaneous(sql, done, t.off + t.n, zNew, bQuote)
  {
    KeptUpTo(sql, done, t.off + t.n, zNew, bQuote);
    ReplacedFirst(sql, done, done + {t}, t, zNew, bQuote);
  }

  lemma KeptUpTo(sql: string, spans: set<Span>, k: nat, zNew: string, bQuote: bool)
    requires Disjoint(sql, spans) && k <= |sql| && forall u :: u in spans ==> k <= u.off
    ensures Simultaneous(sql, spans, 0, zNew, bQuote) == sql[..k] + Simultaneous(sql, spans, k, zNew, bQuote)
  {
    KeptBefore(sql, spans, 0, k, zNew, bQuote);
    assert sql[0..k] == sql[..k];
  }

  lemma ReplacedFirst(sql: string, done: set<Span>, all: set<Span>, t: Span, zNew: string, bQuote: bool)
    requires all == done + {t} && Disjoint(sql, done) && Disjoint(sql, all)
    requires forall u :: u in done ==> t.off + t.n <= u.off
    ensures Simultaneous(sql, all, 0, zNew, bQuote)
            == sql[..t.off] + Replacement(sql, t, zNew, bQuote) + Simultaneous(sql, done, t.off + t.n, zNew, bQuote)
  {
    var k := t.off + t.n;
    KeptUpTo(sql, all, t.off, zNew, bQuote);
    TokenHere(sql, all, t, zNew, bQuote);
    NotBehind(sql, done, all, t, k, zNew, bQuote);
    Associate(sql[..t.off], Replacement(sql, t, zNew, bQuote), Simultaneous(sql, done, k, zNew, bQuote));
  }

  lemma Associate(a: string, b: string, c: string)
    ensures a + (b + c) == a + b + c
  {
  }

  /** With nothing to replace the text is kept. */
  lemma NothingReplaced(sql: string, zNew: string, bQuote: bool)
    ensures Simultaneous(sql, {}, 0, zNew, bQuote) == sql
  {
    KeptUpTo(sql, {}, |sql|, zNew, bQuote);
    assert sql[..|sql|] == sql;
  }

  lemma {:induction false} ResultHasNoNul(sql: string, spans: set<Span>, i: nat, zNew: string, bQuote: bool)
    requires Disjoint(sql, spans) && i <= |sql| && '\0' !in sql && '\0' !in zNew
    ensures '\0' !in Simultaneous(sql, spans, i, zNew, bQuote)
    decreases |sql| - i
  {
    if i < |sql| {
      var next, piece := i + 1, [sql[i]];
      if Starts(spans, i) {
        var u := Starting(spans, i);
        next, piece := i + u.n, Replacement(sql, u, zNew, bQuote);
      }
      ResultHasNoNul(sql, spans, next, zNew, bQuote);
      NoNulIn(piece, Simultaneous(sql, spans, next, zNew, bQuote));
    }
  }

  lemma NoNulIn(a: string, b: string)
    requires '\0' !in a && '\0' !in b
    ensures '\0' !in a + b
  {
  }
}
