/** The in-place editor of ALTER TABLE RENAME and the token lists it works from. */
module RenameEdit {
  import opened RenameText
  import opened Sequences

  class RenameToken {
    const p: int
    const t: Span
    var pNext: RenameToken?

    constructor (p: int, t: Span, pNext: RenameToken?)
      ensures this.p == p && this.t == t && this.pNext == pNext
    {
      this.p, this.t, this.pNext := p, t, pNext;
    }
  }

  /** The list that starts at `head`, node by node. */
  ghost predicate Chain(head: RenameToken?, nodes: seq<RenameToken>)
    reads nodes`pNext
  {
    head == First(nodes)
    && (forall k {:trigger nodes[k].pNext} :: 0 <= k < |nodes| ==> nodes[k].pNext == First(nodes[k + 1..]))
    && forall j, k :: 0 <= j < k < |nodes| ==> nodes[j] != nodes[k]
  }

  ghost function First(nodes: seq<RenameToken>): RenameToken? {
    if nodes == [] then null else nodes[0]
  }

  /** Unlink node k of a chain; the result is the new head. */
  method Unlink(head: RenameToken, ghost nodes: seq<RenameToken>, best: RenameToken,
          ghost k: nat) returns (h: RenameToken?)
    requires Chain(head, nodes) && k < |nodes| && nodes[k] == best
    modifies set b | b in nodes :: b`pNext
    ensures Chain(h, Without(nodes, k)) && best.pNext == old(best.pNext)
  {
    WithoutDistinct(nodes, k);
    if head == best {
      assert k == 0;
      assert Without(nodes, 0) == nodes[1..];
      return best.pNext;
    }
    var prev := head;
    ghost var i := 0;
    while prev.pNext != best
      invariant 0 <= i < k && prev == nodes[i] && Chain(head, nodes)
      decreases k - i
    {
      prev := prev.pNext;
      i := i + 1;
    }
    assert i == k - 1 && prev in nodes;
    prev.pNext := best.pNext;
    h := head;
    ghost var r := Without(nodes, k);
    forall j | 0 <= j < |r| ensures r[j].pNext == First(r[j + 1..]) {
      WithoutAt(nodes, k, j);
    }
  }

  /** The list of a Parse object, or of a RenameCtx with its counter. */
  class TokenList {
    var pList: RenameToken?
    var nList: nat
    ghost var nodes: seq<RenameToken>

    constructor ()
      ensures pList == null && nodes == [] && nList == 0
    {
      pList, nList, nodes := null, 0, [];
    }

    ghost predicate Valid()
      reads this, nodes`pNext
    {
      Chain(pList, nodes)
    }

    /** renameColumnTokenNext: remove the token that starts last in the text. nList stays. */
    method TokenNext() returns (pBest: RenameToken, ghost k: nat)
      requires Valid() && nodes != []
      modifies this`pList, this`nodes
      modifies set b | b in nodes :: b`pNext
      ensures Valid()
      ensures k < |old(nodes)| && pBest == old(nodes)[k] && nodes == Without(old(nodes), k)
      ensures forall u :: u in old(nodes) ==> u.t.off <= pBest.t.off
    {
      pBest := pList;
      var pToken := pBest.pNext;
      ghost var i := 1;
      k := 0;
      while pToken != null
        invariant 1 <= i <= |nodes| && pToken == First(nodes[i..])
        invariant 0 <= k < i && pBest == nodes[k]
        invariant forall j :: 0 <= j < i ==> nodes[j].t.off <= pBest.t.off
        decreases |nodes| - i
      {
        if pToken.t.off > pBest.t.off {
          pBest := pToken;
          k := i;
        }
        pToken := pToken.pNext;
        i := i + 1;
      }
      Detach(pBest, k);
    }

    /**
     renameTokenFind: move the first token of parse tree element pPtr, at position k, to the front of ctx;
     nothing happens when there is none.
     */
    method TokenFind(ctx: TokenList, pPtr: int) returns (ghost k: nat)
      requires Valid() && ctx.Valid() && ctx != this
      requires forall b :: b in nodes ==> b !in ctx.nodes
      modifies this`pList, this`nodes, ctx`pList, ctx`nodes, ctx`nList
      modifies set b | b in nodes :: b`pNext
      ensures Valid() && ctx.Valid()
      ensures k <= |old(nodes)| && forall j :: 0 <= j < k ==> old(nodes)[j].p != pPtr
      ensures k < |old(nodes)| ==> old(nodes)[k].p == pPtr
      ensures nodes == if k < |old(nodes)| then Without(old(nodes), k) else old(nodes)
      ensures ctx.nodes == (if k < |old(nodes)| then [old(nodes)[k]] else []) + old(ctx.nodes)
      ensures ctx.nList == old(ctx.nList) + if k < |old(nodes)| then 1 else 0
    {
      var pp;
      pp, k := FindNode(pPtr);
      if pp != null {
        assert pp in nodes;
        ghost var other := ctx.nodes;
        assert forall j :: 0 <= j < |other| ==> other[j] in other;
        Detach(pp, k);
        assert forall j :: 0 <= j < |other| ==> other[j].pNext == old(other[j].pNext);
        assert Chain(ctx.pList, other);
        ctx.Prepend(pp);
      }
    }

    method FindNode(pPtr: int) returns (pp: RenameToken?, ghost i: nat)
      requires Valid()
      ensures i <= |nodes| && forall j :: 0 <= j < i ==> nodes[j].p != pPtr
      ensures if i < |nodes| then pp == nodes[i] && pp.p == pPtr else pp == null
    {
      pp := pList;
      i := 0;
      while pp != null && pp.p != pPtr
        invariant 0 <= i <= |nodes| && pp == First(nodes[i..])
        invariant forall j :: 0 <= j < i ==> nodes[j].p != pPtr
        decreases |nodes| - i
      {
        pp := pp.pNext;
        i := i + 1;
      }
    }

    method Detach(b: RenameToken, ghost k: nat)
      requires Valid() && k < |nodes| && nodes[k] == b
      modifies this`pList, this`nodes
      modifies set b | b in nodes :: b`pNext
      ensures Valid() && nodes == Without(old(nodes), k) && b !in nodes
    {
      var head := Unlink(pList, nodes, b, k);
      pList := head;
      nodes := Without(nodes, k);
    }

    method Prepend(b: RenameToken)
      requires Valid() && b !in nodes
      modifies this`pList, this`nList, this`nodes, b`pNext
      ensures Valid() && nodes == [b] + old(nodes) && nList == old(nList) + 1
    {
      b.pNext := pList;
      pList := b;
      ghost var was := nodes;
      nodes := [b] + nodes;
      nList := nList + 1;
      assert nodes[1..] == was;
      forall k | 0 <= k < |nodes| ensures nodes[k].pNext == First(nodes[k + 1..]) {
        if k > 0 { assert nodes[k] == was[k - 1] && nodes[k + 1..] == was[k..]; }
      }
    }
  }

  /** memmove within one buffer: the two stretches may overlap. */
  method Memmove(z: array<char>, dst: nat, src: nat, n: nat)
    requires dst + n <= z.Length && src + n <= z.Length
    modifies z
    ensures forall k :: 0 <= k < z.Length ==> z[k] == old(if dst <= k < dst + n then z[k - dst + src] else z[k])
  {
    if dst < src {
      for i := 0 to n
        invariant forall k :: 0 <= k < z.Length ==> z[k] == old(if dst <= k < dst + i then z[k - dst + src] else z[k])
      {
        z[dst + i] := z[src + i];
      }
    } else {
      for i := n downto 0
        invariant forall k :: 0 <= k < z.Length ==>
          z[k] == old(if dst + i <= k < dst + n then z[k - dst + src] else z[k])
      {
        z[dst + i] := z[src + i];
      }
    }
  }

  method Memcpy(z: array<char>, dst: nat, s: string)
    requires dst + |s| <= z.Length
    modifies z
    ensures forall k :: 0 <= k < z.Length ==> z[k] == if dst <= k < dst + |s| then s[k - dst] else old(z[k])
  {
    for i := 0 to |s|
      invariant forall k :: 0 <= k < z.Length ==> z[k] == if dst <= k < dst + i then s[k - dst] else old(z[k])
    {
      z[dst + i] := s[i];
    }
  }

  /** Replace n characters at offset off of the nOut-character text in the buffer. */
  method ReplaceAt(zOut: array<char>, nOut: nat, off: nat, n: nat, zReplace: string) returns (nOut': nat)
    requires off + n <= nOut && nOut < zOut.Length && nOut + |zReplace| - n < zOut.Length
    requires zOut[nOut] == '\0'
    modifies zOut
    ensures nOut' == nOut + |zReplace| - n && zOut[nOut'] == '\0'
    ensures zOut[..nOut'] == old(zOut[..off]) + zReplace + old(zOut[off + n..nOut])
  {
    nOut' := nOut;
    if n != |zReplace| {
      Memmove(zOut, off + |zReplace|, off + n, nOut - (off + n));
      nOut' := nOut + |zReplace| - n;
      zOut[nOut'] := '\0';
    }
    Memcpy(zOut, off, zReplace);
  }

  /** The C string at the start of a buffer. */
  method TextOf(z: array<char>, ghost n: nat) returns (s: string)
    requires n < z.Length && z[n] == '\0' && forall k :: 0 <= k < n ==> z[k] != '\0'
    ensures s == z[..n]
  {
    var i := 0;
    while z[i] != '\0'
      invariant 0 <= i <= n
      decreases n - i
    {
      i := i + 1;
    }
    s := z[..i];
  }

  /** The tokens of a list are non-empty pieces of the text, no two overlapping. */
  ghost predicate TokensApart(sql: string, nodes: seq<RenameToken>) {
    (forall k :: 0 <= k < |nodes| ==> nodes[k].t.n > 0 && nodes[k].t.off + nodes[k].t.n <= |sql|)
    && forall j, k :: 0 <= j < k < |nodes| ==> Apart(nodes[j].t, nodes[k].t)
  }

  ghost function SpansOf(nodes: seq<RenameToken>): set<Span> {
    set k | 0 <= k < |nodes| :: nodes[k].t
  }

  lemma SpansDisjoint(sql: string, nodes: seq<RenameToken>)
    requires TokensApart(sql, nodes)
    ensures Disjoint(sql, SpansOf(nodes))
  {
    forall a, b | a in SpansOf(nodes) && b in SpansOf(nodes) && a != b ensures Apart(a, b) {
      var j :| 0 <= j < |nodes| && nodes[j].t == a;
      var k :| 0 <= k < |nodes| && nodes[k].t == b;
      assert Apart(nodes[j].t, nodes[k].t) || Apart(nodes[k].t, nodes[j].t);
    }
  }

  /** What remains after the last token is taken lies in front of it. */
  lemma RemainingTokens(sql: string, nodes: seq<RenameToken>, k: nat)
    requires TokensApart(sql, nodes) && k < |nodes|
    requires forall u :: u in nodes ==> u.t.off <= nodes[k].t.off
    ensures TokensApart(sql, Without(nodes, k))
    ensures forall u :: u in SpansOf(Without(nodes, k)) ==> u.off + u.n <= nodes[k].t.off
    ensures SpansOf(nodes) == SpansOf(Without(nodes, k)) + {nodes[k].t}
  {
    var r := Without(nodes, k);
    forall j | 0 <= j < |r| ensures r[j] == nodes[if j < k then j else j + 1] { WithoutAt(nodes, k, j); }
    forall j | 0 <= j < |r| ensures r[j].t.off + r[j].t.n <= nodes[k].t.off {
      var i := if j < k then j else j + 1;
      assert nodes[i] in nodes;
      assert Apart(nodes[i].t, nodes[k].t) || Apart(nodes[k].t, nodes[i].t);
    }
    forall u | u in SpansOf(nodes) ensures u in SpansOf(r) + {nodes[k].t} {
      var i :| 0 <= i < |nodes| && nodes[i].t == u;
      if i != k { assert r[if i < k then i else i - 1].t == u; }
    }
  }

  /** State of the editing loop: `done` are the tokens already replaced. */
  ghost predicate Edited(sql: string, done: set<Span>, nodes: seq<RenameToken>, out: string, zNew: string,
          bQuote: bool) {
    TokensApart(sql, nodes) && Disjoint(sql, done)
    && (forall u, v :: u in done && v in SpansOf(nodes) ==> v.off + v.n <= u.off)
    && out == Simultaneous(sql, done, 0, zNew, bQuote)
  }

  lemma StillDisjoint(sql: string, done: set<Span>, nodes: seq<RenameToken>, k: nat)
    requires TokensApart(sql, nodes) && Disjoint(sql, done) && k < |nodes|
    requires forall u, v :: u in done && v in SpansOf(nodes) ==> v.off + v.n <= u.off
    ensures Disjoint(sql, done + {nodes[k].t}) && forall u :: u in done ==> nodes[k].t.off + nodes[k].t.n <= u.off
  {
    assert nodes[k].t in SpansOf(nodes);
  }

  lemma EditSpan(sql: string, done: set<Span>, nodes: seq<RenameToken>, k: nat, out: string, zNew: string, bQuote: bool)
    requires Edited(sql, done, nodes, out, zNew, bQuote) && k < |nodes|
    ensures var t := nodes[k].t;
            && t.off < |sql| && t.off + t.n <= |out|
            && Disjoint(sql, done + {t})
            && Simultaneous(sql, done + {t}, 0, zNew, bQuote)
               == out[..t.off] + Replacement(sql, t, zNew, bQuote) + out[t.off + t.n..]
  {
    var t := nodes[k].t;
    StillDisjoint(sql, done, nodes, k);
    EditOne(sql, done, t, zNew, bQuote);
    CutAndJoin(out, sql, Simultaneous(sql, done, t.off + t.n, zNew, bQuote), t);
  }

  lemma CutAndJoin(out: string, sql: string, tail: string, t: Span)
    requires t.off + t.n <= |sql| && out == sql[..t.off + t.n] + tail
    ensures t.off + t.n <= |out| && out[..t.off] == sql[..t.off] && out[t.off + t.n..] == tail
  {
  }

  lemma EditBounds(sql: string, done: set<Span>, nodes: seq<RenameToken>, k: nat, out: string, zNew: string,
          bQuote: bool)
    requires Edited(sql, done, nodes, out, zNew, bQuote) && k < |nodes|
    requires forall u :: u in nodes ==> u.t.off <= nodes[k].t.off
    ensures nodes[k].t.off < |sql| && nodes[k].t.off + nodes[k].t.n <= |out|
  {
    EditSpan(sql, done, nodes, k, out, zNew, bQuote);
  }

  /** Replacing the last remaining token in the output keeps the loop invariant. */
  lemma EditStep(sql: string, done: set<Span>, nodes: seq<RenameToken>, k: nat, out: string, zNew: string, bQuote: bool,
                 rest: seq<RenameToken>, out': string)
    requires Edited(sql, done, nodes, out, zNew, bQuote) && k < |nodes| && rest == Without(nodes, k)
    requires forall u :: u in nodes ==> u.t.off <= nodes[k].t.off
    requires nodes[k].t.off < |sql| && nodes[k].t.off + nodes[k].t.n <= |out|
    requires var t := nodes[k].t; out' == out[..t.off] + Replacement(sql, t, zNew, bQuote) + out[t.off + t.n..]
    ensures Edited(sql, done + {nodes[k].t}, rest, out', zNew, bQuote)
    ensures done + SpansOf(nodes) == done + {nodes[k].t} + SpansOf(rest)
  {
    RemainingTokens(sql, nodes, k);
    EditSpan(sql, done, nodes, k, out, zNew, bQuote);
  }

  /** Characters reserved for k replacements of at most q characters. */
  ghost function Reserve(k: nat, q: nat): nat {
    if k == 0 then 0 else q + Reserve(k - 1, q)
  }

  lemma {:induction false} ReserveIsProduct(k: nat, q: nat)
    ensures Reserve(k, q) == k * q
  {
    if k > 0 {
      ReserveIsProduct(k - 1, q);
    }
  }

  /** Put the replacement of one token into the buffer that holds the text `out`. */
  method ReplaceToken(zSql: string, zNew: string, bQuote: bool, zOut: array<char>, nOut: nat, t: Span,
          ghost out: string)
    returns (nOut': nat)
    requires t.off < |zSql| && t.off + t.n <= nOut && nOut + |Quoted(zNew)| < zOut.Length && zOut[nOut] == '\0'
    requires out == zOut[..nOut]
    modifies zOut
    ensures nOut' == nOut + |Replacement(zSql, t, zNew, bQuote)| - t.n && nOut' < zOut.Length && zOut[nOut'] == '\0'
    ensures zOut[..nOut'] == out[..t.off] + Replacement(zSql, t, zNew, bQuote) + out[t.off + t.n..]
  {
    var zReplace := if IsIdChar(zSql[t.off]) && !bQuote then zNew else Quoted(zNew);
    assert zOut[..t.off] == out[..t.off] && zOut[t.off + t.n..nOut] == out[t.off + t.n..];
    nOut' := ReplaceAt(zOut, nOut, t.off, t.n, zReplace);
  }

  /** Replace token k of the list, the last one in the text. */
  method ReplaceLast(zSql: string, zNew: string, bQuote: bool, zOut: array<char>, nOut: nat, t: Span,
                     ghost done: set<Span>, ghost nodes: seq<RenameToken>, ghost k: nat, ghost rest: seq<RenameToken>)
    returns (nOut': nat)
    requires k < |nodes| && nodes[k].t == t && rest == Without(nodes, k)
    requires forall u :: u in nodes ==> u.t.off <= t.off
    requires nOut + |Quoted(zNew)| < zOut.Length && zOut[nOut] == '\0'
    requires Edited(zSql, done, nodes, zOut[..nOut], zNew, bQuote)
    modifies zOut
    ensures nOut' <= nOut + |Quoted(zNew)| && zOut[nOut'] == '\0'
    ensures Edited(zSql, done + {t}, rest, zOut[..nOut'], zNew, bQuote)
    ensures done + SpansOf(nodes) == done + {t} + SpansOf(rest)
  {
    ghost var out := zOut[..nOut];
    EditBounds(zSql, done, nodes, k, out, zNew, bQuote);
    nOut' := ReplaceToken(zSql, zNew, bQuote, zOut, nOut, t, out);
    EditStep(zSql, done, nodes, k, out, zNew, bQuote, rest, zOut[..nOut']);
  }

  /** One turn of the editing loop: replace the last token that is left. */
  method EditLast(ctx: TokenList, zSql: string, zNew: string, bQuote: bool, zOut: array<char>, nOut: nat,
          ghost done: set<Span>)
    returns (nOut': nat, ghost k: nat)
    requires nOut + Reserve(|ctx.nodes|, |Quoted(zNew)|) < zOut.Length && zOut[nOut] == '\0'
    requires ctx.Valid() && ctx.nodes != [] && Edited(zSql, done, ctx.nodes, zOut[..nOut], zNew, bQuote)
    modifies ctx`pList, ctx`nodes, zOut
    modifies set b | b in ctx.nodes :: b`pNext
    ensures ctx.Valid() && k < |old(ctx.nodes)| && ctx.nodes == Without(old(ctx.nodes), k)
    ensures nOut' + Reserve(|ctx.nodes|, |Quoted(zNew)|) < zOut.Length && zOut[nOut'] == '\0'
    ensures Edited(zSql, done + {old(ctx.nodes)[k].t}, ctx.nodes, zOut[..nOut'], zNew, bQuote)
    ensures done + SpansOf(old(ctx.nodes)) == done + {old(ctx.nodes)[k].t} + SpansOf(ctx.nodes)
  {
    ghost var nodes := ctx.nodes;
    var pBest;
    pBest, k := ctx.TokenNext();
    nOut' := ReplaceLast(zSql, zNew, bQuote, zOut, nOut, pBest.t, done, nodes, k, ctx.nodes);
  }

  /** The editing loop. */
  method EditAll(ctx: TokenList, zSql: string, zNew: string, bQuote: bool, zOut: array<char>, start: nat)
    returns (nOut: nat)
    requires ctx.Valid() && TokensApart(zSql, ctx.nodes)
    requires start + Reserve(|ctx.nodes|, |Quoted(zNew)|) < zOut.Length && zOut[start] == '\0' && zOut[..start] == zSql
    modifies ctx`pList, ctx`nodes, zOut
    modifies set b | b in ctx.nodes :: b`pNext
    ensures ctx.Valid() && ctx.nodes == [] && nOut < zOut.Length && zOut[nOut] == '\0'
    ensures Disjoint(zSql, SpansOf(old(ctx.nodes)))
    ensures zOut[..nOut] == Simultaneous(zSql, SpansOf(old(ctx.nodes)), 0, zNew, bQuote)
  {
    ghost var all := SpansOf(ctx.nodes);
    SpansDisjoint(zSql, ctx.nodes);
    NothingReplaced(zSql, zNew, bQuote);
    nOut := start;
    ghost var done: set<Span> := {};
    while ctx.pList != null
      invariant ctx.Valid() && forall u :: u in ctx.nodes ==> u in old(ctx.nodes)
      invariant done + SpansOf(ctx.nodes) == all
      invariant nOut + Reserve(|ctx.nodes|, |Quoted(zNew)|) < zOut.Length && zOut[nOut] == '\0'
      invariant Edited(zSql, done, ctx.nodes, zOut[..nOut], zNew, bQuote)
      decreases |ctx.nodes|
    {
      ghost var nodes, k := ctx.nodes, 0;
      nOut, k := EditLast(ctx, zSql, zNew, bQuote, zOut, nOut, done);
      WithoutMembers(nodes, k);
      done := done + {nodes[k].t};
    }
    assert done == all;
  }

  /** renameEditSql */
  method RenameEditSql(ctx: TokenList, zSql: string, zNew: string, bQuote: bool) returns (result: string)
    requires ctx.Valid() && ctx.nList == |ctx.nodes| && TokensApart(zSql, ctx.nodes)
    requires '\0' !in zSql && '\0' !in zNew
    modifies ctx`pList, ctx`nodes
    modifies set b | b in ctx.nodes :: b`pNext
    ensures ctx.Valid() && ctx.nodes == []
    ensures Disjoint(zSql, SpansOf(old(ctx.nodes)))
    ensures result == Simultaneous(zSql, SpansOf(old(ctx.nodes)), 0, zNew, bQuote)
    ensures Renamed(zSql, SpansOf(old(ctx.nodes)), 0, result, zNew, bQuote)
  {
    ghost var all := SpansOf(ctx.nodes);
    ReserveIsProduct(ctx.nList, |Quoted(zNew)|);
    var zOut := new char[|zSql| + ctx.nList * |Quoted(zNew)| + 1](_ => '\0');
    Memcpy(zOut, 0, zSql);
    assert zOut[..|zSql|] == zSql;
    var nOut := EditAll(ctx, zSql, zNew, bQuote, zOut, |zSql|);
    ResultHasNoNul(zSql, all, 0, zNew, bQuote);
    SimultaneousRenames(zSql, all, 0, zNew, bQuote);
    assert forall k :: 0 <= k < nOut ==> zOut[k] == zOut[..nOut][k];
    result := TextOf(zOut, nOut);
  }
}
