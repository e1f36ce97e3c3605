/** The open-addressing hash table of a bit vector, as a sequence of slots; 0 marks a free slot. */
module BitvecHash {

  /** With 8-byte pointers: a 496-byte union. */
  const NINT: nat := 124
  const MXHASH: nat := 62

  type Slots = seq<nat>

  /** BITVEC_HASH(v-1), the slot where the search for v starts. */
  function Home(v: nat): (h: nat)
    requires v > 0
    ensures h < NINT
  {
    (v - 1) % NINT
  }

  /** The slot d places behind p, around the end of the table. */
  function Around(p: nat, d: nat): (q: nat)
    ensures q < NINT
  {
    (p + d) % NINT
  }

  /** Number of probes from p to j. */
  function Distance(p: nat, j: nat): (d: nat)
    requires p < NINT && j < NINT
    ensures d < NINT && Around(p, d) == j
  {
    if j >= p then j - p else j + NINT - p
  }

  lemma DistanceUnique(p: nat, d: nat)
    requires p < NINT && d < NINT
    ensures Distance(p, Around(p, d)) == d
  {
  }

  /** The first d slots of the probe sequence of v are taken. */
  ghost predicate Probed(s: Slots, v: nat, d: nat)
    requires |s| == NINT && v > 0
  {
    forall e :: 0 <= e < d ==> s[Around(Home(v), e)] != 0
  }

  function Taken(s: Slots): (n: nat)
    ensures n <= |s|
  {
    if s == [] then 0 else Taken(s[..|s| - 1]) + (if s[|s| - 1] != 0 then 1 else 0)
  }

  /** Values are distinct, and each can be reached from its home slot through taken slots. */
  ghost predicate Probing(s: Slots) {
    |s| == NINT
    && (forall j, k :: 0 <= j < k < NINT && s[j] != 0 ==> s[j] != s[k])
    && forall j :: 0 <= j < NINT && s[j] != 0 ==> Probed(s, s[j], Distance(Home(s[j]), j))
  }

  ghost function Members(s: Slots): set<nat> {
    set j | 0 <= j < |s| && s[j] != 0 :: s[j]
  }

  /** The hash invariant: the table is never full. */
  ghost predicate HashOk(s: Slots, nSet: nat) {
    Probing(s) && nSet == Taken(s) && nSet <= NINT - 1
  }

  lemma {:induction false} TakenUpdate(s: Slots, j: nat, v: nat)
    requires j < |s| && s[j] == 0 && v != 0
    ensures Taken(s[j := v]) == Taken(s) + 1
  {
    var n := |s| - 1;
    if j == n {
      assert s[j := v][..n] == s[..n];
    } else {
      assert s[j := v][..n] == s[..n][j := v];
      TakenUpdate(s[..n], j, v);
    }
  }

  /** A table that is not full has a free slot. */
  lemma {:induction false} FreeSlot(s: Slots) returns (j: nat)
    requires Taken(s) < |s|
    ensures j < |s| && s[j] == 0
  {
    var n := |s| - 1;
    if s[n] == 0 {
      j := n;
    } else {
      j := FreeSlot(s[..n]);
    }
  }

  /** A search that meets a free slot has not missed the value. */
  lemma NotMissed(s: Slots, v: nat, d: nat)
    requires Probing(s) && v > 0 && d < NINT
    requires forall e :: 0 <= e < d ==> s[Around(Home(v), e)] != v
    requires s[Around(Home(v), d)] == 0
    ensures v !in Members(s)
  {
    forall j | 0 <= j < NINT && s[j] != 0 ensures s[j] != v {
      assert Probed(s, s[j], Distance(Home(s[j]), j));
      assert Around(Home(s[j]), Distance(Home(s[j]), j)) == j;
    }
  }

  /** The value may go into the first free slot of its probe sequence. */
  lemma InsertKeeps(s: Slots, v: nat, d: nat)
    requires Probing(s) && v > 0 && d < NINT && v !in Members(s)
    requires Probed(s, v, d) && s[Around(Home(v), d)] == 0
    ensures var t := s[Around(Home(v), d) := v];
            Probing(t) && Members(t) == Members(s) + {v} && Taken(t) == Taken(s) + 1
  {
    var h := Around(Home(v), d);
    var t := s[h := v];
    TakenUpdate(s, h, v);
    DistanceUnique(Home(v), d);
    forall j | 0 <= j < NINT && t[j] != 0 ensures Probed(t, t[j], Distance(Home(t[j]), j)) {
      if j == h {
        assert Probed(s, v, d);
      } else {
        assert Probed(s, s[j], Distance(Home(s[j]), j));
      }
    }
    forall x | x in Members(s) + {v} ensures x in Members(t) {
      if x == v { assert t[h] == v; } else {
        var j :| 0 <= j < NINT && s[j] != 0 && s[j] == x;
        assert t[j] == x;
      }
    }
    forall j, k | 0 <= j < k < NINT && t[j] != 0 ensures t[j] != t[k] {
      if j == h && s[k] != 0 { assert s[k] in Members(s); }
      if k == h { assert s[j] in Members(s); }
    }
  }

  lemma {:induction false} TakenNone(s: Slots)
    requires forall j :: 0 <= j < |s| ==> s[j] == 0
    ensures Taken(s) == 0
  {
    if s != [] { TakenNone(s[..|s| - 1]); }
  }

  lemma EmptyTable(s: Slots)
    requires |s| == NINT && forall j :: 0 <= j < NINT ==> s[j] == 0
    ensures HashOk(s, 0) && Members(s) == {}
  {
    TakenNone(s);
  }
}
