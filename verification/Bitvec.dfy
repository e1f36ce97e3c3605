/** A fixed-size set of page numbers that changes its representation in place. */
module Bitvec {
  import opened Arithmetic
  import opened BitvecHash

  const NELEM: nat := 496
  const NBIT: nat := 3968
  const NPTR: nat := 62
  const U32: nat := 0x1_0000_0000

  /** SQLITE_OK and SQLITE_NOMEM. */
  datatype Rc = OK | NOMEM

  function Mask(k: nat): bv8
    requires k < 8
  {
    match k
    case 0 => 1
    case 1 => 2
    case 2 => 4
    case 3 => 8
    case 4 => 16
    case 5 => 32
    case 6 => 64
    case 7 => 128
  }

  predicate Bit(b: bv8, k: nat)
    requires k < 8
  {
    b & Mask(k) != 0
  }

  lemma SetBit(b: bv8, k: nat, j: nat)
    requires k < 8 && j < 8
    ensures Bit(b | Mask(k), j) <==> j == k || Bit(b, j)
  {
    assert j != k ==> Mask(k) & Mask(j) == 0;
  }

  lemma ClearBit(b: bv8, k: nat, j: nat)
    requires k < 8 && j < 8
    ensures Bit(b & !Mask(k), j) <==> j != k && Bit(b, j)
  {
    assert j != k ==> Mask(k) & Mask(j) == 0;
  }

  /** Member i (counted from 1) of a flat bitmap. */
  predicate InBitmap(bytes: seq<bv8>, i: nat)
    requires 0 < i <= 8 * |bytes|
  {
    Bit(bytes[(i - 1) / 8], (i - 1) % 8)
  }

  lemma BitmapSet(bytes: seq<bv8>, i: nat, j: nat)
    requires 0 < i <= 8 * |bytes| && 0 < j <= 8 * |bytes|
    ensures InBitmap(bytes[(i - 1) / 8 := bytes[(i - 1) / 8] | Mask((i - 1) % 8)], j) <==> j == i || InBitmap(bytes, j)
  {
    SetBit(bytes[(i - 1) / 8], (i - 1) % 8, (j - 1) % 8);
  }

  lemma BitmapClear(bytes: seq<bv8>, i: nat, j: nat)
    requires 0 < i <= 8 * |bytes| && 0 < j <= 8 * |bytes|
    ensures InBitmap(bytes[(i - 1) / 8 := bytes[(i - 1) / 8] & !Mask((i - 1) % 8)], j) <==> j != i && InBitmap(bytes, j)
  {
    ClearBit(bytes[(i - 1) / 8], (i - 1) % 8, (j - 1) % 8);
  }

  /** The number of values a child handles after a split. */
  function Divisor(iSize: nat): (d: nat) {
    (iSize + NPTR - 1) / NPTR
  }

  /** The child that handles member i: the first d members belong to child 0, the next d to child 1, .. */
  function Bin(i: nat, d: nat): nat
    requires i > 0 && d > 0
  {
    if i <= d then 0 else 1 + Bin(i - d, d)
  }

  /** The number of member i within its child. */
  function Local(i: nat, d: nat): (r: nat)
    requires i > 0 && d > 0
    ensures 1 <= r <= d
  {
    if i <= d then i else Local(i - d, d)
  }

  /** How the code computes both. */
  lemma {:induction false} BinIsDivision(i: nat, d: nat)
    requires i > 0 && d > 0
    ensures Bin(i, d) == (i - 1) / d && Local(i, d) == (i - 1) % d + 1
  {
    if i > d {
      BinIsDivision(i - d, d);
      QuotientNext(i - d - 1, d);
    } else {
      SmallModulo(i - 1, d);
    }
  }

  lemma {:induction false} BinBound(i: nat, d: nat, n: nat)
    requires d > 0 && 0 < i <= d * n && n > 0
    ensures Bin(i, d) < n
  {
    if i > d {
      assert d * n == d + d * (n - 1);
      assert n > 1;
      BinBound(i - d, d, n - 1);
    }
  }

  /** Children are strictly smaller, and their numbers in range. */
  lemma SplitBounds(iSize: nat, i: nat)
    requires iSize > NBIT && 0 < i <= iSize
    ensures 0 < Divisor(iSize) < iSize && Bin(i, Divisor(iSize)) < NPTR
  {
    BinBound(i, Divisor(iSize), NPTR);
  }

  /** Two members never share both child and child-local number. */
  lemma {:induction false} SplitInjective(i: nat, j: nat, d: nat)
    requires i > 0 && j > 0 && d > 0
    requires Bin(i, d) == Bin(j, d) && Local(i, d) == Local(j, d)
    ensures i == j
  {
    if i > d && j > d {
      SplitInjective(i - d, j - d, d);
    }
  }

  lemma SplitApart(iSize: nat, d: nat, i: nat, j: nat)
    requires iSize > NBIT && d == Divisor(iSize) && 0 < i <= iSize && 0 < j <= iSize
    ensures d > 0 && Bin(j, d) < NPTR
    ensures Bin(j, d) == Bin(i, d) && Local(j, d) == Local(i, d) ==> i == j
  {
    SplitBounds(iSize, j);
    if Bin(j, d) == Bin(i, d) && Local(j, d) == Local(i, d) {
      SplitInjective(i, j, d);
    }
  }

  /** Every request for memory from number n up to n' was granted; `fails` says which requests are refused. */
  ghost predicate Granted(fails: nat -> bool, n: nat, n': nat) {
    forall k :: n <= k < n' ==> !fails(k)
  }

  /** malloc: request number n. */
  method Malloc(fails: nat -> bool, n: nat) returns (ok: bool, n': nat)
    ensures n' == n + 1 && ok == !fails(n)
  {
    ok, n' := !fails(n), n + 1;
  }

  lemma NextSlot(p: nat, d: nat)
    requires p < NINT && d + 1 < NINT
    ensures Around(p, d + 1) == (Around(p, d) + 1) % NINT
    ensures Around(p, d + 1) == if Around(p, d) + 1 >= NINT then 0 else Around(p, d) + 1
  {
  }

  /** The probe loop of a test. */
  method TestHash(a: array<nat>, v: nat) returns (r: bool)
    requires a.Length == NINT && Probing(a[..]) && Taken(a[..]) < NINT && v > 0
    ensures r == (v in Members(a[..]))
  {
    ghost var s := a[..];
    ghost var free := FreeSlot(s);
    ghost var d, bound := 0, Distance(Home(v), free);
    var h := (v - 1) % NINT;
    while a[h] != 0
      invariant 0 <= d <= bound && h < NINT && h == Around(Home(v), d)
      invariant forall e :: 0 <= e < d ==> s[Around(Home(v), e)] != v
      decreases bound - d
    {
      if a[h] == v {
        assert s[h] == v;
        return true;
      }
      assert d < bound && s[Around(Home(v), d)] != v;
      NextSlot(Home(v), d);
      h := (h + 1) % NINT;
      d := d + 1;
    }
    assert s[Around(Home(v), d)] == 0;
    NotMissed(s, v, d);
    return false;
  }

  /** The probe loop of an insertion whose home slot is taken: the value itself, or the first free slot. */
  method FindSlot(a: array<nat>, v: nat) returns (found: bool, h: nat, ghost d: nat)
    requires a.Length == NINT && Probing(a[..]) && Taken(a[..]) < NINT && v > 0 && a[Home(v)] != 0
    ensures found == (v in Members(a[..])) && h < NINT
    ensures !found ==> d < NINT && h == Around(Home(v), d) && a[h] == 0 && Probed(a[..], v, d)
  {
    ghost var s := a[..];
    ghost var free := FreeSlot(s);
    ghost var bound := Distance(Home(v), free);
    h, d := (v - 1) % NINT, 0;
    while true
      invariant 0 <= d < bound && h < NINT && h == Around(Home(v), d) && a[h] != 0
      invariant forall e :: 0 <= e < d ==> s[Around(Home(v), e)] != v
      invariant Probed(s, v, d + 1)
      decreases bound - d
    {
      if a[h] == v {
        assert s[h] == v;
        return true, h, d;
      }
      assert s[Around(Home(v), d)] != v;
      NextSlot(Home(v), d);
      h := h + 1;
      d := d + 1;
      if h >= NINT { h := 0; }
      if a[h] == 0 { break; }
      assert Around(Home(v), d) == h;
    }
    NotMissed(s, v, d);
    found := false;
  }

  /** Put a new value into the first free slot of its probe sequence. */
  method PlaceFree(a: array<nat>, v: nat)
    requires a.Length == NINT && Probing(a[..]) && Taken(a[..]) < NINT && v > 0 && v !in Members(a[..])
    modifies a
    ensures Probing(a[..]) && Members(a[..]) == old(Members(a[..])) + {v} && Taken(a[..]) == old(Taken(a[..])) + 1
  {
    ghost var s := a[..];
    ghost var free := FreeSlot(s);
    ghost var d, bound := 0, Distance(Home(v), free);
    var h := (v - 1) % NINT;
    while a[h] != 0
      invariant 0 <= d <= bound && h < NINT && h == Around(Home(v), d)
      invariant Probed(s, v, d) && a[..] == s
      decreases bound - d
    {
      assert s[h] != 0 && d < bound;
      NextSlot(Home(v), d);
      h := h + 1;
      d := d + 1;
      if h >= NINT { h := 0; }
    }
    assert s[Around(Home(v), d)] == 0;
    InsertKeeps(s, v, d);
    a[h] := v;
    assert a[..] == s[h := v];
  }

  method ZeroSlots(a: array<nat>)
    requires a.Length == NINT
    modifies a
    ensures HashOk(a[..], 0) && Members(a[..]) == {}
  {
    for j := 0 to NINT
      invariant forall k :: 0 <= k < j ==> a[k] == 0
    {
      a[j] := 0;
    }
    EmptyTable(a[..]);
  }

  lemma TakenAppend(s: Slots, v: nat)
    ensures Taken(s + [v]) == Taken(s) + (if v != 0 then 1 else 0)
  {
    assert (s + [v])[..|s|] == s;
  }

  lemma PrefixNext(s: Slots, j: nat)
    requires j < |s|
    ensures Members(s[..j + 1]) == Members(s[..j]) + (if s[j] != 0 then {s[j]} else {})
    ensures Taken(s[..j + 1]) == Taken(s[..j]) + (if s[j] != 0 then 1 else 0)
  {
    var p := s[..j];
    assert s[..j + 1] == p + [s[j]];
    MembersAppend(p, s[j]);
    TakenAppend(p, s[j]);
  }

  lemma NewInPrefix(s: Slots, j: nat)
    requires Probing(s) && j < NINT && s[j] != 0
    ensures s[j] !in Members(s[..j])
  {
  }

  /** The rebuild of Clear: all values but one, inserted again into an empty table. */
  method Rebuild(a: array<nat>, v: nat) returns (nSet: nat)
    requires a.Length == NINT && HashOk(a[..], Taken(a[..]))
    modifies a
    ensures HashOk(a[..], nSet) && Members(a[..]) == old(Members(a[..])) - {v}
  {
    var aiValues := a[..];
    ZeroSlots(a);
    nSet := 0;
    for j := 0 to NINT
      invariant Probing(a[..]) && nSet == Taken(a[..]) <= Taken(aiValues[..j])
      invariant Members(a[..]) == Members(aiValues[..j]) - {v}
    {
      PrefixNext(aiValues, j);
      if aiValues[j] != 0 && aiValues[j] != v {
        NewInPrefix(aiValues, j);
        nSet := nSet + 1;
        PlaceFree(a, aiValues[j]);
      }
    }
    assert aiValues[..NINT] == aiValues;
  }

  class Bitvec {
    const iSize: nat
    var nSet: nat
    var iDivisor: nat
    /** The union: only the member that belongs to the present representation has a meaning. */
    const aBitmap: array<bv8>
    const aHash: array<nat>
    const apSub: array<Bitvec?>
    /** The set that this object stands for, and the objects it is made of. */
    ghost var S: set<nat>
    ghost var Repr: set<object>

    ghost predicate Shape()
      reads this
    {
      this in Repr && aBitmap in Repr && aHash in Repr && apSub in Repr
      && aBitmap.Length == NELEM && aHash.Length == NINT && apSub.Length == NPTR && iSize < U32
      && forall i :: i in S ==> 1 <= i <= iSize
    }

    /** The child that stores i has it. */
    ghost predicate InChild(i: nat)
      requires apSub.Length == NPTR && i > 0 && iDivisor > 0 && Bin(i, iDivisor) < NPTR
      reads this`iDivisor, apSub, apSub[Bin(i, iDivisor)]
    {
      var sub := apSub[Bin(i, iDivisor)];
      sub != null && Local(i, iDivisor) in sub.S
    }

    ghost predicate Valid()
      reads this, Repr
      decreases iSize, 1
    {
      Shape() &&
      if iSize <= NBIT then
        iDivisor == 0 && forall i :: 1 <= i <= iSize ==> (i in S <==> InBitmap(aBitmap[..], i))
      else if iDivisor == 0 then
        HashOk(aHash[..], nSet) && Members(aHash[..]) == S
      else
        Children() && Faithful()
    }

    /** The children form a tree: valid, and made of objects of their own. */
    ghost predicate Children()
      reads this`iDivisor, this`Repr, Repr - {this}
      decreases iSize, 0
    {
      iSize > NBIT && iDivisor == Divisor(iSize) && iDivisor < iSize && iDivisor < U32
      && apSub in Repr - {this} && apSub.Length == NPTR
      && (forall k :: 0 <= k < NPTR && apSub[k] != null ==>
            apSub[k] in Repr - {this} && OwnObjects(apSub[k]) && apSub[k].iSize == iDivisor && apSub[k].Valid())
      && forall j, k :: 0 <= j < k < NPTR && apSub[j] != null && apSub[k] != null ==> apSub[j].Repr !! apSub[k].Repr
    }

    ghost predicate OwnObjects(sub: Bitvec)
      reads this`Repr, sub`Repr
    {
      sub.Repr <= Repr - {this, aBitmap, aHash, apSub}
    }

    /** The members are those of the children. */
    ghost predicate Faithful()
      requires iSize > NBIT && iDivisor == Divisor(iSize) && apSub.Length == NPTR
      reads this`S, this`iDivisor, apSub, set k | 0 <= k < apSub.Length :: apSub[k]
    {
      forall i :: 1 <= i <= iSize ==> Bin(i, iDivisor) < NPTR && (i in S <==> InChild(i))
    }

    /** sqlite3BitvecCreate, once the memory is there. */
    constructor (iSize: nat)
      requires iSize < U32
      ensures Valid() && fresh(Repr) && S == {} && this.iSize == iSize
    {
      this.iSize := iSize;
      nSet, iDivisor := 0, 0;
      aBitmap := new bv8[NELEM](_ => 0);
      aHash := new nat[NINT](_ => 0);
      apSub := new Bitvec?[NPTR](_ => null);
      S := {};
      new;
      Repr := {this, aBitmap, aHash, apSub};
      EmptyTable(aHash[..]);
    }

    /** The child of a subdivided node that handles member x+1, and the number of that member there. */
    method Child(x: nat) returns (sub: Bitvec?, y: nat)
      requires Valid() && iDivisor != 0 && x < iSize
      ensures sub == null ==> x + 1 !in S
      ensures sub != null ==> sub.Valid() && y < sub.iSize < iSize && (y + 1 in sub.S <==> x + 1 in S)
    {
      SplitBounds(iSize, x + 1);
      BinIsDivision(x + 1, iDivisor);
      assert x + 1 in S <==> InChild(x + 1);
      var bin := x / iDivisor;
      y := x % iDivisor;
      sub := apSub[bin];
    }

    /** The last part of a test: a node that is not subdivided. */
    method TestLeaf(i: nat) returns (r: bool)
      requires Valid() && iDivisor == 0 && 1 <= i <= iSize
      ensures r == (i in S)
    {
      if iSize <= NBIT {
        assert i in S <==> InBitmap(aBitmap[..], i);
        return Bit(aBitmap[(i - 1) / 8], (i - 1) % 8);
      }
      r := TestHash(aHash, i);
    }

    /** sqlite3BitvecTestNotNull. The argument wraps around when i is 0. */
    method TestNotNull(i: nat) returns (r: bool)
      requires Valid() && i < U32
      ensures r == (i in S)
    {
      var i0 := (i + U32 - 1) % U32;
      if i0 >= iSize { return false; }
      assert i0 + 1 == i;
      var p: Bitvec := this;
      var x: nat := i0;
      while p.iDivisor != 0
        invariant p.Valid() && x < p.iSize && (x + 1 in p.S <==> i in S)
        decreases p.iSize
      {
        var sub, y := p.Child(x);
        if sub == null { return false; }
        p, x := sub, y;
      }
      r := p.TestLeaf(x + 1);
    }

    method SetBitmap(i: nat)
      requires Valid() && iSize <= NBIT && 1 <= i <= iSize
      modifies this`S, aBitmap
      ensures Valid() && S == old(S) + {i}
    {
      ghost var was := aBitmap[..];
      aBitmap[(i - 1) / 8] := aBitmap[(i - 1) / 8] | Mask((i - 1) % 8);
      assert aBitmap[..] == was[(i - 1) / 8 := was[(i - 1) / 8] | Mask((i - 1) % 8)];
      forall j | 1 <= j <= iSize ensures InBitmap(aBitmap[..], j) <==> j == i || InBitmap(was, j) {
        BitmapSet(was, i, j);
      }
      S := S + {i};
    }

    /** bitvec_set_end */
    method Store(h: nat, i: nat, ghost d: nat)
      requires Valid() && iSize > NBIT && iDivisor == 0 && 1 <= i <= iSize && nSet < NINT - 1
      requires d < NINT && h == Around(Home(i), d) && aHash[h] == 0 && Probed(aHash[..], i, d) && i !in S
      modifies this`S, this`nSet, aHash
      ensures Valid() && S == old(S) + {i}
    {
      InsertKeeps(aHash[..], i, d);
      ghost var was := aHash[..];
      nSet := nSet + 1;
      aHash[h] := i;
      assert aHash[..] == was[h := i];
      S := S + {i};
    }

    /**
     sqlite3BitvecSet. It reports NOMEM exactly if one of its requests for memory was refused; then a subset of what was
     asked for is left, and what was there before if it was the first request.
     */
    method Set(i: nat, fails: nat -> bool, n: nat) returns (rc: Rc, n': nat)
      requires Valid() && 1 <= i <= iSize
      modifies Repr
      ensures Valid() && fresh(Repr - old(Repr))
      ensures S <= old(S) + {i} && (rc == OK ==> S == old(S) + {i})
      ensures n' >= n && (rc == OK <==> Granted(fails, n, n')) && (n' == n + 1 && rc != OK ==> S == old(S))
      ensures old(iDivisor) != 0 ==> iDivisor == old(iDivisor)
      decreases iSize, if iDivisor == 0 then 2 else 1, 1
    {
      if iSize > NBIT && iDivisor != 0 {
        rc, n' := SetInChild(i, fails, n);
        return;
      }
      if iSize <= NBIT {
        SetBitmap(i);
        return OK, n;
      }
      var h := (i - 1) % NINT;
      ghost var d := 0;
      if aHash[h] == 0 {
        NotMissed(aHash[..], i, 0);
        if nSet < NINT - 1 {
          Store(h, i, 0);
          return OK, n;
        }
      } else {
        var found;
        found, h, d := FindSlot(aHash, i);
        if found { return OK, n; }
      }
      if nSet >= MXHASH {
        rc, n' := Subdivide(i, fails, n);
        return;
      }
      Store(h, i, d);
      return OK, n;
    }

    /** Descend to the child that handles i, creating it if necessary. */
    method SetInChild(i: nat, fails: nat -> bool, n: nat) returns (rc: Rc, n': nat)
      requires Valid() && 1 <= i <= iSize && iSize > NBIT && iDivisor != 0
      modifies Repr
      ensures Valid() && fresh(Repr - old(Repr))
      ensures S <= old(S) + {i} && (rc == OK ==> S == old(S) + {i})
      ensures n' >= n && (rc == OK <==> Granted(fails, n, n')) && (n' == n + 1 && rc != OK ==> S == old(S))
      ensures iDivisor == old(iDivisor)
      decreases iSize, 0, 2
    {
      SplitBounds(iSize, i);
      BinIsDivision(i, iDivisor);
      var bin := (i - 1) / iDivisor;
      n' := n;
      if apSub[bin] == null {
        var ok;
        ok, n' := Malloc(fails, n);
        if !ok { return NOMEM, n'; }
        AddChild(bin);
      }
      rc, n' := SetChild(bin, i, fails, n');
    }

    method AddChild(bin: nat)
      requires Valid() && iSize > NBIT && iDivisor != 0 && bin < NPTR && apSub[bin] == null
      modifies this`Repr, apSub
      ensures Valid() && fresh(Repr - old(Repr)) && apSub[bin] != null
    {
      var sub := new Bitvec(iDivisor);
      apSub[bin] := sub;
      Repr := Repr + sub.Repr;
      assert forall k :: 0 <= k < NPTR && k != bin ==> apSub[k] == old(apSub[k]);
      assert Children();
      forall j | 1 <= j <= iSize ensures j in S <==> InChild(j) {
        assert j in S <==> old(InChild(j));
      }
    }

    method SetChild(bin: nat, i: nat, fails: nat -> bool, n: nat) returns (rc: Rc, n': nat)
      requires Valid() && 1 <= i <= iSize && iSize > NBIT && iDivisor != 0
      requires bin < NPTR && bin == Bin(i, iDivisor) && apSub[bin] != null
      modifies Repr
      ensures Valid() && fresh(Repr - old(Repr))
      ensures S <= old(S) + {i} && (rc == OK ==> S == old(S) + {i})
      ensures n' >= n && (rc == OK <==> Granted(fails, n, n')) && (n' == n + 1 && rc != OK ==> S == old(S))
      ensures iDivisor == old(iDivisor)
      decreases iSize, 0, 1
    {
      BinIsDivision(i, iDivisor);
      rc, n' := CallChild(bin, (i - 1) % iDivisor + 1, fails, n);
      SyncMembers();
      forall j | 1 <= j <= iSize
        ensures j in S ==> j in old(S) || j == i
        ensures rc == OK && (j in old(S) || j == i) ==> j in S
        ensures n' == n + 1 && rc != OK ==> (j in S <==> j in old(S))
      {
        SplitApart(iSize, iDivisor, i, j);
        assert j in old(S) <==> old(InChild(j));
        assert j in S <==> InChild(j);
      }
    }

    /** The members of a node are read off its children. */
    ghost method SyncMembers()
      requires Shape() && Children()
      modifies this`S
      ensures Valid() && forall j :: j in S ==> 1 <= j <= iSize
      ensures forall j :: 1 <= j <= iSize ==> Bin(j, iDivisor) < NPTR && (j in S <==> InChild(j))
    {
      forall j | 1 <= j <= iSize ensures Bin(j, iDivisor) < NPTR { SplitBounds(iSize, j); }
      S := set j | 1 <= j <= iSize && Bin(j, iDivisor) < NPTR && InChild(j);
    }

    method CallChild(bin: nat, x: nat, fails: nat -> bool, n: nat) returns (rc: Rc, n': nat)
      requires Children() && bin < NPTR && apSub[bin] != null && 1 <= x <= iDivisor
      modifies this`Repr, Repr - {this, aBitmap, aHash, apSub}
      ensures Children() && fresh(Repr - old(Repr)) && old(Repr) <= Repr
      ensures apSub[bin].S <= old(apSub[bin].S) + {x} && (rc == OK ==> apSub[bin].S == old(apSub[bin].S) + {x})
      ensures n' >= n && (rc == OK <==> Granted(fails, n, n'))
      ensures n' == n + 1 && rc != OK ==> apSub[bin].S == old(apSub[bin].S)
      ensures forall k :: 0 <= k < NPTR && k != bin && apSub[k] != null ==> apSub[k].S == old(apSub[k].S)
      decreases iSize, 0, 0
    {
      var sub := apSub[bin];
      rc, n' := sub.Set(x, fails, n);
      Repr := Repr + sub.Repr;
      forall k | 0 <= k < NPTR && k != bin && apSub[k] != null
        ensures apSub[k].Valid() && apSub[k].Repr !! sub.Repr && apSub[k].S == old(apSub[k].S)
      {
        assert old(apSub[k].Valid()) && old(apSub[k].Repr) !! old(sub.Repr);
      }
    }

    /** sqlite3BitvecClear */
    method Clear(i: nat)
      requires Valid() && 1 <= i <= iSize
      modifies Repr
      ensures Valid() && fresh(Repr - old(Repr)) && S == old(S) - {i}
      decreases iSize, 1
    {
      if iDivisor != 0 {
        ClearInChild(i);
      } else if iSize <= NBIT {
        ghost var was := aBitmap[..];
        aBitmap[(i - 1) / 8] := aBitmap[(i - 1) / 8] & !Mask((i - 1) % 8);
        assert aBitmap[..] == was[(i - 1) / 8 := was[(i - 1) / 8] & !Mask((i - 1) % 8)];
        forall j | 1 <= j <= iSize ensures InBitmap(aBitmap[..], j) <==> j != i && InBitmap(was, j) {
          BitmapClear(was, i, j);
        }
        S := S - {i};
      } else {
        nSet := Rebuild(aHash, i);
        S := S - {i};
      }
    }

    method ClearInChild(i: nat)
      requires Valid() && 1 <= i <= iSize && iSize > NBIT && iDivisor != 0
      modifies Repr
      ensures Valid() && fresh(Repr - old(Repr)) && S == old(S) - {i}
      decreases iSize, 0, 1
    {
      SplitBounds(iSize, i);
      BinIsDivision(i, iDivisor);
      var bin := (i - 1) / iDivisor;
      assert i in S <==> InChild(i);
      if apSub[bin] == null { return; }
      ClearChild(bin, (i - 1) % iDivisor + 1);
      SyncMembers();
      forall j | 1 <= j <= iSize ensures j in S <==> j in old(S) && j != i {
        SplitApart(iSize, iDivisor, i, j);
        assert j in old(S) <==> old(InChild(j));
        assert j in S <==> InChild(j);
      }
    }

    method ClearChild(bin: nat, x: nat)
      requires Children() && bin < NPTR && apSub[bin] != null && 1 <= x <= iDivisor
      modifies this`Repr, Repr - {this, aBitmap, aHash, apSub}
      ensures Children() && fresh(Repr - old(Repr)) && old(Repr) <= Repr
      ensures apSub[bin].S == old(apSub[bin].S) - {x}
      ensures forall k :: 0 <= k < NPTR && k != bin && apSub[k] != null ==> apSub[k].S == old(apSub[k].S)
      decreases iSize, 0, 0
    {
      var sub := apSub[bin];
      sub.Clear(x);
      Repr := Repr + sub.Repr;
      forall k | 0 <= k < NPTR && k != bin && apSub[k] != null
        ensures apSub[k].Valid() && apSub[k].Repr !! sub.Repr && apSub[k].S == old(apSub[k].S)
      {
        assert old(apSub[k].Valid()) && old(apSub[k].Repr) !! old(sub.Repr);
      }
    }

    /** sqlite3BitvecDestroy: the nodes in the order in which they are freed. */
    method Destroy() returns (freed: seq<Bitvec>)
      requires Valid()
      ensures freed != [] && freed[|freed| - 1] == this
      ensures forall p :: p in freed ==> p in Repr
      ensures forall j, k :: 0 <= j < k < |freed| ==> freed[j] != freed[k]
      ensures forall p :: p in freed ==> ChildrenIn(p, freed)
      decreases iSize, 1
    {
      freed := [];
      if iDivisor != 0 {
        freed := DestroyChildren();
      }
      forall p | p in freed ensures ChildrenIn(p, freed + [this]) {}
      assert ChildrenIn(this, freed + [this]);
      freed := freed + [this];
    }

    method DestroyChildren() returns (freed: seq<Bitvec>)
      requires Valid() && iDivisor != 0
      ensures forall p :: p in freed ==> p in Repr && p != this
      ensures forall j, k :: 0 <= j < k < |freed| ==> freed[j] != freed[k]
      ensures forall p :: p in freed ==> ChildrenIn(p, freed)
      ensures forall k :: 0 <= k < NPTR && apSub[k] != null ==> apSub[k] in freed
      decreases iSize, 0
    {
      freed := [];
      ghost var used: set<object> := {};
      for i := 0 to NPTR
        invariant used <= Repr - {this} && forall k :: i <= k < NPTR && apSub[k] != null ==> apSub[k].Repr !! used
        invariant forall p :: p in freed ==> p in used && ChildrenIn(p, freed)
        invariant forall j, k :: 0 <= j < k < |freed| ==> freed[j] != freed[k]
        invariant forall k :: 0 <= k < i && apSub[k] != null ==> apSub[k] in freed
      {
        var sub := apSub[i];
        if sub != null {
          assert sub.Valid() && sub.Repr <= Repr - {this};
          var more := sub.Destroy();
          assert sub in more;
          forall p | p in freed ensures p !in more { assert p in used; }
          NoDuplicates(freed, more);
          forall p | p in freed + more ensures ChildrenIn(p, freed + more) { ChildrenInMore(p, freed, more); }
          used := used + sub.Repr;
          freed := freed + more;
        }
      }
    }

    /** The hash table becomes an empty table of children. */
    method EmptyTree()
      requires Valid() && iSize > NBIT && iDivisor == 0
      modifies this`S, this`iDivisor, apSub
      ensures Valid() && S == {} && iDivisor != 0
    {
      for k := 0 to NPTR
        invariant forall j :: 0 <= j < k ==> apSub[j] == null
        modifies apSub
      {
        apSub[k] := null;
      }
      SplitBounds(iSize, 1);
      iDivisor := (iSize + NPTR - 1) / NPTR;
      S := {};
      forall j | 1 <= j <= iSize ensures Bin(j, iDivisor) < NPTR { SplitBounds(iSize, j); }
    }

    /** Put the values of the old table back. */
    method Rehash(aiValues: seq<nat>, i: nat, start: Rc, fails: nat -> bool, n: nat) returns (rc: Rc, n': nat)
      requires Valid() && iSize > NBIT && iDivisor != 0 && |aiValues| == NINT
      requires forall v :: v in Members(aiValues) ==> 1 <= v <= iSize
      requires S <= {i} && (start == OK ==> S == {i})
      modifies Repr
      ensures Valid() && fresh(Repr - old(Repr))
      ensures S <= Members(aiValues) + {i} && (rc == OK ==> S == Members(aiValues) + {i})
      ensures n' >= n && (rc == OK <==> start == OK && Granted(fails, n, n'))
      decreases iSize, 1, 2
    {
      rc, n' := start, n;
      for j := 0 to NINT
        invariant Valid() && fresh(Repr - old(Repr)) && iDivisor != 0
        invariant n' >= n && (rc == OK <==> start == OK && Granted(fails, n, n'))
        invariant S <= Members(aiValues[..j]) + {i} && (rc == OK ==> S == Members(aiValues[..j]) + {i})
      {
        assert aiValues[..j + 1] == aiValues[..j] + [aiValues[j]];
        MembersAppend(aiValues[..j], aiValues[j]);
        if aiValues[j] != 0 {
          assert aiValues[j] in Members(aiValues);
          var rc2;
          rc2, n' := Set(aiValues[j], fails, n');
          if rc2 != OK { rc := rc2; }
        }
      }
      assert aiValues[..NINT] == aiValues;
    }

    /** The hash table is too full: turn it into children. */
    method Subdivide(i: nat, fails: nat -> bool, n: nat) returns (rc: Rc, n': nat)
      requires Valid() && 1 <= i <= iSize && iSize > NBIT && iDivisor == 0 && i !in S
      modifies Repr
      ensures Valid() && fresh(Repr - old(Repr))
      ensures S <= old(S) + {i} && (rc == OK ==> S == old(S) + {i})
      ensures n' >= n && (rc == OK <==> Granted(fails, n, n')) && (n' == n + 1 && rc != OK ==> S == old(S))
      decreases iSize, 2, 0
    {
      var ok;
      ok, n' := Malloc(fails, n);
      if !ok { return NOMEM, n'; }
      var aiValues := aHash[..];
      EmptyTree();
      rc, n' := Set(i, fails, n');
      assert rc != OK ==> n' > n + 1;
      rc, n' := Rehash(aiValues, i, rc, fails, n');
    }
  }

  /** All children of p are in the list. */
  ghost predicate ChildrenIn(p: Bitvec, list: seq<Bitvec>)
    reads p, p.apSub
  {
    p.iDivisor != 0 ==> forall k :: 0 <= k < p.apSub.Length && p.apSub[k] != null ==> p.apSub[k] in list
  }

  lemma NoDuplicates(a: seq<Bitvec>, b: seq<Bitvec>)
    requires forall j, k :: 0 <= j < k < |a| ==> a[j] != a[k]
    requires forall j, k :: 0 <= j < k < |b| ==> b[j] != b[k]
    requires forall p :: p in a ==> p !in b
    ensures forall j, k :: 0 <= j < k < |a + b| ==> (a + b)[j] != (a + b)[k]
  {
    forall j, k | 0 <= j < k < |a + b| ensures (a + b)[j] != (a + b)[k] {
      if j < |a| <= k {
        assert a[j] in a && b[k - |a|] in b;
      }
    }
  }

  lemma ChildrenInMore(p: Bitvec, a: seq<Bitvec>, b: seq<Bitvec>)
    requires (p in a ==> ChildrenIn(p, a)) && (p in b ==> ChildrenIn(p, b)) && (p in a || p in b)
    ensures ChildrenIn(p, a + b)
  {
  }

  lemma MembersAppend(s: Slots, v: nat)
    ensures Members(s + [v]) == Members(s) + if v != 0 then {v} else {}
  {
    forall x | x in Members(s) + (if v != 0 then {v} else {}) ensures x in Members(s + [v]) {
      if x in Members(s) {
        var j :| 0 <= j < |s| && s[j] != 0 && s[j] == x;
        assert (s + [v])[j] == x;
      } else {
        assert (s + [v])[|s|] == x;
      }
    }
  }

  /** sqlite3BitvecTest */
  method BitvecTest(p: Bitvec?, i: nat) returns (r: bool)
    requires i < U32 && (p != null ==> p.Valid())
    ensures r == (p != null && i in p.S)
  {
    if p == null { return false; }
    r := p.TestNotNull(i);
  }

  /** sqlite3BitvecSet */
  method BitvecSet(p: Bitvec?, i: nat, fails: nat -> bool, n: nat) returns (rc: Rc, n': nat)
    requires p != null ==> p.Valid() && 1 <= i <= p.iSize
    modifies if p == null then {} else p.Repr
    ensures n' >= n && (rc == OK <==> Granted(fails, n, n'))
    ensures p == null ==> rc == OK
    ensures p != null ==> p.Valid() && fresh(p.Repr - old(p.Repr))
    ensures p != null ==> p.S <= old(p.S) + {i} && (rc == OK ==> p.S == old(p.S) + {i})
  {
    if p == null { return OK, n; }
    rc, n' := p.Set(i, fails, n);
  }

  /** sqlite3BitvecClear */
  method BitvecClear(p: Bitvec?, i: nat)
    requires p != null ==> p.Valid() && 1 <= i <= p.iSize
    modifies if p == null then {} else p.Repr
    ensures p != null ==> p.Valid() && fresh(p.Repr - old(p.Repr)) && p.S == old(p.S) - {i}
  {
    if p == null { return; }
    p.Clear(i);
  }

  ghost predicate IsChild(p: Bitvec, c: Bitvec)
    reads p, p.apSub
  {
    p.iDivisor != 0 && exists b :: 0 <= b < p.apSub.Length && p.apSub[b] == c
  }

  /** A path down a tree: each node is a child of the one before. */
  ghost predicate Path(chain: seq<Bitvec>)
    reads chain, set p | p in chain :: p.apSub
  {
    chain != [] && forall k :: 0 < k < |chain| ==> IsChild(chain[k - 1], chain[k])
  }

  /** Number of subdivisions that a vector of this size can see on one path. */
  function Levels(iSize: nat): (n: nat) {
    if iSize <= NBIT then 0 else 1 + Levels(Divisor(iSize))
  }

  /** At most four subdivisions for any 32-bit size, and four do occur. */
  lemma FourLevels(iSize: nat)
    requires iSize < U32
    ensures Levels(iSize) <= 4 && Levels(U32 - 1) == 4
  {
    var s1 := Divisor(iSize);
    var s2 := Divisor(s1);
    var s3 := Divisor(s2);
    assert Divisor(s3) <= NBIT;
    assert Levels(Divisor(s3)) == 0;
    assert Levels(s3) <= 1 && Levels(s2) <= 2 && Levels(s1) <= 3;
    assert Divisor(U32 - 1) == 69273667 && Divisor(69273667) == 1117318 && Divisor(1117318) == 18022
      && Divisor(18022) == 291;
    assert Levels(291) == 0 && Levels(18022) == 1 && Levels(1117318) == 2 && Levels(69273667) == 3;
  }

  lemma {:induction false} DepthBound(chain: seq<Bitvec>, k: nat)
    requires Path(chain) && chain[0].Valid() && k < |chain|
    ensures chain[k].Valid() && Levels(chain[k].iSize) + k <= Levels(chain[0].iSize)
  {
    if k > 0 {
      DepthBound(chain, k - 1);
      assert IsChild(chain[k - 1], chain[k]);
      assert chain[k].Valid() && chain[k].iSize == Divisor(chain[k - 1].iSize);
    }
  }

  /** No node of a valid tree is more than four children away from its root. */
  lemma TreeDepth(chain: seq<Bitvec>)
    requires Path(chain) && chain[0].Valid()
    ensures |chain| <= 5
  {
    DepthBound(chain, |chain| - 1);
    FourLevels(chain[0].iSize);
  }
}
