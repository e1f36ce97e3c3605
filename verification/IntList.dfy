/** The space-separated integer lists that ANALYZE stores as text, and their reader. */
module IntList {
  import opened Arithmetic

  function DigitChar(d: nat): (c: char)
    requires d < 10
    ensures '0' <= c <= '9' && c as int - '0' as int == d
  {
    '0' + d as char
  }

  /** %llu: digits only, and no zero in front of a longer number. */
  function Decimal(n: nat): (s: string)
    ensures |s| > 0 && forall i :: 0 <= i < |s| ==> '0' <= s[i] <= '9'
    ensures n == 0 ==> s == "0"
    ensures n > 0 ==> s[0] != '0'
  {
    if n < 10 then [DigitChar(n)] else Decimal(n / 10) + [DigitChar(n % 10)]
  }

  /** The list as one text, a blank between neighbours. */
  function Text(counts: seq<nat>): (s: string) {
    if |counts| == 0 then ""
    else if |counts| == 1 then Decimal(counts[0])
    else Decimal(counts[0]) + " " + Text(counts[1..])
  }

  predicate IsDigit(c: char) {
    '0' <= c <= '9'
  }

  /** The leading digits. */
  function Leading(z: string): string {
    if z == "" || !IsDigit(z[0]) then "" else [z[0]] + Leading(z[1..])
  }

  /** What remains after them and at most one blank. */
  function AfterNumber(z: string): (rest: string)
    ensures |rest| <= |z|
  {
    if z == "" then "" else if IsDigit(z[0]) then AfterNumber(z[1..]) else if z[0] == ' ' then z[1..] else z
  }

  /** v*10 + c - '0' in an unsigned type of `modulus` values. */
  function Accumulate(v: nat, c: char, modulus: nat): nat
    requires modulus > 0
  {
    (v * 10 + (c as int - '0' as int)) % modulus
  }

  function Value(v: nat, digits: string, modulus: nat): nat
    requires modulus > 0
    decreases |digits|
  {
    if digits == "" then v else Value(Accumulate(v, digits[0], modulus), digits[1..], modulus)
  }

  /** The numbers that decodeIntArray reads: at most nOut, and only while text is left. */
  function Numbers(z: string, nOut: nat): (out: seq<string>)
    ensures |out| <= nOut
    decreases nOut
  {
    if z == "" || nOut == 0 then [] else [Leading(z)] + Numbers(AfterNumber(z), nOut - 1)
  }

  /** The values that it stores. */
  function Decode(z: string, nOut: nat, modulus: nat): (out: seq<nat>)
    requires modulus > 0
    ensures |out| <= nOut
  {
    var texts := Numbers(z, nOut);
    seq(|texts|, k requires 0 <= k < |texts| => Value(0, texts[k], modulus))
  }

  lemma {:induction false} ValueAppend(v: nat, s: string, c: char, modulus: nat)
    requires modulus > 0
    ensures Value(v, s + [c], modulus) == Accumulate(Value(v, s, modulus), c, modulus)
    decreases |s|
  {
    if s == "" {
      assert s + [c] == [c] && [c][1..] == "";
    } else {
      assert (s + [c])[1..] == s[1..] + [c];
      ValueAppend(Accumulate(v, s[0], modulus), s[1..], c, modulus);
    }
  }

  lemma {:induction false} ReadDigits(s: string, rest: string)
    requires forall i :: 0 <= i < |s| ==> IsDigit(s[i])
    requires rest == "" || rest[0] == ' '
    ensures Leading(s + rest) == s && AfterNumber(s + rest) == if rest == "" then "" else rest[1..]
  {
    if s == "" {
      assert s + rest == rest;
    } else {
      assert (s + rest)[1..] == s[1..] + rest;
      ReadDigits(s[1..], rest);
    }
  }

  /** A count is read back modulo the range of the counter type. */
  lemma {:induction false} DecimalWraps(n: nat, modulus: nat)
    requires modulus > 0
    ensures Value(0, Decimal(n), modulus) == n % modulus
  {
    if n < 10 {
      assert Value(0, Decimal(n), modulus) == Value(Accumulate(0, DigitChar(n), modulus), "", modulus);
    } else {
      DecimalWraps(n / 10, modulus);
      ValueAppend(0, Decimal(n / 10), DigitChar(n % 10), modulus);
      ModStep(n / 10, n % 10, modulus);
    }
  }

  lemma ModStep(a: nat, d: nat, m: nat)
    requires m > 0
    ensures (a % m * 10 + d) % m == (a * 10 + d) % m
  {
    var q := a / m;
    assert a * 10 + d == a % m * 10 + d + m * (q * 10) by {
      assert a == m * q + a % m;
      assert m * q * 10 == m * (q * 10);
    }
    ModShift(a % m * 10 + d, m, q * 10);
  }

  lemma {:induction false} ModShift(a: nat, m: nat, k: nat)
    requires m > 0
    ensures (a + m * k) % m == a % m
    decreases k
  {
    if k > 0 {
      ModShift(a, m, k - 1);
      var b := a + m * (k - 1);
      assert a + m * k == b + m;
      QuotientNext(b, m);
    }
  }

  function Wrapped(counts: seq<nat>, modulus: nat): (r: seq<nat>)
    requires modulus > 0
    ensures |r| == |counts|
  {
    seq(|counts|, k requires 0 <= k < |counts| => counts[k] % modulus)
  }

  lemma TextCons(counts: seq<nat>)
    requires counts != []
    ensures Text(counts) == Decimal(counts[0]) + (if |counts| == 1 then "" else " " + Text(counts[1..]))
  {
    var first := Decimal(counts[0]);
    if |counts| == 1 {
      assert first + "" == first;
    } else {
      var more := Text(counts[1..]);
      assert first + (" " + more) == first + " " + more;
    }
  }

  lemma ReadText(counts: seq<nat>, z: string)
    requires counts != [] && z == Text(counts)
    ensures z != "" && Leading(z) == Decimal(counts[0]) && AfterNumber(z) == Text(counts[1..])
  {
    TextCons(counts);
    ReadDigits(Decimal(counts[0]), if |counts| == 1 then "" else " " + Text(counts[1..]));
  }

  /** Number k of a printed list is read as it was written. */
  lemma {:induction false} NumbersOfText(counts: seq<nat>, z: string, k: nat)
    requires z == Text(counts)
    ensures |Numbers(z, |counts|)| == |counts|
    ensures k < |counts| ==> Numbers(z, |counts|)[k] == Decimal(counts[k])
  {
    if counts != [] {
      ReadText(counts, z);
      NumbersOfText(counts[1..], AfterNumber(z), if k > 0 then k - 1 else 0);
    }
  }

  /** What the reader makes of a printed list. */
  lemma DecodedText(counts: seq<nat>, z: string, modulus: nat)
    requires modulus > 0 && z == Text(counts)
    ensures Decode(z, |counts|, modulus) == Wrapped(counts, modulus)
  {
    NumbersOfText(counts, z, 0);
    forall k | 0 <= k < |counts| ensures Decode(z, |counts|, modulus)[k] == Wrapped(counts, modulus)[k] {
      NumbersOfText(counts, z, k);
      DecimalWraps(counts[k], modulus);
    }
  }

  lemma ModSmall(n: nat, m: nat)
    requires m > 0
    ensures n % m == n <==> n < m
  {
  }

  /** Reading what was written gives the list back exactly when every count fits the counter type. */
  lemma RoundTrip(counts: seq<nat>, modulus: nat)
    requires modulus > 0
    ensures Decode(Text(counts), |counts|, modulus) == counts <==> forall i :: 0 <= i < |counts| ==> counts[i] < modulus
  {
    var w := Wrapped(counts, modulus);
    DecodedText(counts, Text(counts), modulus);
    forall i | 0 <= i < |counts| ensures w[i] == counts[i] <==> counts[i] < modulus {
      ModSmall(counts[i], modulus);
    }
  }

  /** The digits of one number, and the blank behind them. */
  method ReadNumber(z0: string, modulus: nat) returns (v: nat, z: string)
    requires modulus > 0
    ensures v == Value(0, Leading(z0), modulus) && z == AfterNumber(z0)
  {
    v, z := 0, z0;
    while z != "" && '0' <= z[0] <= '9'
      invariant AfterNumber(z) == AfterNumber(z0)
      invariant Value(v, Leading(z), modulus) == Value(0, Leading(z0), modulus)
      decreases |z|
    {
      assert Leading(z)[1..] == Leading(z[1..]);
      v := (v * 10 + (z[0] as int - '0' as int)) % modulus;
      z := z[1..];
    }
    if z != "" && z[0] == ' ' { z := z[1..]; }
  }

  /** The text left after i numbers. */
  function Rest(z: string, i: nat): string
    decreases i
  {
    if i == 0 then z else Rest(AfterNumber(z), i - 1)
  }

  lemma {:induction false} RestNext(z: string, i: nat)
    ensures Rest(z, i + 1) == AfterNumber(Rest(z, i))
    decreases i
  {
    if i > 0 { RestNext(AfterNumber(z), i - 1); }
  }

  /** Number k of the text. */
  lemma {:induction false} NumbersAt(z: string, nOut: nat, k: nat, x: string)
    requires k < |Numbers(z, nOut)| && x == Rest(z, k)
    ensures Numbers(z, nOut)[k] == Leading(x)
    decreases k
  {
    if k > 0 {
      NumbersAt(AfterNumber(z), nOut - 1, k - 1, x);
    }
  }

  lemma {:induction false} NumbersLength(z: string, nOut: nat, i: nat)
    requires i <= nOut
    requires forall k :: 0 <= k < i ==> Rest(z, k) != ""
    requires i == nOut || Rest(z, i) == ""
    ensures |Numbers(z, nOut)| == i
    decreases i
  {
    assert Rest(z, 0) == z;
    if i > 0 {
      forall k | 0 <= k < i - 1 ensures Rest(AfterNumber(z), k) != "" {
        assert Rest(z, k + 1) != "";
      }
      NumbersLength(AfterNumber(z), nOut - 1, i - 1);
    }
  }

  /** decodeIntArray with aOut. Slots beyond the numbers found keep their value. */
  method DecodeIntArray(zIntArray: string, aOut: array<nat>, modulus: nat)
    requires modulus > 0
    modifies aOut
    ensures var d := Decode(zIntArray, aOut.Length, modulus);
            && (forall k :: 0 <= k < |d| ==> aOut[k] == d[k])
            && (forall k :: |d| <= k < aOut.Length ==> aOut[k] == old(aOut[k]))
  {
    var z := zIntArray;
    var i := 0;
    while z != "" && i < aOut.Length
      invariant 0 <= i <= aOut.Length && z == Rest(zIntArray, i)
      invariant forall k :: 0 <= k < i ==> Rest(zIntArray, k) != ""
      invariant forall k :: 0 <= k < i ==> aOut[k] == Value(0, Leading(Rest(zIntArray, k)), modulus)
      invariant forall k :: i <= k < aOut.Length ==> aOut[k] == old(aOut[k])
      decreases aOut.Length - i
    {
      RestNext(zIntArray, i);
      var v, rest := ReadNumber(z, modulus);
      aOut[i] := v;
      z := rest;
      i := i + 1;
    }
    ghost var d := Decode(zIntArray, aOut.Length, modulus);
    NumbersLength(zIntArray, aOut.Length, i);
    forall k | 0 <= k < i ensures aOut[k] == d[k] {
      NumbersAt(zIntArray, aOut.Length, k, Rest(zIntArray, k));
    }
  }

  /** The text of stat_get for nEq, nLt and nDLt: "%llu " for each count, without the last blank. */
  method PrintCounts(aCnt: seq<nat>) returns (zRet: string)
    requires |aCnt| > 0
    ensures zRet == Text(aCnt)
  {
    var i, z := 0, "";
    while i < |aCnt|
      invariant 0 <= i <= |aCnt| && z == Printed(aCnt[..i])
    {
      PrintedNext(aCnt[..i], aCnt[i]);
      assert aCnt[..i + 1] == aCnt[..i] + [aCnt[i]];
      z := z + (Decimal(aCnt[i]) + " ");
      i := i + 1;
    }
    assert aCnt[..i] == aCnt;
    zRet := z[..|z| - 1];
  }

  /** The buffer after some counts: each with a blank behind it. */
  function Printed(counts: seq<nat>): string {
    if counts == [] then "" else Text(counts) + " "
  }

  lemma PrintedNext(counts: seq<nat>, n: nat)
    ensures Printed(counts + [n]) == Printed(counts) + (Decimal(n) + " ")
  {
    TextAppend(counts, n);
    if counts == [] {
      assert Printed([n]) == Decimal(n) + " ";
    } else {
      var t, d := Text(counts), Decimal(n);
      assert (t + " " + d) + " " == (t + " ") + (d + " ");
    }
  }

  lemma {:induction false} TextAppend(counts: seq<nat>, n: nat)
    ensures Text(counts + [n]) == if counts == [] then Decimal(n) else Text(counts) + " " + Decimal(n)
  {
    var all := counts + [n];
    if counts != [] {
      assert all[1..] == counts[1..] + [n];
      TextAppend(counts[1..], n);
    }
  }

  lemma TextPrefix(list: seq<nat>, i: nat)
    requires 0 < i < |list|
    ensures Text(list[..i + 1]) == Text(list[..i]) + " " + Decimal(list[i])
  {
    assert list[..i + 1] == list[..i] + [list[i]];
    TextAppend(list[..i], list[i]);
  }
}
