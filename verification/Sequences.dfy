/** Taking one element out of a sequence. */
module Sequences {

  ghost function Without<T>(s: seq<T>, k: nat): seq<T>
    requires k < |s|
  {
    s[..k] + s[k + 1..]
  }

  lemma WithoutAt<T>(s: seq<T>, k: nat, j: nat)
    requires k < |s| && j < |s| - 1
    ensures Without(s, k)[j] == s[if j < k then j else j + 1]
    ensures Without(s, k)[j + 1..] == if j < k then Without(s[j + 1..], k - j - 1) else s[j + 2..]
  {
    if j < k {
      assert s[j + 1..][..k - j - 1] == s[..k][j + 1..];
      assert s[j + 1..][k - j..] == s[k + 1..];
    }
  }

  lemma WithoutMembers<T>(s: seq<T>, k: nat)
    requires k < |s|
    ensures forall x :: x in Without(s, k) ==> x in s
  {
  }

  lemma WithoutDistinct<T>(s: seq<T>, k: nat)
    requires k < |s| && forall i, j :: 0 <= i < j < |s| ==> s[i] != s[j]
    ensures forall i, j :: 0 <= i < j < |s| - 1 ==> Without(s, k)[i] != Without(s, k)[j]
  {
  }
}
