/** Facts about sequences that several modules use. */
module Sequences {

  function Min(a: nat, b: nat): nat {
    if a < b then a else b
  }

  lemma Associative<T>(a: seq<T>, b: seq<T>, c: seq<T>)
    ensures a + (b + c) == (a + b) + c
  {
  }

  lemma SliceOfSlice<T>(s: seq<T>, from: nat, to: nat, i: nat, j: nat)
    requires from <= to <= |s| && i <= j <= to - from
    ensures s[from..to][i..j] == s[from + i..from + j]
  {
    var a, b, c := s[from..to], s[from..to][i..j], s[from + i..from + j];
    assert |b| == |c|;
    forall k | 0 <= k < |b| ensures b[k] == c[k] {
      assert b[k] == a[i + k] == s[from + i + k] == c[k];
    }
  }
}
