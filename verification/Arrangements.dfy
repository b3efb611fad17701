/** Reordering a list in an arbitrary way: what sorting by a locale's collation amounts to here. */
module Arrangements {

  /** `p` lists every index below `n` exactly once. */
  predicate IsPermutation(p: seq<nat>, n: nat) {
    && |p| == n
    && (forall i | 0 <= i < n :: p[i] < n)
    && (forall i, j | 0 <= i < j < n :: p[i] != p[j])
    && (forall k | 0 <= k < n :: k in p)
  }

  function Rearranged<T>(s: seq<T>, p: seq<nat>): (r: seq<T>)
    requires IsPermutation(p, |s|)
    ensures |r| == |s|
  {
    seq(|s|, i requires 0 <= i < |s| => s[p[i]])
  }

  /** Reordering keeps exactly the elements. */
  lemma SameElements<T>(s: seq<T>, p: seq<nat>, x: T)
    requires IsPermutation(p, |s|)
    ensures x in Rearranged(s, p) <==> x in s
  {
    var r := Rearranged(s, p);
    if x in s {
      var k: nat :| k < |s| && s[k] == x;
      assert k in p;
      var i :| 0 <= i < |p| && p[i] == k;
      assert r[i] == x;
    }
    if x in r {
      var i :| 0 <= i < |r| && r[i] == x;
      assert s[p[i]] == x;
    }
  }

  method Arrange<T>(s: seq<T>) returns (r: seq<T>, p: seq<nat>)
    ensures IsPermutation(p, |s|) && r == Rearranged(s, p)
  {
    IdentityIsPermutation(|s|);
    p :| IsPermutation(p, |s|);
    r := Rearranged(s, p);
  }

  lemma IdentityIsPermutation(n: nat)
    ensures IsPermutation(seq(n, i => i), n)
  {
    var p: seq<nat> := seq(n, i => i);
    forall k | 0 <= k < n
      ensures k in p
    {
      assert p[k] == k;
    }
  }
}
