/** Facts about sequences that several modules need. */
module Sequences {

  lemma Associative<T>(a: seq<T>, b: seq<T>, c: seq<T>)
    ensures a + (b + c) == a + b + c
  {
  }

  ghost predicate Distinct<T>(s: seq<T>) {
    forall i, j :: 0 <= i < j < |s| ==> s[i] != s[j]
  }

  /** Distinct elements from in front of position `o`, then a stretch behind it, are distinct if all elements are. */
  lemma DistinctStretch<T>(kept: seq<T>, all: seq<T>, o: nat, p: nat, q: nat)
    requires Distinct(all) && Distinct(kept) && o <= p <= q <= |all|
    requires forall x :: x in kept ==> x in all[..o]
    ensures Distinct(kept + all[p..q])
    ensures forall x :: x in kept + all[p..q] ==> x in all[..q]
  {
    var s := kept + all[p..q];
    forall i | 0 <= i < |s| ensures s[i] in all[..q] {
      if i >= |kept| {
        assert all[..q][p + i - |kept|] == s[i];
      } else {
        assert s[i] in kept;
        var k :| 0 <= k < o && all[..o][k] == s[i];
        assert all[..q][k] == s[i];
      }
    }
    forall i, j | 0 <= i < j < |s| ensures s[i] != s[j] {
      if i < |kept| <= j {
        assert s[i] in kept;
        var k :| 0 <= k < o && all[..o][k] == s[i];
        assert s[j] == all[p + j - |kept|];
      }
    }
  }
}
