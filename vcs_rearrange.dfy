/**
 * VCS_SOLVE::vcs_rearrange: put the species of the VCS equilibrium solver
 * back in their original order.  m_speciesMapIndex[j] is the original index
 * of the species now at position j; for each original index i in turn, the
 * position k1 holding i is found and positions i and k1 are switched.
 * vcs_switch_pos is modelled by its effect on the map: it swaps entries i
 * and k1 (the other per-species arrays it moves along are not modelled).
 */
module VcsRearrange {

  /** 0, 1, ..., n-1: the identity map on n species. */
  function Range(n: nat): (r: seq<int>)
    ensures |r| == n
    ensures forall k :: 0 <= k < n ==> r[k] == k
  {
    seq(n, k requires 0 <= k < n => k)
  }

  /** m holds each of 0 .. |m|-1 exactly once. */
  ghost predicate IsPermutation(m: seq<int>) {
    multiset(m) == multiset(Range(|m|))
  }

  /**
   * The inner scan from position j on: k1 is set at every step before the
   * test, so the scan ends at the first j with m[j] == i or, with no match,
   * at the last position n-1.
   */
  function FindSlot(m: seq<int>, n: nat, i: int, j: nat): (k1: nat)
    requires j < n <= |m|
    ensures j <= k1 < n
    ensures m[k1] == i || k1 == n - 1
    ensures forall p :: j <= p < k1 ==> m[p] != i
    decreases n - j
  {
    if m[j] == i || j == n - 1 then j else FindSlot(m, n, i, j + 1)
  }

  /** vcs_switch_pos on the map: entries a and b exchanged. */
  function Swap(m: seq<int>, a: nat, b: nat): (r: seq<int>)
    requires a < |m| && b < |m|
    ensures |r| == |m| && r[a] == m[b] && r[b] == m[a]
    ensures forall p :: 0 <= p < |m| && p != a && p != b ==> r[p] == m[p]
  {
    m[a := m[b]][b := m[a]]
  }

  /** The outer loop from species i on, over the first n positions. */
  function RearrangeFrom(m: seq<int>, n: nat, i: nat): (r: seq<int>)
    requires n <= |m|
    ensures |r| == |m|
    decreases n - i
  {
    if i >= n then m
    else RearrangeFrom(Swap(m, i, FindSlot(m, n, i, 0)), n, i + 1)
  }

  /** Swapping two entries keeps the multiset of the map. */
  lemma SwapKeepsMultiset(m: seq<int>, a: nat, b: nat)
    requires a < |m| && b < |m|
    ensures multiset(Swap(m, a, b)) == multiset(m)
  {
    var m1 := m[a := m[b]];
    assert multiset(m1) == multiset(m) - multiset{m[a]} + multiset{m[b]};
    assert multiset(m1[b := m[a]]) == multiset(m1) - multiset{m1[b]} + multiset{m[a]};
  }

  /** A value in the map occurs at some position. */
  lemma InMultisetAtSomePosition(m: seq<int>, v: int) returns (p: nat)
    requires v in multiset(m)
    ensures p < |m| && m[p] == v
  {
    assert v in m;
    var q :| 0 <= q < |m| && m[q] == v;
    p := q;
  }

  /**
   * One step of the outer loop on a permutation whose first i positions
   * already hold 0 .. i-1: the scan finds i at or after position i, and the
   * switch puts it at position i without disturbing the first i.
   */
  lemma {:induction false} StepRestoresOne(m: seq<int>, i: nat)
    requires IsPermutation(m) && i < |m|
    requires forall p :: 0 <= p < i ==> m[p] == p
    ensures var r := Swap(m, i, FindSlot(m, |m|, i, 0));
            && IsPermutation(r)
            && forall p :: 0 <= p <= i ==> r[p] == p
  {
    var n := |m|;
    assert Range(n)[i] == i;
    assert i in multiset(Range(n));
    var q := InMultisetAtSomePosition(m, i);
    var k1 := FindSlot(m, n, i, 0);
    assert k1 <= q;
    assert m[k1] == i;
    assert forall p :: 0 <= p < i ==> m[p] != i;
    assert k1 >= i;
    SwapKeepsMultiset(m, i, k1);
  }

  /**
   * Rearranging a permutation whose first i positions are already in place
   * ends at the identity.
   */
  lemma {:induction false} RearrangeFromRestores(m: seq<int>, i: nat)
    requires IsPermutation(m) && i <= |m|
    requires forall p :: 0 <= p < i ==> m[p] == p
    ensures RearrangeFrom(m, |m|, i) == Range(|m|)
    decreases |m| - i
  {
    if i < |m| {
      StepRestoresOne(m, i);
      RearrangeFromRestores(Swap(m, i, FindSlot(m, |m|, i, 0)), i + 1);
    }
  }

  /** vcs_rearrange on a permutation of 0 .. n-1 restores the original order. */
  lemma RearrangeRestoresOrder(m: seq<int>)
    requires IsPermutation(m)
    ensures RearrangeFrom(m, |m|, 0) == Range(|m|)
  {
    RearrangeFromRestores(m, 0);
  }

  /** The scan over the first n positions reads nothing beyond them. */
  lemma {:induction false} FindSlotPrefix(m: seq<int>, n: nat, i: int, j: nat)
    requires j < n <= |m|
    ensures FindSlot(m, n, i, j) == FindSlot(m[..n], n, i, j)
    decreases n - j
  {
    if m[j] != i && j != n - 1 {
      FindSlotPrefix(m, n, i, j + 1);
    }
  }

  /**
   * The outer loop over the first n positions works on those positions
   * alone: it rearranges m[..n] and leaves every later entry untouched.
   */
  lemma {:induction false} RearrangeFromSplit(m: seq<int>, n: nat, i: nat)
    requires n <= |m|
    ensures RearrangeFrom(m, n, i) == RearrangeFrom(m[..n], n, i) + m[n..]
    decreases n - i
  {
    if i >= n {
      assert m == m[..n] + m[n..];
    } else {
      var k1 := FindSlot(m, n, i, 0);
      FindSlotPrefix(m, n, i, 0);
      var m' := Swap(m, i, k1);
      assert m'[..n] == Swap(m[..n], i, k1);
      assert m'[n..] == m[n..];
      RearrangeFromSplit(m', n, i + 1);
    }
  }

  /**
   * vcs_rearrange with numSpeciesTot == n below the map's length: when the
   * first n entries are a permutation of 0 .. n-1 they are restored to
   * that order, and the entries from n on are left as they were.
   */
  lemma RearrangePrefixRestoresOrder(m: seq<int>, n: nat)
    requires n <= |m| && IsPermutation(m[..n])
    ensures RearrangeFrom(m, n, 0)[..n] == Range(n)
    ensures RearrangeFrom(m, n, 0)[n..] == m[n..]
  {
    RearrangeFromSplit(m, n, 0);
    RearrangeFromRestores(m[..n], 0);
  }

  /** The part of VCS_SOLVE that vcs_rearrange touches. */
  class VcsSolve {
    var numSpeciesTot: int
    var speciesMapIndex: array<int>

    /**
     * vcs_rearrange: for i = 0, 1, ..., numSpeciesTot-1, scan for the slot k1
     * of species i and switch positions i and k1.  Always returns 0.
     */
    method Rearrange() returns (r: int)
      requires numSpeciesTot <= speciesMapIndex.Length
      modifies speciesMapIndex
      ensures r == 0
      ensures numSpeciesTot <= 0 ==> speciesMapIndex[..] == old(speciesMapIndex[..])
      ensures numSpeciesTot > 0 ==> speciesMapIndex[..] == RearrangeFrom(old(speciesMapIndex[..]), numSpeciesTot, 0)
    {
      if numSpeciesTot <= 0 {
        return 0;
      }
      var n: nat := numSpeciesTot;
      var i := 0;
      while i < n
        invariant 0 <= i <= n
        invariant RearrangeFrom(speciesMapIndex[..], n, i) == RearrangeFrom(old(speciesMapIndex[..]), n, 0)
      {
        var k1 := FindSpecies(i, n);
        SwitchPos(i, k1);
        i := i + 1;
      }
      r := 0;
    }

    /**
     * The inner loop of vcs_rearrange: scan the first n positions for
     * species i, setting k1 at every step before testing for a match.
     */
    method FindSpecies(i: int, n: nat) returns (k1: nat)
      requires 0 < n <= speciesMapIndex.Length
      ensures k1 == FindSlot(speciesMapIndex[..], n, i, 0)
    {
      k1 := 0;
      var j := 0;
      while j < n
        invariant 0 <= j <= n && k1 < n
        invariant j > 0 ==> k1 == j - 1
        invariant forall p :: 0 <= p < j ==> speciesMapIndex[p] != i
      {
        var l := speciesMapIndex[j];
        k1 := j;
        if l == i {
          break;
        }
        j := j + 1;
      }
      FindSlotIsFirst(speciesMapIndex[..], n, i, k1);
    }

    /** vcs_switch_pos(FALSE, a, b) on the map. */
    method SwitchPos(a: nat, b: nat)
      requires a < speciesMapIndex.Length && b < speciesMapIndex.Length
      modifies speciesMapIndex
      ensures speciesMapIndex[..] == Swap(old(speciesMapIndex[..]), a, b)
    {
      speciesMapIndex[a], speciesMapIndex[b] := speciesMapIndex[b], speciesMapIndex[a];
    }
  }

  /** The scan result is characterised by its ensures: the first match, else the last slot. */
  lemma FindSlotIsFirst(m: seq<int>, n: nat, i: int, k1: nat)
    requires 0 < n <= |m| && k1 < n
    requires m[k1] == i || k1 == n - 1
    requires forall p :: 0 <= p < k1 ==> m[p] != i
    ensures FindSlot(m, n, i, 0) == k1
  {
  }
}
