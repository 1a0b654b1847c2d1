/**
 The min-heap of outstanding delivery tags: tagSet's Push, Pop, Swap and Less under the
 sift-up and sift-down of container/heap.

 The children of position i are 2i + 1 and 2i + 2.  While an element is sifted, the heap
 order holds everywhere but at one position: above it for one that rises, below it for one
 that sinks.
 */
module TagHeap {
  function Parent(k: nat): nat
    requires k > 0
  {
    (k - 1) / 2
  }

  lemma ChildrenOf(i: nat, k: nat)
    requires k > 0
    ensures Parent(k) == i <==> k == 2 * i + 1 || k == 2 * i + 2
  {}

  predicate UnderParent(s: seq<nat>, k: nat)
    requires 0 < k < |s|
  {
    s[Parent(k)] <= s[k]
  }

  predicate HeapOrdered(s: seq<nat>) {
    forall k :: 0 < k < |s| ==> UnderParent(s, k)
  }

  lemma {:induction false} RootIsLeast(s: seq<nat>, i: nat)
    requires HeapOrdered(s) && i < |s|
    ensures s[0] <= s[i]
  {
    if i > 0 {
      assert UnderParent(s, i);
      RootIsLeast(s, Parent(i));
    }
  }

  function Swapped(s: seq<nat>, i: nat, j: nat): (t: seq<nat>)
    requires i < |s| && j < |s|
    ensures |t| == |s| && multiset(t) == multiset(s)
  {
    s[i := s[j]][j := s[i]]
  }

  /** k is a child of i and not below the parent of i. */
  predicate UnderGrandparent(s: seq<nat>, i: nat, k: nat)
    requires 0 < k < |s| && i < |s|
  {
    Parent(k) == i && i > 0 ==> s[Parent(i)] <= s[k]
  }

  /** Ordered but for the pair of j and its parent. */
  predicate OrderedAbove(s: seq<nat>, j: nat)
    requires j < |s|
  {
    && (forall k :: 0 < k < |s| && k != j ==> UnderParent(s, k))
    && (forall k :: 0 < k < |s| ==> UnderGrandparent(s, j, k))
  }

  /** The first n are ordered but for the pairs of i and its children. */
  predicate OrderedBelow(s: seq<nat>, i: nat, n: nat)
    requires n <= |s| && (i < n || n == 0)
  {
    && (forall k :: 0 < k < n && Parent(k) != i ==> UnderParent(s, k))
    && (forall k :: 0 < k < n ==> UnderGrandparent(s, i, k))
  }

  lemma SwapUp(s: seq<nat>, i: nat, j: nat)
    requires 0 < j < |s| && i == Parent(j) && OrderedAbove(s, j) && s[j] < s[i]
    ensures OrderedAbove(Swapped(s, i, j), i)
  {
    var t := Swapped(s, i, j);
    forall k | 0 < k < |s| && k != i ensures UnderParent(t, k) {
      if k != j {
        assert UnderParent(s, k) && UnderGrandparent(s, j, k);
      }
    }
    forall k | 0 < k < |s| ensures UnderGrandparent(t, i, k) {
      if i > 0 && Parent(k) == i {
        assert UnderParent(s, i);
        if k != j { assert UnderParent(s, k); }
      }
    }
  }

  lemma SwapDown(s: seq<nat>, i: nat, j: nat, n: nat)
    requires 0 < j < n <= |s| && i == Parent(j) && OrderedBelow(s, i, n) && s[j] < s[i]
    requires forall k :: 0 < k < n && Parent(k) == i ==> s[j] <= s[k]
    ensures OrderedBelow(Swapped(s, i, j), j, n)
  {
    var t := Swapped(s, i, j);
    forall k | 0 < k < n && Parent(k) != j ensures UnderParent(t, k) {
      if Parent(k) != i {
        assert UnderParent(s, k);
        if k == i { assert UnderGrandparent(s, i, j); }
      }
    }
    forall k | 0 < k < n ensures UnderGrandparent(t, j, k) {
      if Parent(k) == j { assert UnderParent(s, k); }
    }
  }

  lemma LeafIsOrdered(s: seq<nat>, i: nat, n: nat)
    requires i < n <= |s| && OrderedBelow(s, i, n) && 2 * i + 1 >= n
    ensures HeapOrdered(s[..n])
  {
    forall k | 0 < k < n ensures UnderParent(s[..n], k) {
      ChildrenOf(i, k);
      assert UnderParent(s, k);
    }
  }

  lemma LastToRoot(s: seq<nat>, n: nat)
    requires 0 < n == |s| - 1 && HeapOrdered(s)
    ensures OrderedBelow(Swapped(s, 0, n), 0, n)
  {
    var t := Swapped(s, 0, n);
    forall k | 0 < k < n && Parent(k) != 0 ensures UnderParent(t, k) { assert UnderParent(s, k); }
  }

  lemma LeastChild(s: seq<nat>, i: nat, j: nat, n: nat)
    requires i < n <= |s| && 2 * i + 1 < n
    requires j == (if 2 * i + 2 < n && s[2 * i + 1] >= s[2 * i + 2] then 2 * i + 2 else 2 * i + 1)
    ensures Parent(j) == i && forall k :: 0 < k < n && Parent(k) == i ==> s[j] <= s[k]
  {
    forall k | 0 < k < n && Parent(k) == i ensures s[j] <= s[k] { ChildrenOf(i, k); }
  }

  lemma SmallIsOrdered(s: seq<nat>, i: nat, j: nat, n: nat)
    requires i < n <= |s| && j < n && OrderedBelow(s, i, n) && s[i] <= s[j]
    requires forall k :: 0 < k < n && Parent(k) == i ==> s[j] <= s[k]
    ensures HeapOrdered(s[..n])
  {
    forall k | 0 < k < n ensures UnderParent(s[..n], k) {
      if Parent(k) != i { assert UnderParent(s, k); }
    }
  }

  lemma WithoutLast(s: seq<nat>)
    requires s != []
    ensures multiset(s[..|s| - 1]) + multiset{s[|s| - 1]} == multiset(s)
  {
    assert s[..|s| - 1] + [s[|s| - 1]] == s;
  }

  class TagSet {
    var tags: seq<nat>

    constructor ()
      ensures tags == []
    {
      tags := [];
    }

    method Swap(i: nat, j: nat)
      requires i < |tags| && j < |tags|
      modifies this
      ensures tags == Swapped(old(tags), i, j)
    {
      tags := tags[i := tags[j]][j := tags[i]];
    }

    method Up()
      requires tags != [] && OrderedAbove(tags, |tags| - 1)
      modifies this
      ensures HeapOrdered(tags) && multiset(tags) == old(multiset(tags))
    {
      var j := |tags| - 1;
      while true
        invariant |tags| == old(|tags|) && 0 <= j < |tags| && OrderedAbove(tags, j)
        invariant multiset(tags) == old(multiset(tags))
        decreases j
      {
        var i := if j == 0 then 0 else (j - 1) / 2;
        if i == j || !(tags[j] < tags[i]) {
          assert j > 0 ==> UnderParent(tags, j);
          break;
        }
        SwapUp(tags, i, j);
        Swap(i, j);
        j := i;
      }
    }

    /** heap.Push */
    method Push(tag: nat)
      requires HeapOrdered(tags)
      modifies this
      ensures HeapOrdered(tags) && multiset(tags) == old(multiset(tags)) + multiset{tag}
    {
      ghost var s := tags;
      tags := tags + [tag];
      assert forall k :: 0 < k < |s| ==> UnderParent(s, k) ==> UnderParent(tags, k);
      assert forall k :: 0 < k < |tags| ==> UnderGrandparent(tags, |s|, k);
      Up();
    }

    method Down(n: nat)
      requires n <= |tags| && (n == 0 || OrderedBelow(tags, 0, n))
      modifies this
      ensures |tags| == old(|tags|) && HeapOrdered(tags[..n]) && tags[n..] == old(tags[n..])
      ensures multiset(tags) == old(multiset(tags))
    {
      if n == 0 { return; }
      var i := 0;
      while true
        invariant |tags| == old(|tags|) && tags[n..] == old(tags[n..]) && multiset(tags) == old(multiset(tags))
        invariant 0 <= i < n && OrderedBelow(tags, i, n)
        decreases n - i
      {
        var j1 := 2 * i + 1;
        if j1 >= n {
          LeafIsOrdered(tags, i, n);
          return;
        }
        var j := j1;
        var j2 := j1 + 1;
        if j2 < n && !(tags[j1] < tags[j2]) {
          j := j2;
        }
        LeastChild(tags, i, j, n);
        if !(tags[j] < tags[i]) {
          SmallIsOrdered(tags, i, j, n);
          return;
        }
        SwapDown(tags, i, j, n);
        ghost var was := tags;
        Swap(i, j);
        assert tags[n..] == was[n..];
        i := j;
      }
    }

    /** heap.Pop: the least tag, taken out. */
    method Pop() returns (tag: nat)
      requires tags != [] && HeapOrdered(tags)
      modifies this
      ensures HeapOrdered(tags) && multiset(tags) + multiset{tag} == old(multiset(tags))
      ensures |tags| == old(|tags|) - 1
      ensures tag in old(tags) && forall t :: t in old(tags) ==> tag <= t
    {
      var n := |tags| - 1;
      ghost var s := tags;
      forall i | 0 <= i < |s| ensures s[0] <= s[i] { RootIsLeast(s, i); }
      Swap(0, n);
      if n > 0 { LastToRoot(s, n); }
      Down(n);
      tag := tags[n];
      assert tags[n..][0] == s[0];
      WithoutLast(tags);
      tags := tags[..n];
    }
  }
}
