/**
 * Heap order on a sequence of priorities, as maintained by Go's container/heap: slot
 * k > 0 has parent (k - 1) / 2 and a min-heap keeps every parent no larger than its
 * children. The sift operations of the priority queue are proved against the
 * predicates and step lemmas of this module, which speak only of values.
 */
module HeapOrder {
  /** Parent slot of slot k > 0 (Go's (k-1)/2; k > 0, so truncation and floor agree). */
  function Parent(k: int): (r: int)
    requires k > 0
    ensures 0 <= r < k && 2 * r + 1 <= k <= 2 * r + 2
  {
    (k - 1) / 2
  }

  /** The sequence with the entries at i and j exchanged. */
  function Exchanged<T>(s: seq<T>, i: int, j: int): (r: seq<T>)
    requires 0 <= i < |s| && 0 <= j < |s|
    ensures |r| == |s| && r[i] == s[j] && r[j] == s[i]
    ensures forall k :: 0 <= k < |s| && k != i && k != j ==> r[k] == s[k]
  {
    s[i := s[j]][j := s[i]]
  }

  /** Exchanging two entries keeps the same elements. */
  lemma ExchangedMultiset<T>(s: seq<T>, i: int, j: int)
    requires 0 <= i < |s| && 0 <= j < |s|
    ensures multiset(Exchanged(s, i, j)) == multiset(s)
  {
    var t := s[i := s[j]];
    assert multiset(t) == multiset(s) - multiset{s[i]} + multiset{s[j]};
    assert t[j] == s[j];
    assert multiset(t[j := s[i]]) == multiset(t) - multiset{s[j]} + multiset{s[i]};
  }

  /**
   * Heap order among the first n slots, restricted to the slots whose parent is at
   * least `lo` and leaving out slot `skip` (skip = -1 leaves out nothing).
   */
  predicate HeapFrom(a: seq<int>, n: int, lo: int, skip: int)
    requires n <= |a|
  {
    forall k :: 0 < k < n && Parent(k) >= lo && k != skip ==> a[Parent(k)] <= a[k]
  }

  /** The first n slots are a min-heap. */
  predicate IsHeap(a: seq<int>, n: int)
    requires n <= |a|
  {
    HeapFrom(a, n, 0, -1)
  }

  /**
   * The loop invariant of sift-down started at i0 and now at i: heap order holds in
   * the region except below i, and except above i0 as long as nothing has moved; the
   * value above i is no larger than i's children.
   */
  predicate DownInv(a: seq<int>, n: int, lo: int, i0: int, i: int)
    requires n <= |a|
  {
    && 0 <= lo <= i0 <= i
    && (i == i0 || (i > 0 && Parent(i) >= i0))
    && (forall k :: 0 < k < n && Parent(k) >= lo && Parent(k) != i && (k != i0 || i != i0) ==>
          a[Parent(k)] <= a[k])
    && (i > 0 && Parent(i) >= lo && i < n ==>
          forall k :: 0 < k < n && Parent(k) == i ==> a[Parent(i)] <= a[k])
  }

  /** The children of slot i are exactly 2i+1 and 2i+2. */
  lemma Children(i: int, k: int)
    requires 0 <= i && 0 < k
    ensures Parent(k) == i <==> k == 2 * i + 1 || k == 2 * i + 2
  {
  }

  /** One sift-down step: exchanging slot i with its smaller child j keeps the invariant at j. */
  lemma DownStep(a: seq<int>, n: int, lo: int, i0: int, i: int, j: int)
    requires n <= |a| && DownInv(a, n, lo, i0, i)
    requires j < n && (j == 2 * i + 1 || j == 2 * i + 2)
    requires forall k :: 0 < k < n && Parent(k) == i ==> a[j] <= a[k]
    requires a[j] < a[i]
    ensures DownInv(Exchanged(a, i, j), n, lo, i0, j)
  {
    var b := Exchanged(a, i, j);
    Children(i, j);
    forall k | 0 < k < n && Parent(k) >= lo && Parent(k) != j && (k != i0 || j != i0)
      ensures b[Parent(k)] <= b[k]
    {
      Children(i, k);
      if k == j {
      } else if Parent(k) == i {
        assert b[k] == a[k];
      } else if k == i {
        assert a[Parent(i)] <= a[j];
      } else {
        assert b[k] == a[k] && b[Parent(k)] == a[Parent(k)];
      }
    }
    forall k | 0 < k < n && Parent(k) == j ensures b[Parent(j)] <= b[k] {
      Children(j, k);
      assert b[k] == a[k];
    }
  }

  /** No child of slot i, among the first n slots, is smaller than slot i. */
  predicate Settled(a: seq<int>, n: int, i: int)
    requires n <= |a| && 0 <= i
  {
    forall k :: 0 < k < n && Parent(k) == i ==> a[i] <= a[k]
  }

  /**
   * Sift-down stops: either i has no child in range or its smaller child is no smaller.
   * If anything moved the region is a heap; otherwise only the entry above i0 may be
   * out of order.
   */
  lemma DownExit(a: seq<int>, n: int, lo: int, i0: int, i: int)
    requires n <= |a| && DownInv(a, n, lo, i0, i)
    requires Settled(a, n, i)
    ensures i > i0 ==> HeapFrom(a, n, lo, -1)
    ensures HeapFrom(a, n, lo, i0)
  {
  }

  /**
   * The loop invariant of sift-up at j: heap order holds except at j, and the entry
   * above j is no larger than j's children.
   */
  predicate UpInv(a: seq<int>, n: int, j: int)
    requires n <= |a|
  {
    && 0 <= j < n
    && HeapFrom(a, n, 0, j)
    && (j > 0 ==> forall k :: 0 < k < n && Parent(k) == j ==> a[Parent(j)] <= a[k])
  }

  /** One sift-up step: exchanging j with its larger parent keeps the invariant at the parent. */
  lemma UpStep(a: seq<int>, n: int, j: int)
    requires n <= |a| && UpInv(a, n, j) && j > 0
    requires a[j] < a[Parent(j)]
    ensures UpInv(Exchanged(a, Parent(j), j), n, Parent(j))
  {
    var p := Parent(j);
    var b := Exchanged(a, p, j);
    forall k | 0 < k < n && k != p ensures b[Parent(k)] <= b[k] {
      if k == j {
      } else if Parent(k) == j {
        assert b[k] == a[k];
      } else if Parent(k) == p {
        assert b[k] == a[k];
      } else {
        assert b[k] == a[k] && b[Parent(k)] == a[Parent(k)];
      }
    }
    if p > 0 {
      forall k | 0 < k < n && Parent(k) == p ensures b[Parent(p)] <= b[k] {
        assert b[Parent(p)] == a[Parent(p)];
      }
    }
  }

  /** Sift-up stops at the root or below a parent that is no larger: the slots are a heap. */
  lemma UpExit(a: seq<int>, n: int, j: int)
    requires n <= |a| && UpInv(a, n, j)
    requires j > 0 ==> a[Parent(j)] <= a[j]
    ensures IsHeap(a, n)
  {
  }

  /** The root of a heap is a minimum: every slot's value is at least the root's. */
  lemma {:induction false} HeapMin(a: seq<int>, n: int, k: int)
    requires n <= |a| && IsHeap(a, n) && 0 <= k < n
    ensures a[0] <= a[k]
    decreases k
  {
    if k > 0 {
      HeapMin(a, n, Parent(k));
    }
  }

  /** Giving slot i of a heap a new value leaves heap order broken at most around i. */
  lemma ChangedKey(a: seq<int>, n: int, i: int, v: int)
    requires n <= |a| && IsHeap(a, n) && 0 <= i < n
    ensures DownInv(a[i := v], n, 0, i, i)
  {
    var b := a[i := v];
    if i > 0 {
      forall k | 0 < k < n && Parent(k) == i ensures b[Parent(i)] <= b[k] {
        assert a[Parent(i)] <= a[i] <= a[k];
      }
    }
  }

  /** Moving the last slot of a heap to the root leaves heap order broken only below the root. */
  lemma PopStart(a: seq<int>, n: int)
    requires 0 <= n < |a| && IsHeap(a, n + 1)
    ensures DownInv(Exchanged(a, 0, n), n, 0, 0, 0)
  {
    var b := Exchanged(a, 0, n);
    forall k | 0 < k < n && Parent(k) != 0 ensures b[Parent(k)] <= b[k] {
      assert b[k] == a[k] && b[Parent(k)] == a[Parent(k)];
    }
  }

  /** Slots n/2 and beyond have no children among the first n. */
  lemma InitStart(a: seq<int>, n: int)
    requires 0 <= n <= |a|
    ensures HeapFrom(a, n, n / 2, -1)
  {
  }

  /** Before sifting down from i, heap order below i makes the sift-down invariant hold. */
  lemma InitStep(a: seq<int>, n: int, i: int)
    requires 0 <= i && n <= |a| && HeapFrom(a, n, i + 1, -1)
    ensures DownInv(a, n, i, i, i)
  {
  }

  /** Go's choice of child in sift-down: the right child only when it is strictly smaller. */
  lemma ChildChoice(a: seq<int>, n: int, i: int, j: int)
    requires n <= |a| && 0 <= i && 2 * i + 1 < n
    requires j == if 2 * i + 2 < n && a[2 * i + 2] < a[2 * i + 1] then 2 * i + 2 else 2 * i + 1
    ensures forall k :: 0 < k < n && Parent(k) == i ==> a[j] <= a[k]
  {
    forall k | 0 < k < n && Parent(k) == i ensures a[j] <= a[k] {
      Children(i, k);
    }
  }

  /** A slot whose first child is out of range has no children in range. */
  lemma Leaf(a: seq<int>, n: int, i: int)
    requires n <= |a| && 0 <= i && 2 * i + 1 >= n
    ensures Settled(a, n, i)
  {
    forall k | 0 < k < n ensures Parent(k) != i {
      Children(i, k);
    }
  }

  /** Appending a value to a heap leaves heap order broken only above the new slot. */
  lemma PushStart(a: seq<int>, v: int)
    requires IsHeap(a, |a|)
    ensures UpInv(a + [v], |a| + 1, |a|)
  {
    var b := a + [v];
    forall k | 0 < k < |b| && k != |a| ensures b[Parent(k)] <= b[k] {
      assert b[k] == a[k] && b[Parent(k)] == a[Parent(k)];
    }
    forall k | 0 < k < |b| && Parent(k) == |a| ensures false {
    }
  }

  /** The first n slots of a heap, on their own, are a heap. */
  lemma HeapPrefix(a: seq<int>, n: int)
    requires 0 <= n <= |a| && IsHeap(a, n)
    ensures IsHeap(a[..n], n)
  {
    var b := a[..n];
    forall k | 0 < k < n ensures b[Parent(k)] <= b[k] {
      assert b[k] == a[k] && b[Parent(k)] == a[Parent(k)];
    }
  }
}
