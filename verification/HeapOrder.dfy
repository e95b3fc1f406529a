/** Heap order on sequences of priorities: what one step of sifting up or down preserves. */
module HeapOrder {

  function Parent(k: int): int
    requires k > 0
  {
    (k - 1) / 2
  }

  /** The first `n` priorities form a min-heap. */
  ghost predicate IsHeap(s: seq<int>, n: nat) {
    n <= |s| && forall k | 1 <= k < n :: s[Parent(k)] <= s[k]
  }

  /** A heap but for the element at `i`, whose parent and children are in order with each other. */
  ghost predicate HeapButFor(s: seq<int>, n: nat, i: nat) {
    && i < n <= |s|
    && (forall k | 1 <= k < n && k != i && Parent(k) != i :: s[Parent(k)] <= s[k])
    && (i > 0 ==> forall k | 1 <= k < n && Parent(k) == i :: s[Parent(i)] <= s[k])
  }

  /** The element at `i` is not above one of its children. */
  ghost predicate ChildrenInOrder(s: seq<int>, n: nat, i: nat)
    requires i < n <= |s|
  {
    forall k | 1 <= k < n && Parent(k) == i :: s[i] <= s[k]
  }

  ghost predicate ParentInOrder(s: seq<int>, i: nat)
    requires i < |s|
  {
    i > 0 ==> s[Parent(i)] <= s[i]
  }

  /** The capacity left after taking an element out of a slice of `c` slots, `n` of them in use. */
  function HalvedIfSparse(n: nat, c: nat): (r: nat)
    ensures r == c || (r == c / 2 && r >= 13 && r > n)
  {
    if n < c / 2 && c > 25 then c / 2 else c
  }

  function Swapped<T>(s: seq<T>, i: nat, j: nat): (r: seq<T>)
    requires i < |s| && j < |s|
    ensures |r| == |s| && r[i] == s[j] && r[j] == s[i]
    ensures forall k | 0 <= k < |s| && k != i && k != j :: r[k] == s[k]
  {
    s[i := s[j]][j := s[i]]
  }

  /** The elements in use; the queues' back-pointers make each occupy exactly one slot. */
  ghost function Elements<T>(s: seq<T>): set<T> {
    set x | x in s
  }

  lemma SwappedElements<T>(s: seq<T>, i: nat, j: nat)
    requires i < |s| && j < |s|
    ensures Elements(Swapped(s, i, j)) == Elements(s)
  {
    var r := Swapped(s, i, j);
    forall x | x in s ensures x in r {
      var k :| 0 <= k < |s| && s[k] == x;
      assert r[if k == i then j else if k == j then i else k] == x;
    }
  }

  lemma HeapWhole(s: seq<int>, n: nat, i: nat)
    requires HeapButFor(s, n, i) && ParentInOrder(s, i) && ChildrenInOrder(s, n, i)
    ensures IsHeap(s, n)
  {
    forall k | 1 <= k < n ensures s[Parent(k)] <= s[k] {
      if Parent(k) == i { assert s[i] <= s[k]; }
    }
  }

  lemma HeapIsButForAny(s: seq<int>, n: nat, i: nat)
    requires IsHeap(s, n) && i < n
    ensures HeapButFor(s, n, i) && ParentInOrder(s, i) && ChildrenInOrder(s, n, i)
  {
  }

  /** Replacing the element at `i` of a heap leaves a heap but for `i`. */
  lemma HeapReplaced(s: seq<int>, t: seq<int>, n: nat, i: nat)
    requires IsHeap(s, n) && i < n <= |t|
    requires forall k | 0 <= k < n && k != i :: t[k] == s[k]
    ensures HeapButFor(t, n, i)
  {
    if i > 0 {
      forall k | 1 <= k < n && Parent(k) == i ensures t[Parent(i)] <= t[k] {
        assert s[Parent(i)] <= s[i] <= s[k];
      }
    }
  }

  /** Sifting up: swapping with a larger parent moves the one misplaced element to the parent. */
  lemma UpStep(s: seq<int>, n: nat, j: nat)
    requires HeapButFor(s, n, j) && ChildrenInOrder(s, n, j)
    requires j > 0 && s[j] < s[Parent(j)]
    ensures var t := Swapped(s, Parent(j), j);
            HeapButFor(t, n, Parent(j)) && ChildrenInOrder(t, n, Parent(j))
  {
    var i := Parent(j);
    var t := Swapped(s, i, j);
    forall k | 1 <= k < n && k != i && Parent(k) != i ensures t[Parent(k)] <= t[k] {
      if Parent(k) == j { assert t[j] == s[i]; }
    }
    if i > 0 {
      forall k | 1 <= k < n && Parent(k) == i ensures t[Parent(i)] <= t[k] {
        assert s[Parent(i)] <= s[i];
      }
    }
    forall k | 1 <= k < n && Parent(k) == i ensures t[i] <= t[k] {
      if k != j { assert s[i] <= s[k]; }
    }
  }

  /** Sifting down from `start` has brought the misplaced element to `i`. */
  ghost predicate SiftingDown(s: seq<int>, n: nat, start: nat, i: nat) {
    start <= i && HeapButFor(s, n, i) && (i != start ==> ParentInOrder(s, i))
  }

  /** Swapping with the smaller child moves the one misplaced element to that child. */
  lemma DownStep(s: seq<int>, n: nat, start: nat, i: nat, j: nat)
    requires SiftingDown(s, n, start, i)
    requires 1 <= j < n && Parent(j) == i && s[j] < s[i]
    requires forall k | 1 <= k < n && Parent(k) == i :: s[j] <= s[k]
    ensures SiftingDown(Swapped(s, i, j), n, start, j)
  {
    var t := Swapped(s, i, j);
    forall k | 1 <= k < n && k != j && Parent(k) != j ensures t[Parent(k)] <= t[k] {
      if Parent(k) == i { assert s[j] <= s[k]; }
    }
    forall k | 1 <= k < n && Parent(k) == j ensures t[Parent(j)] <= t[k] {
      assert s[Parent(k)] <= s[k];
    }
  }

  /** An element that moved down and is above its children now completes a heap. */
  lemma DownDone(s: seq<int>, n: nat, start: nat, i: nat)
    requires SiftingDown(s, n, start, i)
    requires forall k | 1 <= k < n && Parent(k) == i :: s[i] <= s[k]
    ensures HeapButFor(s, n, start) && ChildrenInOrder(s, n, start)
    ensures i != start ==> IsHeap(s, n)
  {
    if i != start {
      HeapWhole(s, n, i);
      HeapIsButForAny(s, n, start);
    }
  }

  /** The root of a heap is a minimum. */
  lemma {:induction false} RootIsMinimum(s: seq<int>, n: nat, k: nat)
    requires IsHeap(s, n) && k < n
    ensures s[0] <= s[k]
  {
    if k > 0 {
      RootIsMinimum(s, n, Parent(k));
    }
  }
}
