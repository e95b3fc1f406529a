/** The deferred queue: items by priority under the standard library's heap algorithms, each knowing its slot. */
module DeferredPqueue {
  import opened HeapOrder
  import opened Messages

  class Item {
    const Value: Msg
    const Priority: int
    var Index: int

    constructor (value: Msg, priority: int)
      ensures Value == value && Priority == priority
    {
      Value, Priority, Index := value, priority, 0;
    }
  }

  class PriorityQueue {
    var data: array<Item?>
    var len: nat
    ghost var members: set<Item?>

    /** The slots in use; those behind may still point at elements that left. */
    ghost function Used(): seq<Item?>
      reads this, data
    {
      if len <= data.Length then data[..len] else []
    }

    ghost function Contents(): (s: seq<Item?>)
      requires len <= data.Length
      reads this, data
    {
      data[..len]
    }

    /** Capacity never reaches zero; every slot in use holds an item whose index names the slot. */
    ghost predicate Wired()
      reads this, data, Used()
    {
      && 1 <= data.Length && len <= data.Length
      && forall k | 0 <= k < len :: data[k] != null && data[k].Index == k
    }

    ghost function Priorities(): (s: seq<int>)
      requires Wired()
      reads this, data, Used()
    {
      seq(len, k requires 0 <= k < len && Wired() reads this, data, Used() => data[k].Priority)
    }

    ghost predicate Sound()
      reads this, data, Used()
    {
      Wired() && IsHeap(Priorities(), len)
    }

    ghost predicate Valid()
      reads this, data, members
    {
      len <= data.Length && Members() == members && Sound()
    }

    constructor (capacity: nat)
      requires capacity >= 1
      ensures Valid() && members == {} && fresh(data) && data.Length == capacity
    {
      data, len := new Item?[capacity](_ => null), 0;
      members := {};
    }

    /** The items in the queue. */
    ghost function Members(): (ms: set<Item?>)
      requires len <= data.Length
      reads this, data
    {
      Elements(data[..len])
    }

    method Swap(i: nat, j: nat)
      requires Wired() && i < len && j < len
      modifies data, {data[i], data[j]}`Index
      ensures Wired()
      ensures data[i] == old(data[j]) && data[j] == old(data[i])
      ensures forall k | k != i && k != j && 0 <= k < data.Length :: data[k] == old(data[k])
      ensures Priorities() == Swapped(old(Priorities()), i, j)
      ensures Members() == old(Members())
    {
      SwappedElements(data[..len], i, j);
      ghost var after := Swapped(data[..len], i, j);
      data[i], data[j] := data[j], data[i];
      assert data[..len] == after;
      data[i].Index := i;
      data[j].Index := j;
    }

    /** Sifts the element at `start` up to where its parent is no larger. */
    method Up(start: nat, ghost n: nat)
      requires Wired() && start < n <= len
      requires HeapButFor(Priorities(), n, start) && ChildrenInOrder(Priorities(), n, start)
      modifies data, Members()`Index
      ensures Wired() && IsHeap(Priorities(), n)
      ensures Members() == old(Members())
      ensures forall k | n <= k < len :: data[k] == old(data[k])
    {
      var j: nat := start;
      while true
        invariant Wired() && j < n <= len
        invariant Members() == old(Members())
        invariant forall k | n <= k < len :: data[k] == old(data[k])
        invariant HeapButFor(Priorities(), n, j) && ChildrenInOrder(Priorities(), n, j)
        decreases j
      {
        var i := if j == 0 then 0 else (j - 1) / 2; // Go's (0 - 1) / 2 is 0
        if i == j || data[j].Priority >= data[i].Priority {
          break;
        }
        UpStep(Priorities(), n, j);
        Swap(i, j);
        j := i;
      }
      HeapWhole(Priorities(), n, j);
    }

    /**
     Sifts the element at `start` down among the first `n` and says whether it moved. If it did
     the whole is a heap; if not, it is above its children but may be smaller than its parent.
     */
    method Down(start: nat, n: nat) returns (sunk: bool)
      requires Wired() && start < n <= len
      requires HeapButFor(Priorities(), n, start)
      modifies data, Members()`Index
      ensures Wired()
      ensures HeapButFor(Priorities(), n, start) && ChildrenInOrder(Priorities(), n, start)
      ensures sunk ==> IsHeap(Priorities(), n)
      ensures Members() == old(Members())
      ensures forall k | n <= k < len :: data[k] == old(data[k])
    {
      var i: nat := start;
      var moved := true;
      while moved
        invariant Wired() && i < n <= len
        invariant Members() == old(Members())
        invariant forall k | n <= k < len :: data[k] == old(data[k])
        invariant SiftingDown(Priorities(), n, start, i)
        invariant !moved ==> ChildrenInOrder(Priorities(), n, i)
        decreases n - i, moved
      {
        i, moved := DownOnce(start, i, n);
      }
      DownDone(Priorities(), n, start, i);
      sunk := i > start;
    }

    /** One round of sifting down: a swap with the smaller child if that is smaller. */
    method DownOnce(ghost start: nat, i: nat, n: nat) returns (j: nat, moved: bool)
      requires Wired() && i < n <= len
      requires SiftingDown(Priorities(), n, start, i)
      modifies data, Members()`Index
      ensures Wired() && i <= j < n && (moved <==> i < j)
      ensures SiftingDown(Priorities(), n, start, j)
      ensures !moved ==> ChildrenInOrder(Priorities(), n, j)
      ensures Members() == old(Members())
      ensures forall k | n <= k < len :: data[k] == old(data[k])
    {
      if 2 * i + 1 >= n {
        return i, false;
      }
      j := SmallerChild(i, n);
      if data[j].Priority >= data[i].Priority {
        return i, false;
      }
      DownStep(Priorities(), n, start, i, j);
      Swap(i, j);
      moved := true;
    }

    method SmallerChild(i: nat, n: nat) returns (j: nat)
      requires Wired() && 2 * i + 1 < n <= len
      ensures 1 <= j < n && Parent(j) == i
      ensures forall k | 1 <= k < n && Parent(k) == i :: Priorities()[j] <= Priorities()[k]
    {
      j := 2 * i + 1;
      var j2 := j + 1;
      if j2 < n && data[j2].Priority < data[j].Priority {
        j := j2;
      }
    }

    /** A new slice of capacity `capacity` holding the same items. */
    method Reallocate(capacity: nat)
      requires Wired() && len <= capacity && capacity >= 1
      modifies this`data
      ensures Wired() && fresh(data) && data.Length == capacity
      ensures Contents() == old(Contents()) && Priorities() == old(Priorities())
    {
      var npq := new Item?[capacity](_ => null);
      forall k | 0 <= k < len {
        npq[k] := data[k];
      }
      assert npq[..len] == data[..len];
      data := npq;
    }

    method Push(x: Item)
      requires Valid() && x !in members
      modifies this`data, this`len, this`members, data, members`Index, x`Index
      ensures Valid() && (data == old(data) || fresh(data))
      ensures members == old(members) + {x}
      ensures len == old(len) + 1
      ensures data.Length == if old(len) < old(data.Length) then old(data.Length) else 2 * old(data.Length)
    {
      var n, c := len, data.Length;
      if n + 1 > c {
        Reallocate(c * 2);
      }
      Insert(x);
      members := members + {x};
    }

    /** Fills the first free slot and sifts it up. */
    method Insert(x: Item)
      requires Sound() && x !in Members() && len < data.Length
      modifies this`len, data, Members()`Index, x`Index
      ensures Sound() && len == old(len) + 1
      ensures Members() == old(Members()) + {x}
    {
      var n := len;
      Append(x);
      Up(n, len);
    }

    /** Fills the first free slot. */
    method Append(x: Item)
      requires Sound() && x !in Members() && len < data.Length
      modifies this`len, data, x`Index
      ensures Wired() && len == old(len) + 1
      ensures Members() == old(Members()) + {x}
      ensures HeapButFor(Priorities(), len, len - 1) && ChildrenInOrder(Priorities(), len, len - 1)
    {
      ghost var before := Priorities();
      assert Contents() == data[..len];
      x.Index := len;
      data[len] := x;
      len := len + 1;
      assert data[..len] == old(data[..len]) + [x];
      assert forall k | 0 <= k < len - 1 :: Priorities()[k] == before[k];
    }

    /** Swaps slot `i` with the last one: the slots before that are a heap but for `i`. */
    method SwapWithLast(i: nat)
      requires Sound() && i < len
      modifies data, Members()`Index
      ensures Wired() && Members() == old(Members())
      ensures data[len - 1] == old(data[i])
      ensures i < len - 1 ==> HeapButFor(Priorities(), len - 1, i)
    {
      ghost var before := Priorities();
      assert data[i] in data[..len] && data[len - 1] in data[..len];
      Swap(i, len - 1);
      if i < len - 1 {
        HeapReplaced(before, Priorities(), len - 1, i);
      }
    }

    /** The interface's Pop: drops the last slot, whose item leaves the queue. */
    method Pop() returns (x: Item)
      requires Wired() && len > 0 && IsHeap(Priorities(), len - 1)
      modifies this`data, this`len, {data[len - 1]}`Index
      ensures Sound() && (data == old(data) || fresh(data))
      ensures x == old(data[len - 1]) && x.Index == -1
      ensures Members() == old(Members()) - {x} && len == old(len) - 1
      ensures data.Length == HalvedIfSparse(old(len), old(data.Length))
    {
      var n, c := len, data.Length;
      if n < c / 2 && c > 25 {
        Reallocate(c / 2);
      }
      x := data[n - 1];
      assert data[..n] == data[..n - 1] + [x];
      assert x !in data[..n - 1];
      x.Index := -1;
      len := n - 1;
    }

    lemma LeastFirst()
      requires Sound() && len > 0
      ensures forall m | m in Members() :: data[0].Priority <= m.Priority
    {
      forall m | m in Members() ensures data[0].Priority <= m.Priority {
        assert data[m.Index] == m;
        RootIsMinimum(Priorities(), len, m.Index);
      }
    }

    /** Down, and only if nothing sank, up. */
    method Resift(i: nat, n: nat)
      requires Wired() && i < n <= len
      requires HeapButFor(Priorities(), n, i)
      modifies data, Members()`Index
      ensures Wired() && IsHeap(Priorities(), n)
      ensures Members() == old(Members())
      ensures forall k | n <= k < len :: data[k] == old(data[k])
    {
      var sunk := Down(i, n);
      if !sunk {
        Up(i, n);
      }
    }

    /** heap.Remove: takes out the item in slot `i`. */
    method Remove(i: nat) returns (x: Item)
      requires Valid() && i < len
      modifies this`data, this`len, this`members, data, members`Index
      ensures Valid() && (data == old(data) || fresh(data))
      ensures x == old(data[i]) && x.Index == -1
      ensures members == old(members) - {x} && len == old(len) - 1
      ensures var c := old(data.Length); data.Length == if old(len) < c / 2 && c > 25 then c / 2 else c
    {
      MoveOut(i);
      x := Pop();
      members := members - {x};
    }

    /** Brings the item in slot `i` to the last slot and makes the others a heap. */
    method MoveOut(i: nat)
      requires Sound() && i < len
      modifies data, Members()`Index
      ensures Wired() && IsHeap(Priorities(), len - 1)
      ensures Members() == old(Members())
      ensures data[len - 1] == old(data[i]) && data[len - 1] in Members()
    {
      var n := len - 1;
      if n != i {
        SwapWithLast(i);
        Resift(i, n);
      }
      assert data[n] in data[..len];
    }

    /** Takes out the first item if its priority is at most `max`. */
    method PeekAndShift(max: int) returns (x: Item?, wait: int)
      requires Valid()
      modifies this`data, this`len, this`members, data, members`Index
      ensures Valid() && (data == old(data) || fresh(data))
      ensures x == null ==> unchanged(this) && unchanged(data) && members == old(members)
      ensures x == null ==> forall m | m in members ::
                              m.Priority > max && m.Priority - max >= wait && m.Index == old(m.Index)
      ensures x == null ==> if len == 0 then wait == 0 else exists m | m in members :: wait == m.Priority - max
      ensures x != null ==> x in old(members) && x.Priority <= max && x.Index == -1 && wait == 0
      ensures x != null ==> members == old(members) - {x} && len == old(len) - 1
      ensures x != null ==> forall m | m in old(members) :: x.Priority <= m.Priority
    {
      if len == 0 {
        return null, 0;
      }
      x := data[0];
      LeastFirst();
      assert x in data[..len];
      if x.Priority > max {
        return null, x.Priority - max;
      }
      x := Remove(0);
      wait := 0;
    }
  }
}
