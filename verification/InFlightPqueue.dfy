/** The in-flight queue: a hand-written min-heap of messages by deadline, each knowing its slot. */
module InFlightPqueue {
  import opened HeapOrder
  import opened Messages

  class InFlightPqueue {
    var data: array<Message?>
    var len: nat
    ghost var members: set<Message?>

    /** The slots in use; those behind may still point at elements that left. */
    ghost function Used(): seq<Message?>
      reads this, data
    {
      if len <= data.Length then data[..len] else []
    }

    ghost function Contents(): (s: seq<Message?>)
      requires len <= data.Length
      reads this, data
    {
      data[..len]
    }

    /** Capacity never reaches zero; every slot in use holds a message whose index names the slot. */
    ghost predicate Wired()
      reads this, data, Used()
    {
      && 1 <= data.Length && len <= data.Length
      && forall k | 0 <= k < len :: data[k] != null && data[k].index == k
    }

    ghost function Deadlines(): (s: seq<int>)
      requires Wired()
      reads this, data, Used()
    {
      seq(len, k requires 0 <= k < len && Wired() reads this, data, Used() => data[k].pri)
    }

    ghost predicate Sound()
      reads this, data, Used()
    {
      Wired() && IsHeap(Deadlines(), len)
    }

    ghost predicate Valid()
      reads this, data, members
    {
      len <= data.Length && Members() == members && Sound()
    }

    constructor (capacity: nat)
      requires capacity >= 1
      ensures Valid() && members == {} && fresh(data) && data.Length == capacity
    {
      data, len := new Message?[capacity](_ => null), 0;
      members := {};
    }

    /** The messages in the queue. */
    ghost function Members(): (ms: set<Message?>)
      requires len <= data.Length
      reads this, data
    {
      Elements(data[..len])
    }

    method Swap(i: nat, j: nat)
      requires Wired() && i < len && j < len
      modifies data, {data[i], data[j]}`index
      ensures Wired()
      ensures data[i] == old(data[j]) && data[j] == old(data[i])
      ensures forall k | k != i && k != j && 0 <= k < data.Length :: data[k] == old(data[k])
      ensures Deadlines() == Swapped(old(Deadlines()), i, j)
      ensures Members() == old(Members())
    {
      SwappedElements(data[..len], i, j);
      ghost var after := Swapped(data[..len], i, j);
      data[i], data[j] := data[j], data[i];
      assert data[..len] == after;
      data[i].index := i;
      data[j].index := j;
    }

    /** Sifts the element at `start` up to where its parent is no larger. */
    method Up(start: nat, ghost n: nat)
      requires Wired() && start < n <= len
      requires HeapButFor(Deadlines(), n, start) && ChildrenInOrder(Deadlines(), n, start)
      modifies data, Members()`index
      ensures Wired() && IsHeap(Deadlines(), n)
      ensures Members() == old(Members())
      ensures forall k | n <= k < len :: data[k] == old(data[k])
    {
      var j: nat := start;
      while true
        invariant Wired() && j < n <= len
        invariant Members() == old(Members())
        invariant forall k | n <= k < len :: data[k] == old(data[k])
        invariant HeapButFor(Deadlines(), n, j) && ChildrenInOrder(Deadlines(), n, j)
        decreases j
      {
        var i := if j == 0 then 0 else (j - 1) / 2; // Go's (0 - 1) / 2 is 0
        if i == j || data[j].pri >= data[i].pri {
          break;
        }
        UpStep(Deadlines(), n, j);
        Swap(i, j);
        j := i;
      }
      HeapWhole(Deadlines(), n, j);
    }

    /**
     Sifts the element at `start` down among the first `n`. Either it moved, and the whole is a
     heap, or it stayed, above its children, and may still be smaller than its parent.
     */
    method Down(start: nat, n: nat)
      requires Wired() && start < n <= len
      requires HeapButFor(Deadlines(), n, start)
      modifies data, Members()`index
      ensures Wired()
      ensures HeapButFor(Deadlines(), n, start) && ChildrenInOrder(Deadlines(), n, start)
      ensures Members() == old(Members())
      ensures forall k | n <= k < len :: data[k] == old(data[k])
    {
      var i: nat := start;
      var moved := true;
      while moved
        invariant Wired() && i < n <= len
        invariant Members() == old(Members())
        invariant forall k | n <= k < len :: data[k] == old(data[k])
        invariant SiftingDown(Deadlines(), n, start, i)
        invariant !moved ==> ChildrenInOrder(Deadlines(), n, i)
        decreases n - i, moved
      {
        i, moved := DownOnce(start, i, n);
      }
      DownDone(Deadlines(), n, start, i);
    }

    /** One round of sifting down: a swap with the smaller child if that is smaller. */
    method DownOnce(ghost start: nat, i: nat, n: nat) returns (j: nat, moved: bool)
      requires Wired() && i < n <= len
      requires SiftingDown(Deadlines(), n, start, i)
      modifies data, Members()`index
      ensures Wired() && i <= j < n && (moved <==> i < j)
      ensures SiftingDown(Deadlines(), n, start, j)
      ensures !moved ==> ChildrenInOrder(Deadlines(), n, j)
      ensures Members() == old(Members())
      ensures forall k | n <= k < len :: data[k] == old(data[k])
    {
      if 2 * i + 1 >= n {
        return i, false;
      }
      j := SmallerChild(i, n);
      if data[j].pri >= data[i].pri {
        return i, false;
      }
      DownStep(Deadlines(), n, start, i, j);
      Swap(i, j);
      moved := true;
    }

    method SmallerChild(i: nat, n: nat) returns (j: nat)
      requires Wired() && 2 * i + 1 < n <= len
      ensures 1 <= j < n && Parent(j) == i
      ensures forall k | 1 <= k < n && Parent(k) == i :: Deadlines()[j] <= Deadlines()[k]
    {
      j := 2 * i + 1;
      var j2 := j + 1;
      if j2 < n && data[j].pri >= data[j2].pri {
        j := j2;
      }
    }

    /** A new slice of capacity `capacity` holding the same messages. */
    method Reallocate(capacity: nat)
      requires Wired() && len <= capacity && capacity >= 1
      modifies this`data
      ensures Wired() && fresh(data) && data.Length == capacity
      ensures Contents() == old(Contents()) && Deadlines() == old(Deadlines())
    {
      var npq := new Message?[capacity](_ => null);
      forall k | 0 <= k < len {
        npq[k] := data[k];
      }
      assert npq[..len] == data[..len];
      data := npq;
    }

    method Push(x: Message)
      requires Valid() && x !in members
      modifies this`data, this`len, this`members, data, members`index, x`index
      ensures Valid() && (data == old(data) || fresh(data))
      ensures members == old(members) + {x}
      ensures len == old(len) + 1
      ensures data.Length == if old(len) < old(data.Length) then old(data.Length) else 2 * old(data.Length)
    {
      var n, c := len, data.Length;
      if n + 1 > c {
        Reallocate(c * 2);
      }
      Insert(x);
      members := members + {x};
    }

    /** Fills the first free slot and sifts it up. */
    method Insert(x: Message)
      requires Sound() && x !in Members() && len < data.Length
      modifies this`len, data, Members()`index, x`index
      ensures Sound() && len == old(len) + 1
      ensures Members() == old(Members()) + {x}
    {
      var n := len;
      Append(x);
      Up(n, len);
    }

    /** Fills the first free slot. */
    method Append(x: Message)
      requires Sound() && x !in Members() && len < data.Length
      modifies this`len, data, x`index
      ensures Wired() && len == old(len) + 1
      ensures Members() == old(Members()) + {x}
      ensures HeapButFor(Deadlines(), len, len - 1) && ChildrenInOrder(Deadlines(), len, len - 1)
    {
      ghost var before := Deadlines();
      assert Contents() == data[..len];
      x.index := len;
      data[len] := x;
      len := len + 1;
      assert data[..len] == old(data[..len]) + [x];
      assert forall k | 0 <= k < len - 1 :: Deadlines()[k] == before[k];
    }

    /** Swaps slot `i` with the last one: the slots before that are a heap but for `i`. */
    method SwapWithLast(i: nat)
      requires Sound() && i < len
      modifies data, Members()`index
      ensures Wired() && Members() == old(Members())
      ensures data[len - 1] == old(data[i])
      ensures i < len - 1 ==> HeapButFor(Deadlines(), len - 1, i)
    {
      ghost var before := Deadlines();
      assert data[i] in data[..len] && data[len - 1] in data[..len];
      Swap(i, len - 1);
      if i < len - 1 {
        HeapReplaced(before, Deadlines(), len - 1, i);
      }
    }

    /** Drops the last slot, whose message leaves the queue. */
    method DropLast() returns (x: Message)
      requires Wired() && len > 0 && IsHeap(Deadlines(), len - 1)
      modifies this`len, Members()`index
      ensures Sound() && x == old(data[len - 1]) && x.index == -1
      ensures Members() == old(Members()) - {x} && len == old(len) - 1
    {
      x := data[len - 1];
      assert data[..len] == data[..len - 1] + [x];
      assert x !in data[..len - 1];
      x.index := -1;
      len := len - 1;
    }

    /** Takes out a message whose deadline no other message's precedes. */
    method Pop() returns (x: Message)
      requires Valid() && len > 0
      modifies this`data, this`len, this`members, data, members`index
      ensures Valid() && (data == old(data) || fresh(data))
      ensures x in old(members) && x == old(data[0]) && x.index == -1
      ensures members == old(members) - {x} && len == old(len) - 1
      ensures forall m | m in old(members) :: x.pri <= m.pri
      ensures var c := old(data.Length); data.Length == if old(len) < c / 2 && c > 25 then c / 2 else c
    {
      LeastFirst();
      assert data[0] in data[..len];
      x := PopFirst();
      members := members - {x};
    }

    method PopFirst() returns (x: Message)
      requires Sound() && len > 0
      modifies this`data, this`len, data, Members()`index
      ensures Sound() && (data == old(data) || fresh(data))
      ensures x == old(data[0]) && x.index == -1
      ensures Members() == old(Members()) - {x} && len == old(len) - 1
      ensures data.Length == HalvedIfSparse(old(len), old(data.Length))
    {
      MoveFirstOut();
      ShrinkIfSparse();
      x := DropLast();
    }

    /** Halves the capacity when less than half is used, but never below 13. */
    method ShrinkIfSparse()
      requires Wired()
      modifies this`data
      ensures Wired() && (data == old(data) || fresh(data))
      ensures data.Length == HalvedIfSparse(len, old(data.Length))
      ensures Contents() == old(Contents()) && Deadlines() == old(Deadlines())
    {
      var n, c := len, data.Length;
      if n < c / 2 && c > 25 {
        Reallocate(c / 2);
      }
    }

    /** Brings the first message to the last slot and makes the others a heap. */
    method MoveFirstOut()
      requires Sound() && len > 0
      modifies data, Members()`index
      ensures Wired() && IsHeap(Deadlines(), len - 1)
      ensures Members() == old(Members())
      ensures data[len - 1] == old(data[0])
    {
      SwapWithLast(0);
      if len > 1 { // on a range of no elements Go's down does nothing
        Down(0, len - 1);
        HeapWhole(Deadlines(), len - 1, 0);
      }
    }

    lemma LeastFirst()
      requires Sound() && len > 0
      ensures forall m | m in Members() :: data[0].pri <= m.pri
    {
      forall m | m in Members() ensures data[0].pri <= m.pri {
        assert data[m.index] == m;
        RootIsMinimum(Deadlines(), len, m.index);
      }
    }

    /** Takes out the message in slot `i`. */
    method Remove(i: nat) returns (x: Message)
      requires Valid() && i < len
      modifies this`data, this`len, this`members, data, members`index
      ensures Valid() && data == old(data)
      ensures x == old(data[i]) && x.index == -1
      ensures members == old(members) - {x} && len == old(len) - 1
    {
      MoveOut(i);
      x := DropLast();
      members := members - {x};
    }

    /** Down, then up. */
    method Resift(i: nat, n: nat)
      requires Wired() && i < n <= len
      requires HeapButFor(Deadlines(), n, i)
      modifies data, Members()`index
      ensures Wired() && IsHeap(Deadlines(), n)
      ensures Members() == old(Members())
      ensures forall k | n <= k < len :: data[k] == old(data[k])
    {
      Down(i, n);
      Up(i, n);
    }

    /** Brings the message in slot `i` to the last slot and makes the others a heap. */
    method MoveOut(i: nat)
      requires Sound() && i < len
      modifies data, Members()`index
      ensures Wired() && IsHeap(Deadlines(), len - 1)
      ensures Members() == old(Members())
      ensures data[len - 1] == old(data[i])
    {
      var n := len;
      if n - 1 != i {
        SwapWithLast(i);
        assert data[n - 1] == old(data[i]);
        Resift(i, n - 1);
      }
    }

    /** Takes out the first message if its deadline is at most `max`. */
    method PeekAndShift(max: int) returns (x: Message?, wait: int)
      requires Valid()
      modifies this`data, this`len, this`members, data, members`index
      ensures Valid() && (data == old(data) || fresh(data))
      ensures x == null ==> unchanged(this) && unchanged(data) && members == old(members)
      ensures x == null ==> forall m | m in members :: m.pri > max && m.pri - max >= wait && m.index == old(m.index)
      ensures x == null ==> if len == 0 then wait == 0 else exists m | m in members :: wait == m.pri - max
      ensures x != null ==> x in old(members) && x.pri <= max && x.index == -1 && wait == 0
      ensures x != null ==> members == old(members) - {x} && len == old(len) - 1
      ensures x != null ==> forall m | m in old(members) :: x.pri <= m.pri
    {
      if len == 0 {
        return null, 0;
      }
      x := data[0];
      LeastFirst();
      assert x in data[..len];
      if x.pri > max {
        return null, x.pri - max;
      }
      x := Pop();
      wait := 0;
    }
  }
}
