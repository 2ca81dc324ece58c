/** wMessageQueue: a circular buffer that grows while wrapped, as the FIFO queue its
    clients take it for. */
module MessageQueue {
  import opened Bytes
  import opened ChannelThread

  const INCREMENT := 128

  /** A zeroed slot. */
  const ZERO: Item := Data([])

  /** The slot of entry `i` in a ring of `length` slots. */
  function Around(head: nat, i: nat, length: nat): nat
  {
    if head + i < length then head + i else head + i - length
  }

  /** The queue `q` wrapped in the first `oldCapacity` of the slots `s`. */
  ghost predicate Wrapped(s: seq<Item>, q: seq<Item>, oldCapacity: nat, head: nat, tail: nat)
  {
    && oldCapacity < |s| && |q| <= oldCapacity
    && (if oldCapacity == 0 then head == tail == 0 else head < oldCapacity && tail <= head)
    && (|q| == 0 ==> oldCapacity == 0)
    && head + |q| == oldCapacity + tail
    && forall i | 0 <= i < |q| :: q[i] == s[Around(head, i, oldCapacity)]
  }

  /** The slots after as many wrapped entries as there is room for were moved to the end
      and the others to the front. */
  ghost function Shifted(s: seq<Item>, oldCapacity: nat, tail: nat): (r: seq<Item>)
    requires oldCapacity < |s| && |s| - oldCapacity <= tail <= oldCapacity
    ensures |r| == |s|
  {
    var batch := |s| - oldCapacity;
    seq(|s|, k requires 0 <= k < |s| =>
      if k < tail - batch then s[batch + k] else if k < tail then ZERO
      else if k < oldCapacity then s[k] else s[k - oldCapacity])
  }

  lemma ShiftedHolds(s: seq<Item>, q: seq<Item>, oldCapacity: nat, head: nat, tail: nat)
    requires Wrapped(s, q, oldCapacity, head, tail) && |s| - oldCapacity <= tail
    ensures forall i | 0 <= i < |q| :: Shifted(s, oldCapacity, tail)[Around(head, i, |s|)] == q[i]
  {
  }

  /** `s` with `n` entries from `src` copied to `dst`. */
  ghost function Moved(s: seq<Item>, dst: nat, src: nat, n: nat): (r: seq<Item>)
    requires dst + n <= |s| && src + n <= |s|
    ensures |r| == |s|
  {
    seq(|s|, k requires 0 <= k < |s| => if dst <= k < dst + n then s[src + (k - dst)] else s[k])
  }

  ghost function Zeroed(s: seq<Item>, from: nat, n: nat): (r: seq<Item>)
    requires from + n <= |s|
    ensures |r| == |s|
  {
    seq(|s|, k requires 0 <= k < |s| => if from <= k < from + n then ZERO else s[k])
  }

  lemma ShiftInSteps(s: seq<Item>, oldCapacity: nat, tail: nat)
    requires oldCapacity < |s| && |s| - oldCapacity <= tail <= oldCapacity
    ensures var batch := |s| - oldCapacity;
            Zeroed(Moved(Moved(s, oldCapacity, 0, batch), 0, batch, tail - batch), tail - batch, batch)
            == Shifted(s, oldCapacity, tail)
  {
    var batch := |s| - oldCapacity;
    var s1 := Moved(s, oldCapacity, 0, batch);
    var s2 := Moved(s1, 0, batch, tail - batch);
    forall k | 0 <= k < |s|
      ensures Zeroed(s2, tail - batch, batch)[k] == Shifted(s, oldCapacity, tail)[k]
    {
      if k < tail - batch {
        assert s2[k] == s1[batch + k] == s[batch + k];
      } else if k >= tail {
        assert s2[k] == s1[k];
      }
    }
  }

  class Queue {
    var slots: array<Item>
    var head: nat
    var tail: nat
    var size: nat
    var closed: bool

    /** Where the `i`-th entry of the queue is. */
    function Place(i: nat): nat
      reads this
    {
      Around(head, i, slots.Length)
    }

    ghost predicate Valid()
      reads this
    {
      && size <= slots.Length
      && (if slots.Length == 0 then head == 0 && tail == 0 else head < slots.Length && tail == Place(size))
    }

    ghost function Contents(): (q: seq<Item>)
      requires Valid()
      reads this, slots
      ensures |q| == size
    {
      seq(size, i requires 0 <= i < size && Valid() reads this, slots => slots[Place(i)])
    }

    /** MessageQueue_New */
    constructor ()
      ensures Valid() && fresh(slots) && Contents() == [] && !closed && slots.Length > 0
    {
      slots := new Item[0];
      head, tail, size, closed := 0, 0, 0, false;
      new;
      EnsureCapacity(32);
    }

    /** realloc and ZeroMemory of the new part */
    static method Enlarged(old_slots: array<Item>, capacity: nat) returns (r: array<Item>)
      requires old_slots.Length <= capacity
      ensures fresh(r) && r.Length == capacity
      ensures forall k | 0 <= k < old_slots.Length :: r[k] == old_slots[k]
    {
      r := new Item[capacity](_ => ZERO);
      forall k | 0 <= k < old_slots.Length {
        r[k] := old_slots[k];
      }
    }

    /** CopyMemory and memmove_s */
    static method MoveBlock(a: array<Item>, dst: nat, src: nat, n: nat)
      requires dst + n <= a.Length && src + n <= a.Length
      modifies a
      ensures a[..] == Moved(old(a[..]), dst, src, n)
    {
      forall k | dst <= k < dst + n {
        a[k] := a[src + (k - dst)];
      }
    }

    /** ZeroMemory */
    static method ZeroBlock(a: array<Item>, from: nat, n: nat)
      requires from + n <= a.Length
      modifies a
      ensures a[..] == Zeroed(old(a[..]), from, n)
    {
      forall k | from <= k < from + n {
        a[k] := ZERO;
      }
    }

    /** All wrapped entries fit behind the others. */
    method Unwrap(oldCapacity: nat, ghost q: seq<Item>)
      requires tail < slots.Length - oldCapacity
      modifies this`tail, slots
      ensures tail == old(tail) + oldCapacity
      ensures old(Wrapped(slots[..], q, oldCapacity, head, tail)) && |q| == size ==> Valid() && Contents() == q
    {
      ghost var was := slots[..];
      MoveBlock(slots, oldCapacity, 0, tail);
      ghost var moved := slots[..];
      ZeroBlock(slots, 0, tail);
      tail := tail + oldCapacity;
      if old(Wrapped(slots[..], q, oldCapacity, head, tail)) && |q| == size {
        forall i | 0 <= i < size
          ensures slots[Place(i)] == q[i]
        {
          var k := head + i;
          assert q[i] == was[if k < oldCapacity then k else k - oldCapacity];
          assert slots[..][k] == moved[k] == if k < oldCapacity then was[k] else was[k - oldCapacity];
        }
      }
    }

    static method ShiftSlots(a: array<Item>, oldCapacity: nat, tail: nat)
      requires oldCapacity < a.Length && a.Length - oldCapacity <= tail <= oldCapacity
      modifies a
      ensures a[..] == Shifted(old(a[..]), oldCapacity, tail)
    {
      var batch := a.Length - oldCapacity;
      MoveBlock(a, oldCapacity, 0, batch);
      MoveBlock(a, 0, batch, tail - batch);
      ZeroBlock(a, tail - batch, batch);
      ShiftInSteps(old(a[..]), oldCapacity, tail);
    }

    /** Some wrapped entries stay wrapped and move down. */
    method ShiftDown(oldCapacity: nat, ghost q: seq<Item>)
      requires 0 < slots.Length - oldCapacity <= tail <= oldCapacity
      modifies this`tail, slots
      ensures tail == old(tail) - (slots.Length - oldCapacity)
      ensures old(Wrapped(slots[..], q, oldCapacity, head, tail)) && |q| == size ==> Valid() && Contents() == q
    {
      var batch := slots.Length - oldCapacity;
      var remain := tail - batch;
      ShiftSlots(slots, oldCapacity, tail);
      tail := remain;
      if old(Wrapped(slots[..], q, oldCapacity, head, tail)) && |q| == size {
        ShiftedHolds(old(slots[..]), q, oldCapacity, head, old(tail));
        forall i | 0 <= i < size
          ensures slots[Place(i)] == q[i]
        {
          assert slots[Place(i)] == slots[..][Place(i)];
        }
      }
    }

    /** The growth that loses track of the tail: an empty queue that has slots asks for more
        than it has. */
    predicate Overgrows(count: nat)
      reads this
    {
      size == 0 && 0 < slots.Length < count
    }

    /** MessageQueue_EnsureCapacity */
    method EnsureCapacity(count: nat)
      requires Valid()
      modifies this`slots, this`tail
      ensures Valid() <==> !old(Overgrows(count))
      ensures Valid() ==> Contents() == old(Contents())
      ensures slots.Length >= size + count && (slots == old(slots) || fresh(slots))
    {
      var required := size + count;
      if required > slots.Length {
        var oldCapacity, newCapacity := slots.Length, required + INCREMENT;
        ghost var q := Contents();
        slots := Enlarged(slots, newCapacity);
        if tail > head {
          assert forall i | 0 <= i < size :: Contents()[i] == slots[head + i] == q[i];
        } else if tail < newCapacity - oldCapacity {
          Unwrap(oldCapacity, q);
        } else {
          ShiftDown(oldCapacity, q);
        }
      }
    }

    method Store(message: Item)
      requires Valid() && size < slots.Length
      modifies this`tail, this`size, slots
      ensures Valid() && Contents() == old(Contents()) + [message]
    {
      ghost var q := Contents();
      slots[tail] := message;
      tail := if tail + 1 == slots.Length then 0 else tail + 1;
      size := size + 1;
      assert forall i | 0 <= i < size - 1 :: slots[Place(i)] == q[i];
      assert slots[Place(size - 1)] == message;
    }

    /** MessageQueue_Dispatch */
    method Dispatch(message: Item) returns (ok: bool)
      requires Valid()
      modifies this, slots
      ensures Valid() && (slots == old(slots) || fresh(slots))
      ensures ok <==> !old(closed)
      ensures Contents() == if ok then old(Contents()) + [message] else old(Contents())
      ensures closed == (old(closed) || message.Quit?)
    {
      if closed {
        return false;
      }
      EnsureCapacity(1);
      Store(message);
      if message.Quit? {
        closed := true;
      }
      return true;
    }

    /** MessageQueue_Peek with removal */
    method Take() returns (r: Option<Item>)
      requires Valid()
      modifies this`head, this`size, slots
      ensures Valid() && closed == old(closed)
      ensures if old(Contents()) == [] then r == None && Contents() == []
              else r == Some(old(Contents())[0]) && Contents() == old(Contents())[1..]
    {
      if size == 0 {
        return None;
      }
      ghost var q := Contents();
      assert q[0] == slots[Place(0)];
      r := Some(slots[head]);
      slots[head] := ZERO;
      head := if head + 1 == slots.Length then 0 else head + 1;
      size := size - 1;
      assert Contents() == q[1..];
    }
  }
}
