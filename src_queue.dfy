/**
 * The src engine's fixed-capacity priority queues: `FastPriorityQueue<T>`
 * (a `T[maxNodes]` array) and `FasterPriorityQueue` (a
 * `PriorityQueueItem[maxNodes + 1]` array). Both run the same code over the
 * list invariants of `IndexedHeap`; they differ in the array length their
 * constructors allocate and in the item type, so one class models both and
 * `Faster` is the second queue's constructor.
 *
 * Items are ids into the array `priorities` of their `Priority` values;
 * each item's `QueueIndex` is kept by the queue, in the map `queueIndex`.
 * The slot array is the sequence `collection`, whose length only the
 * constructors choose.
 * Unlike the atomic queue, sift-down takes the right child when both
 * children have equal priority.
 */
module SrcQueue {
  import opened Outcomes
  import opened Cells
  import opened IndexedHeap

  /** The default `maxNodes` of `FastPriorityQueue<T>`. */
  const DefaultMaxNodes: int := 10000

  /** The queue's key: an item's `Priority`. */
  function Priority(p: real): real { p }

  /** Every entry of positions 1..n is an item id below `size`. */
  ghost predicate Bounded(sl: seq<int>, n: int, size: int)
    requires n < |sl|
  {
    forall i :: 1 <= i <= n ==> 0 <= sl[i] < size
  }

  /**
   * One pass of the src `CascadeDown` loop body at hole h, case by case, as
   * `SiftDown` with the right child preferred on ties sees it: stop at a
   * leaf, swap with a lone smaller left child and stop, move the left child
   * up when it is strictly smaller than the right one, and otherwise move
   * up the right child when it is smaller than the item.
   */
  lemma DownPass(ps: seq<real>, ix: map<int, int>, sl: seq<int>, n: int, item: int, h: int)
    requires 1 <= h <= n < |sl| && 0 <= item < |ps|
    requires 2 * h <= n ==> 0 <= sl[2 * h] < |ps|
    requires 2 * h + 1 <= n ==> 0 <= sl[2 * h + 1] < |ps|
    ensures 2 * h > n ==> SiftDown(ps, Priority, ix, sl, n, item, h, true) == (ix[item := h], sl[h := item])
    ensures 2 * h <= n && ps[sl[2 * h]] < ps[item] && 2 * h + 1 > n ==>
              SiftDown(ps, Priority, ix, sl, n, item, h, true) ==
              (ix[sl[2 * h] := h][item := 2 * h], sl[h := sl[2 * h]][2 * h := item])
    ensures 2 * h + 1 <= n && ps[sl[2 * h]] < ps[item] && ps[sl[2 * h]] < ps[sl[2 * h + 1]] ==>
              SiftDown(ps, Priority, ix, sl, n, item, h, true) ==
              SiftDown(ps, Priority, ix[sl[2 * h] := h], sl[h := sl[2 * h]], n, item, 2 * h, true)
    ensures 2 * h + 1 <= n && ps[sl[2 * h + 1]] < ps[item] && ps[sl[2 * h + 1]] <= ps[sl[2 * h]] ==>
              SiftDown(ps, Priority, ix, sl, n, item, h, true) ==
              SiftDown(ps, Priority, ix[sl[2 * h + 1] := h], sl[h := sl[2 * h + 1]], n, item, 2 * h + 1, true)
    ensures 2 * h <= n && ps[item] <= ps[sl[2 * h]] && (2 * h + 1 <= n ==> ps[item] <= ps[sl[2 * h + 1]]) ==>
              SiftDown(ps, Priority, ix, sl, n, item, h, true) == (ix[item := h], sl[h := item])
  {
    if 2 * h <= n && ps[sl[2 * h]] < ps[item] && 2 * h + 1 > n {
      var ix', sl' := ix[sl[2 * h] := h], sl[h := sl[2 * h]];
      assert SiftDown(ps, Priority, ix, sl, n, item, h, true) == SiftDown(ps, Priority, ix', sl', n, item, 2 * h, true);
    }
  }

  class FastPriorityQueue {
    var count: int                  // Count
    var collection: seq<int>        // _collection
    var queueIndex: map<int, int>   // the items' QueueIndex

    ghost predicate Valid(size: int)
      reads this
    {
      WellFormed(queueIndex, collection, count, size)
    }

    /** The zero-slot queue `new T[0]` makes: every slot access on it is out of range. */
    ghost predicate Bare()
      reads this
    {
      collection == [] && count == 0
    }

    /** A queue a constructor can leave: well formed, or without slots. */
    ghost predicate Usable(size: int)
      reads this
    {
      Valid(size) || Bare()
    }

    ghost predicate InQueue(c: int)
      reads this
    {
      InQueueOn(queueIndex, collection, count, c)
    }

    ghost predicate HeapOrdered(ps: seq<real>)
      reads this
      requires ShapeOn(collection, count)
    {
      HeapOrderedOn(ps, Priority, collection, count)
    }

    /** `new FastPriorityQueue<T>(maxNodes)`: an empty queue over a `maxNodes`-slot array. */
    constructor (maxNodes: Option<int>)
      requires maxNodes.Some? ==> maxNodes.value >= 0
      ensures |collection| == (if maxNodes.Some? then maxNodes.value else DefaultMaxNodes)
      ensures count == 0 && queueIndex == map[]
      ensures forall size :: Usable(size)
    {
      count := 0;
      collection := seq(if maxNodes.Some? then maxNodes.value else DefaultMaxNodes, _ => Null);
      queueIndex := map[];
    }

    /** `new FasterPriorityQueue(maxNodes)`: an empty queue over a `maxNodes + 1`-slot array. */
    constructor Faster(maxNodes: int)
      requires maxNodes >= -1
      ensures |collection| == maxNodes + 1
      ensures count == 0 && queueIndex == map[]
      ensures forall size :: Usable(size)
    {
      count := 0;
      collection := seq(maxNodes + 1, _ => Null);
      queueIndex := map[];
    }

    /**
     * `Contains` looks only at the slot the item's `QueueIndex` names. That
     * is exact because every slot past `Count` is empty, and an item never
     * enqueued has `QueueIndex` 0, the empty slot 0. A queue without slots
     * has no slot 0 to read.
     */
    method Contains(priorities: array<real>, item: int) returns (r: Result<bool>)
      requires Usable(priorities.Length) && 0 <= item
      ensures r.Err? <==> Bare()
      ensures r.Err? ==> r.error == IndexOutOfRange
      ensures r.Ok? ==> (r.value <==> InQueue(item))
      ensures r.Ok? && IndexIn(queueIndex, item) == 0 ==> !r.value
    {
      if !(0 <= IndexIn(queueIndex, item) < |collection|) {
        return Err(IndexOutOfRange);
      }
      r := Ok(collection[IndexIn(queueIndex, item)] == item);
    }

    /**
     * `Clear`: `Array.Clear(_collection, 1, Count)` empties the occupied
     * slots; on a queue without slots the range from index 1 is out of range.
     */
    method Clear() returns (r: Result<()>)
      requires ShapeOn(collection, count) || Bare()
      modifies this
      ensures r.Err? <==> old(Bare())
      ensures r.Err? ==> r.error == IndexOutOfRange && collection == old(collection) && count == old(count)
      ensures count == 0 && queueIndex == old(queueIndex) && |collection| == old(|collection|)
      ensures forall i :: 0 <= i < |collection| ==> collection[i] == Null
      ensures forall c :: !InQueue(c)
    {
      if collection == [] {
        return Err(IndexOutOfRange);
      }
      collection := collection[..1] + seq(count, _ => Null) + collection[count + 1..];
      count := 0;
      r := Ok(());
    }

    /**
     * `Enqueue` writes the priority and raises `Count` first, then stores the
     * item in slot `Count`: with every slot up to the array's end in use that
     * store is out of range, and the priority and `Count` stay written.
     */
    method Enqueue(priorities: array<real>, item: int, priority: real) returns (r: Result<()>)
      requires Usable(priorities.Length) && 0 <= item < priorities.Length && !InQueue(item)
      modifies this, priorities
      ensures priorities[..] == old(priorities[..])[item := priority]
      ensures count == old(count) + 1 && |collection| == old(|collection|)
      ensures old(count) + 1 >= |collection| ==>
                r == Err(IndexOutOfRange) && collection == old(collection) && queueIndex == old(queueIndex)
      ensures old(count) + 1 < |collection| ==>
                r == Ok(()) &&
                (queueIndex, collection) == EnqueueLinks(priorities[..], Priority, old(queueIndex), old(collection), old(count), item)
      ensures old(count) + 1 < |collection| ==>
                Valid(priorities.Length) && (forall c :: InQueue(c) <==> old(InQueue(c)) || c == item) &&
                (old(HeapOrdered(priorities[..])) ==> HeapOrdered(priorities[..]))
    {
      ghost var ps0, ix0, sl0, n := priorities[..], queueIndex, collection, count;
      priorities[item] := priority;
      count := count + 1;
      if count >= |collection| {
        return Err(IndexOutOfRange);
      }
      Place(priorities, item);
      EnqueueKeeps(ps0, priorities[..], Priority, ix0, sl0, n, item);
      r := Ok(());
    }

    /** The list part of `Enqueue` past its capacity test: `item` written at the new count and sifted up. */
    method Place(priorities: array<real>, item: int)
      requires 1 <= count < |collection| && WellFormed(queueIndex, collection, count - 1, priorities.Length)
      requires 0 <= item < priorities.Length && !InQueueOn(queueIndex, collection, count - 1, item)
      modifies this
      ensures count == old(count)
      ensures (queueIndex, collection) == EnqueueLinks(priorities[..], Priority, old(queueIndex), old(collection), count - 1, item)
    {
      EnqueuePlaced(queueIndex, collection, count - 1, priorities.Length, item);
      collection := collection[count := item];
      queueIndex := queueIndex[item := count];
      CascadeUp(priorities, item);
    }

    /**
     * `Dequeue` has no emptiness check. On an empty queue it reads slot 1
     * (out of range in a one-slot array) and then dereferences the null
     * entry of slot 0 as the former last node.
     */
    method Dequeue(priorities: array<real>) returns (r: Result<int>)
      requires Usable(priorities.Length)
      modifies this
      ensures |collection| == old(|collection|)
      ensures old(count) == 0 ==>
                r == (if |collection| <= 1 then Err(IndexOutOfRange) else Err(NullReference)) &&
                count == 0 && collection == old(collection) && queueIndex == old(queueIndex)
      ensures old(count) > 0 ==>
                r == Ok(old(collection[1])) && count == old(count) - 1 &&
                (queueIndex, collection) == DequeueLinks(priorities[..], Priority, old(queueIndex), old(collection), old(count), true)
      ensures old(count) > 0 ==>
                old(InQueue(r.value)) && 0 <= r.value < priorities.Length &&
                collection[old(count)] == Null && Valid(priorities.Length) &&
                (forall c :: 0 <= c ==> (InQueue(c) <==> old(InQueue(c)) && c != r.value))
      ensures old(count) > 0 && old(HeapOrdered(priorities[..])) ==>
                HeapOrdered(priorities[..]) &&
                forall c :: 0 <= c < priorities.Length && old(InQueue(c)) ==> priorities[r.value] <= priorities[c]
    {
      if |collection| <= 1 {
        return Err(IndexOutOfRange);
      }
      if count == 0 {
        // slot 0 holds null: it becomes the root and is dereferenced
        collection := collection[1 := collection[0]];
        return Err(NullReference);
      }
      DequeueKeeps(priorities[..], Priority, queueIndex, collection, count, true);
      var result := collection[1];
      RemoveRoot(priorities);
      r := Ok(result);
    }

    /** The rest of `Dequeue` on a non-empty queue: the last node moved to the root and sifted down. */
    method RemoveRoot(priorities: array<real>)
      requires Valid(priorities.Length) && count >= 1
      modifies this
      ensures count == old(count) - 1
      ensures (queueIndex, collection) == DequeueLinks(priorities[..], Priority, old(queueIndex), old(collection), old(count), true)
    {
      if count == 1 {
        collection := collection[1 := Null];
        count := 0;
      } else {
        ghost var ix0, sl0 := queueIndex, collection;
        var formerLastNode := collection[count];
        collection := collection[1 := formerLastNode];
        queueIndex := queueIndex[formerLastNode := 1];
        collection := collection[count := Null];
        DequeueMoved(ix0, sl0, count, priorities.Length, queueIndex, collection);
        count := count - 1;
        CascadeDown(priorities, formerLastNode);
      }
    }

    /** `UpdatePriority` of a queued item: the new priority, then `OnItemUpdated`. */
    method UpdatePriority(priorities: array<real>, item: int, priority: real)
      requires Valid(priorities.Length) && InQueue(item)
      modifies this, priorities
      ensures priorities[..] == old(priorities[..])[item := priority] && count == old(count)
      ensures (queueIndex, collection) == UpdateLinks(priorities[..], Priority, old(queueIndex), old(collection), count, item, true)
      ensures Valid(priorities.Length) && |collection| == old(|collection|)
      ensures forall c :: InQueue(c) <==> old(InQueue(c))
      ensures old(HeapOrdered(priorities[..])) ==> HeapOrdered(priorities[..])
    {
      ghost var ps0, ix0, sl0 := priorities[..], queueIndex, collection;
      priorities[item] := priority;
      OnItemUpdated(priorities, item);
      UpdateKeeps(ps0, priorities[..], Priority, ix0, sl0, count, item, true);
    }

    /** Sifts up an item whose priority is now below its parent's, and sifts down any other. */
    method OnItemUpdated(priorities: array<real>, item: int)
      requires Valid(priorities.Length) && InQueue(item)
      modifies this
      ensures count == old(count)
      ensures (queueIndex, collection) == UpdateLinks(priorities[..], Priority, old(queueIndex), old(collection), count, item, true)
    {
      var parentIndex := IndexIn(queueIndex, item) / 2;
      if parentIndex > 0 && priorities[item] < priorities[collection[parentIndex]] {
        CascadeUp(priorities, item);
      } else {
        CascadeDown(priorities, item);
      }
    }

    /** Moves `item` towards the root past every parent with a larger priority. */
    method CascadeUp(priorities: array<real>, item: int)
      requires Valid(priorities.Length) && InQueue(item)
      modifies this
      ensures count == old(count)
      ensures (queueIndex, collection) == SiftUp(priorities[..], Priority, old(queueIndex), old(collection), count, item)
    {
      ghost var target := SiftUp(priorities[..], Priority, queueIndex, collection, count, item);
      var parent;
      if IndexIn(queueIndex, item) > 1 {
        parent := IndexIn(queueIndex, item) / 2;
        var parentNode := collection[parent];
        if priorities[parentNode] <= priorities[item] {
          assert collection[IndexIn(queueIndex, item) := item] == collection;
          return;
        }
        collection := collection[IndexIn(queueIndex, item) := parentNode];
        queueIndex := queueIndex[parentNode := IndexIn(queueIndex, item)];
        queueIndex := queueIndex[item := parent];
      } else {
        assert collection[IndexIn(queueIndex, item) := item] == collection;
        return;
      }
      while parent > 1
        invariant parent == IndexIn(queueIndex, item) && 1 <= parent <= count < |collection|
        invariant count == old(count)
        invariant forall i :: 1 <= i <= count ==> 0 <= collection[i] < priorities.Length
        invariant SiftUp(priorities[..], Priority, queueIndex, collection, count, item) == target
      {
        parent := parent / 2;
        var parentNode := collection[parent];
        if priorities[parentNode] <= priorities[item] {
          break;
        }
        collection := collection[IndexIn(queueIndex, item) := parentNode];
        queueIndex := queueIndex[parentNode := IndexIn(queueIndex, item)];
        queueIndex := queueIndex[item := parent];
      }
      collection := collection[IndexIn(queueIndex, item) := item];
    }
  
    /**
     * Moves `item` away from the root while a child has a smaller priority,
     * taking the right child unless the left one is strictly smaller. The
     * source unrolls the first step and, where that step stops, returns
     * without rewriting the item's own slot and `QueueIndex`; the loop here
     * rewrites them with the values they already hold.
     */
    method CascadeDown(priorities: array<real>, item: int)
      requires Valid(priorities.Length) && InQueue(item)
      modifies this
      ensures count == old(count)
      ensures (queueIndex, collection) ==
                SiftDown(priorities[..], Priority, old(queueIndex), old(collection), count, item, old(IndexIn(queueIndex, item)), true)
    {
      var finalQueueIndex := IndexIn(queueIndex, item);
      ghost var ps := priorities[..];
      ghost var target := SiftDown(ps, Priority, queueIndex, collection, count, item, finalQueueIndex, true);
      while true
        invariant count == old(count) && 1 <= finalQueueIndex <= count < |collection|
        invariant Bounded(collection, count, priorities.Length) && 0 <= item < priorities.Length
        invariant SiftDown(ps, Priority, queueIndex, collection, count, item, finalQueueIndex, true) == target
        decreases count - finalQueueIndex
      {
        ghost var ix, sl, h := queueIndex, collection, finalQueueIndex;
        DownPass(ps, ix, sl, count, item, h);
        var childLeftIndex := 2 * finalQueueIndex;
        if childLeftIndex > count {
          queueIndex := queueIndex[item := finalQueueIndex];
          collection := collection[finalQueueIndex := item];
          assert (queueIndex, collection) == target;
          break;
        }
        var childRightIndex := childLeftIndex + 1;
        var childLeft := collection[childLeftIndex];
        if priorities[childLeft] < priorities[item] {
          if childRightIndex > count {
            queueIndex := queueIndex[childLeft := finalQueueIndex][item := childLeftIndex];
            collection := collection[finalQueueIndex := childLeft];
            collection := collection[childLeftIndex := item];
            assert (queueIndex, collection) == target;
            break;
          }
          var childRight := collection[childRightIndex];
          if priorities[childLeft] < priorities[childRight] {
            queueIndex := queueIndex[childLeft := finalQueueIndex];
            collection := collection[finalQueueIndex := childLeft];
            finalQueueIndex := childLeftIndex;
          } else {
            queueIndex := queueIndex[childRight := finalQueueIndex];
            collection := collection[finalQueueIndex := childRight];
            finalQueueIndex := childRightIndex;
          }
        } else if childRightIndex > count {
          queueIndex := queueIndex[item := finalQueueIndex];
          collection := collection[finalQueueIndex := item];
          assert (queueIndex, collection) == target;
          break;
        } else {
          var childRight := collection[childRightIndex];
          if priorities[childRight] < priorities[item] {
            queueIndex := queueIndex[childRight := finalQueueIndex];
            collection := collection[finalQueueIndex := childRight];
            finalQueueIndex := childRightIndex;
          } else {
            queueIndex := queueIndex[item := finalQueueIndex];
            collection := collection[finalQueueIndex := item];
            assert (queueIndex, collection) == target;
            break;
          }
        }
      }
    }
  }

  /**
   * `PriorityQueueItem`, the item record of `FasterPriorityQueue`: a cell
   * index, a queue position and a priority. A new item is at position 0,
   * which `Contains` never reports as queued; every setter also raises
   * `IsInitiated`.
   */
  class PriorityQueueItem {
    var cellIndex: int
    var queueIndex: int
    var priority: real
    var isInitiated: bool

    constructor (cellIndex: int)
      ensures this.cellIndex == cellIndex && queueIndex == 0 && priority == 0.0 && isInitiated
    {
      this.cellIndex := cellIndex;
      queueIndex := 0;
      priority := 0.0;
      isInitiated := true;
    }

    method SetQueueIndex(index: int)
      modifies this
      ensures queueIndex == index && isInitiated
      ensures cellIndex == old(cellIndex) && priority == old(priority)
    {
      isInitiated := true;
      queueIndex := index;
    }

    method SetPriority(priority: real)
      modifies this
      ensures this.priority == priority && isInitiated
      ensures cellIndex == old(cellIndex) && queueIndex == old(queueIndex)
    {
      isInitiated := true;
      this.priority := priority;
    }

    method SetCellIndex(index: int)
      modifies this
      ensures cellIndex == index && isInitiated
      ensures queueIndex == old(queueIndex) && priority == old(priority)
    {
      isInitiated := true;
      cellIndex := index;
    }
  }
}
