/**
 * The atomic engine's `FastPriorityQueue`: a binary min-heap of cell
 * pointers keyed by each cell's `ScoreF`, over the list invariants of
 * `IndexedHeap`. The `_collection` list starts with the null entry and
 * grows by one whenever `Count` reaches its length.
 *
 * Cells are indices into the cell buffer `cells`. Each cell's `QueueIndex`
 * field is kept by the queue, in the map `queueIndex`.
 */
module AtomicQueue {
  import opened Outcomes
  import opened Cells
  import opened IndexedHeap
  import HeapOrder

  const DefaultCollectionSize: int := 11

  /** The queue's key: a cell's `ScoreF`. */
  function ScoreF(c: Cell): real { c.scoreF }

  /** The list `Enqueue` writes into: one position longer when `Count + 1` reaches its length. */
  function Grown(sl: seq<int>, n: int): (g: seq<int>)
    ensures |g| == if n + 1 >= |sl| then |sl| + 1 else |sl|
  {
    if n + 1 >= |sl| then sl + [Null] else sl
  }

  /** The list after `Enqueue` has written `item` at position n + 1, appending when the list is full. */
  function Placed(sl: seq<int>, n: int, item: int): (p: seq<int>)
    requires 0 <= n < |sl|
  {
    if n + 1 >= |sl| then sl + [item] else sl[n + 1 := item]
  }

  /**
   * What `Enqueue` does to the lists before `CascadeUp`: growing the list
   * changes neither the queue nor its order, the placed item is in the
   * queue, and the sift-up that follows moves the links `EnqueueLinks`
   * describes.
   */
  lemma EnqueuePlace(cs: seq<Cell>, ix: map<int, int>, sl: seq<int>, n: int, item: int)
    requires WellFormed(ix, sl, n, |cs|) && 0 <= item < |cs| && !InQueueOn(ix, sl, n, item)
    ensures WellFormed(ix[item := n + 1], Placed(sl, n, item), n + 1, |cs|)
    ensures InQueueOn(ix[item := n + 1], Placed(sl, n, item), n + 1, item)
    ensures SiftUp(cs, ScoreF, ix[item := n + 1], Placed(sl, n, item), n + 1, item) ==
              EnqueueLinks(cs, ScoreF, ix, Grown(sl, n), n, item)
  {
    var g := Grown(sl, n);
    assert Placed(sl, n, item) == g[n + 1 := item];
    EnqueuePlaced(ix, g, n, |cs|, item);
  }

  /** What the whole `Enqueue` keeps: the list invariants, the members plus `item`, and heap order. */
  lemma EnqueueResult(cs0: seq<Cell>, ix: map<int, int>, sl: seq<int>, n: int, item: int, priority: real,
                      ix1: map<int, int>, sl1: seq<int>)
    requires WellFormed(ix, sl, n, |cs0|) && 0 <= item < |cs0| && !InQueueOn(ix, sl, n, item)
    requires (ix1, sl1) == EnqueueLinks(cs0[item := cs0[item].(scoreF := priority)], ScoreF, ix, Grown(sl, n), n, item)
    ensures WellFormed(ix1, sl1, n + 1, |cs0|) && |sl1| == |Grown(sl, n)|
    ensures forall c :: InQueueOn(ix1, sl1, n + 1, c) <==> InQueueOn(ix, sl, n, c) || c == item
    ensures HeapOrderedOn(cs0, ScoreF, sl, n) ==>
              HeapOrderedOn(cs0[item := cs0[item].(scoreF := priority)], ScoreF, sl1, n + 1)
  {
    var g := Grown(sl, n);
    assert forall c :: InQueueOn(ix, g, n, c) <==> InQueueOn(ix, sl, n, c);
    assert HeapOrderedOn(cs0, ScoreF, g, n) <==> HeapOrderedOn(cs0, ScoreF, sl, n);
    EnqueueKeeps(cs0, cs0[item := cs0[item].(scoreF := priority)], ScoreF, ix, g, n, item);
  }

  class FastPriorityQueue {
    var count: int                  // Count
    var slots: seq<int>             // _collection
    var queueIndex: map<int, int>   // the cells' QueueIndex fields

    ghost predicate Valid(size: int)
      reads this
    {
      WellFormed(queueIndex, slots, count, size)
    }

    /**
     * What `Clear` needs to leave an empty well-formed queue over a buffer of
     * any size: the list's shape, and every `QueueIndex` a position of it.
     */
    ghost predicate Reusable()
      reads this
    {
      ShapeOn(slots, count) && forall c :: c in queueIndex ==> 0 <= queueIndex[c] < |slots|
    }

    ghost predicate InQueue(c: int)
      reads this
    {
      InQueueOn(queueIndex, slots, count, c)
    }

    ghost predicate HeapOrdered(cs: seq<Cell>)
      reads this
      requires ShapeOn(slots, count)
    {
      HeapOrderedOn(cs, ScoreF, slots, count)
    }

    /** The queue holds exactly the cells its positions 1..Count point at, each once. */
    lemma Members(size: int, c: int)
      requires Valid(size) && 0 <= c
      ensures InQueue(c) <==> exists i :: 1 <= i <= count && slots[i] == c
      ensures InQueue(c) ==> c < size
      ensures forall i, j :: 1 <= i < j <= count ==> slots[i] != slots[j]
    {
      MembersAreEntries(queueIndex, slots, count, size);
      if c in multiset(slots) {
        var i :| 0 <= i < |slots| && slots[i] == c;
        assert 1 <= i <= count;
      }
    }

    constructor (bufferSize: Option<int>)
      requires bufferSize.Some? ==> bufferSize.value >= 0
      ensures count == 0 && slots == [Null] && queueIndex == map[]
      ensures Reusable() && forall size :: Valid(size)
    {
      count := 0;
      slots := [Null];
      queueIndex := map[];
    }

    method Contains(cells: array<Cell>, item: int) returns (b: bool)
      requires Valid(cells.Length) && 0 <= item < cells.Length
      ensures b == InQueue(item)
    {
      b := IndexIn(queueIndex, item) <= count && slots[IndexIn(queueIndex, item)] == item;
    }

    method Clear()
      requires ShapeOn(slots, count)
      modifies this
      ensures count == 0 && |slots| == old(|slots|) && queueIndex == old(queueIndex)
      ensures forall i :: 0 <= i < |slots| ==> slots[i] == Null
      ensures forall c :: !InQueue(c)
      ensures old(Reusable()) ==> forall size :: Valid(size)
    {
      var i := 1;
      while i <= count
        invariant 1 <= i <= count + 1 && |slots| == old(|slots|) && ShapeOn(slots, count)
        invariant queueIndex == old(queueIndex)
        invariant forall j :: 0 <= j < i ==> slots[j] == Null
      {
        slots := slots[i := Null];
        i := i + 1;
      }
      count := 0;
    }

    method Enqueue(cells: array<Cell>, item: int, priority: real)
      requires Valid(cells.Length) && 0 <= item < cells.Length && !InQueue(item)
      modifies this, cells
      ensures count == old(count) + 1
      ensures cells[..] == old(cells[..])[item := old(cells[item]).(scoreF := priority)]
      ensures (queueIndex, slots) == EnqueueLinks(cells[..], ScoreF, old(queueIndex), Grown(old(slots), old(count)), old(count), item)
      ensures Valid(cells.Length) && |slots| == |Grown(old(slots), old(count))|
      ensures forall c :: InQueue(c) <==> old(InQueue(c)) || c == item
      ensures old(HeapOrdered(cells[..])) ==> HeapOrdered(cells[..])
    {
      ghost var cs0, ix0, sl0, n := cells[..], queueIndex, slots, count;
      cells[item] := cells[item].(scoreF := priority);
      assert cells[..] == cs0[item := cs0[item].(scoreF := priority)];
      Place(cells, item);
      CascadeUp(cells, item);
      EnqueueResult(cs0, ix0, sl0, n, item, priority, queueIndex, slots);
    }

    /** The list part of `Enqueue` before `CascadeUp`: `item` put last. */
    method Place(cells: array<Cell>, item: int)
      requires Valid(cells.Length) && 0 <= item < cells.Length && !InQueue(item)
      modifies this
      ensures Valid(cells.Length) && InQueue(item) && count == old(count) + 1
      ensures SiftUp(cells[..], ScoreF, queueIndex, slots, count, item) ==
                EnqueueLinks(cells[..], ScoreF, old(queueIndex), Grown(old(slots), old(count)), old(count), item)
    {
      EnqueuePlace(cells[..], queueIndex, slots, count, item);
      slots := Placed(slots, count, item);
      queueIndex := queueIndex[item := count + 1];
      count := count + 1;
    }

    method Dequeue(cells: array<Cell>) returns (r: Result<int>)
      requires Valid(cells.Length)
      modifies this
      ensures old(count) == 0 ==>
                r == Err(InvalidOperation) && count == old(count) && slots == old(slots) &&
                queueIndex == old(queueIndex)
      ensures old(count) > 0 ==>
                r == Ok(old(slots[1])) && count == old(count) - 1 &&
                (queueIndex, slots) == DequeueLinks(cells[..], ScoreF, old(queueIndex), old(slots), old(count), false)
      ensures old(count) > 0 ==>
                old(InQueue(r.value)) && 0 <= r.value < cells.Length && |slots| == old(|slots|) &&
                slots[old(count)] == Null && Valid(cells.Length) &&
                (forall c :: 0 <= c ==> (InQueue(c) <==> old(InQueue(c)) && c != r.value))
      ensures old(count) > 0 && old(HeapOrdered(cells[..])) ==>
                HeapOrdered(cells[..]) &&
                forall c :: 0 <= c < cells.Length && old(InQueue(c)) ==> cells[r.value].scoreF <= cells[c].scoreF
    {
      if count == 0 {
        return Err(InvalidOperation);
      }
      DequeueKeeps(cells[..], ScoreF, queueIndex, slots, count, false);
      var result := slots[1];
      RemoveRoot(cells);
      r := Ok(result);
    }

    /** The list part of `Dequeue` past its emptiness test: the last node moved to the root and sifted down. */
    method RemoveRoot(cells: array<Cell>)
      requires Valid(cells.Length) && count >= 1
      modifies this
      ensures count == old(count) - 1
      ensures (queueIndex, slots) == DequeueLinks(cells[..], ScoreF, old(queueIndex), old(slots), old(count), false)
    {
      if count == 1 {
        slots := slots[1 := Null];
        count := 0;
      } else {
        ghost var ix0, sl0 := queueIndex, slots;
        var formerLastNode := slots[count];
        slots := slots[1 := formerLastNode];
        queueIndex := queueIndex[formerLastNode := 1];
        slots := slots[count := Null];
        DequeueMoved(ix0, sl0, count, cells.Length, queueIndex, slots);
        count := count - 1;
        CascadeDown(cells, formerLastNode);
      }
    }

    /** Moves `item` towards the root past every parent with a larger key. */
    method CascadeUp(cells: array<Cell>, item: int)
      requires Valid(cells.Length) && InQueue(item)
      modifies this
      ensures count == old(count) && (queueIndex, slots) == SiftUp(cells[..], ScoreF, old(queueIndex), old(slots), count, item)
    {
      ghost var target := SiftUp(cells[..], ScoreF, queueIndex, slots, count, item);
      while IndexIn(queueIndex, item) > 1
        invariant count == old(count) && 1 <= IndexIn(queueIndex, item) <= count < |slots|
        invariant forall i :: 1 <= i <= count ==> 0 <= slots[i] < cells.Length
        invariant SiftUp(cells[..], ScoreF, queueIndex, slots, count, item) == target
        decreases IndexIn(queueIndex, item)
      {
        var parentIndex := IndexIn(queueIndex, item) / 2;
        var parentNode := slots[parentIndex];
        if cells[parentNode].scoreF <= cells[item].scoreF {
          break;
        }
        slots := slots[IndexIn(queueIndex, item) := parentNode];
        queueIndex := queueIndex[parentNode := IndexIn(queueIndex, item)];
        queueIndex := queueIndex[item := parentIndex];
      }
      slots := slots[IndexIn(queueIndex, item) := item];
    }

    /** Moves `item` away from the root past every smaller child with a smaller key. */
    method CascadeDown(cells: array<Cell>, item: int)
      requires Valid(cells.Length) && InQueue(item)
      modifies this
      ensures count == old(count)
      ensures (queueIndex, slots) == SiftDown(cells[..], ScoreF, old(queueIndex), old(slots), count, item, old(IndexIn(queueIndex, item)), false)
    {
      var finalQueueIndex := IndexIn(queueIndex, item);
      ghost var target := SiftDown(cells[..], ScoreF, queueIndex, slots, count, item, finalQueueIndex, false);
      while true
        invariant count == old(count) && 1 <= finalQueueIndex <= count < |slots|
        invariant forall i :: 1 <= i <= count ==> 0 <= slots[i] < cells.Length
        invariant SiftDown(cells[..], ScoreF, queueIndex, slots, count, item, finalQueueIndex, false) == target
        decreases count - finalQueueIndex
      {
        var childLeftIndex := 2 * finalQueueIndex;
        if childLeftIndex > count {
          break;
        }
        var childRightIndex := childLeftIndex + 1;
        var childLeft := slots[childLeftIndex];
        var higherPriorityChild := childLeft;
        var higherPriorityChildIndex := childLeftIndex;
        if childRightIndex <= count {
          var childRight := slots[childRightIndex];
          if cells[childRight].scoreF < cells[childLeft].scoreF {
            higherPriorityChild := childRight;
            higherPriorityChildIndex := childRightIndex;
          }
        }
        assert higherPriorityChildIndex == SmallerChild(cells[..], ScoreF, slots, count, finalQueueIndex, false);
        if cells[item].scoreF <= cells[higherPriorityChild].scoreF {
          break;
        }
        slots := slots[finalQueueIndex := higherPriorityChild];
        queueIndex := queueIndex[higherPriorityChild := finalQueueIndex];
        finalQueueIndex := higherPriorityChildIndex;
      }
      queueIndex := queueIndex[item := finalQueueIndex];
      slots := slots[finalQueueIndex := item];
    }
  }
}
