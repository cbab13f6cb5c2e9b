/**
 * The indexed binary min-heap shared by the three priority queues. Entries
 * live in positions 1..Count of the slot list; position 0 is the null
 * entry and never used. Each item records its own position (`QueueIndex`),
 * so membership and re-positioning need no search.
 *
 * Items are integer ids, so the slot list is a `seq<int>` whose free
 * positions hold `Null`. The `QueueIndex` fields are the map `ix`; an item
 * missing from it has the default 0. The priorities are `key` of the items'
 * records `ks`, indexed by item id (the `ScoreF` of a cell, the `Priority`
 * of a queue item).
 */
module IndexedHeap {
  import opened Cells
  import HeapOrder

  /** The `QueueIndex` of item c. */
  function IndexIn(ix: map<int, int>, c: int): int {
    if c in ix then ix[c] else 0
  }

  /** List shape: slot 0 and every slot past `n` hold the null entry. */
  ghost predicate ShapeOn(sl: seq<int>, n: int) {
    |sl| >= 1 && sl[0] == Null && 0 <= n < |sl| &&
    forall i :: n < i < |sl| ==> sl[i] == Null
  }

  /**
   * A well-formed queue over `size` items: each entry is an item whose
   * `QueueIndex` is its position, and every `QueueIndex` is a position of
   * the list.
   */
  ghost predicate WellFormed(ix: map<int, int>, sl: seq<int>, n: int, size: int) {
    ShapeOn(sl, n) &&
    (forall i :: 1 <= i <= n ==> 0 <= sl[i] < size && IndexIn(ix, sl[i]) == i) &&
    (forall c :: c in ix ==> 0 <= ix[c] < |sl|)
  }

  /** The membership test of `Contains`. */
  ghost predicate InQueueOn(ix: map<int, int>, sl: seq<int>, n: int, c: int) {
    1 <= IndexIn(ix, c) <= n && IndexIn(ix, c) < |sl| && sl[IndexIn(ix, c)] == c
  }

  /** The key of a list entry: the item's priority (0 for the null entry). */
  ghost function KeyAt<T>(ks: seq<T>, key: T -> real, c: int): real {
    if 0 <= c < |ks| then key(ks[c]) else 0.0
  }

  /** `k` lists the key of every list position. */
  ghost predicate Keyed<T>(ks: seq<T>, key: T -> real, sl: seq<int>, k: seq<real>) {
    |k| == |sl| && forall i :: 0 <= i < |sl| ==> k[i] == KeyAt(ks, key, sl[i])
  }

  ghost function KeysOf<T>(ks: seq<T>, key: T -> real, sl: seq<int>): (k: seq<real>)
    ensures Keyed(ks, key, sl, k)
  {
    seq(|sl|, i requires 0 <= i < |sl| => KeyAt(ks, key, sl[i]))
  }

  /** Heap order of the entries in positions 1..n: no entry's key is below its parent's. */
  ghost predicate HeapOrderedOn<T>(ks: seq<T>, key: T -> real, sl: seq<int>, n: int)
    requires n < |sl|
  {
    forall i :: 2 <= i <= n ==> KeyAt(ks, key, sl[i / 2]) <= KeyAt(ks, key, sl[i])
  }

  /** Ready for `CascadeUp` at h: heap order except between h and its parent, whose key is below h's children. */
  ghost predicate UpReadyOn<T>(ks: seq<T>, key: T -> real, sl: seq<int>, n: int, h: int)
    requires n < |sl|
  {
    (forall i :: 2 <= i <= n && i != h ==> KeyAt(ks, key, sl[i / 2]) <= KeyAt(ks, key, sl[i])) &&
    (h > 1 ==> forall i :: 2 <= i <= n && i / 2 == h ==> KeyAt(ks, key, sl[h / 2]) <= KeyAt(ks, key, sl[i]))
  }

  /** Ready for `CascadeDown` at h: heap order except between h and its children, and h's parent is below them. */
  ghost predicate DownReadyOn<T>(ks: seq<T>, key: T -> real, sl: seq<int>, n: int, h: int)
    requires n < |sl|
  {
    (forall i :: 2 <= i <= n && i / 2 != h ==> KeyAt(ks, key, sl[i / 2]) <= KeyAt(ks, key, sl[i])) &&
    (h > 1 ==> forall i :: 2 <= i <= n && i / 2 == h ==> KeyAt(ks, key, sl[h / 2]) <= KeyAt(ks, key, sl[i]))
  }

  lemma KeyedReady<T>(ks: seq<T>, key: T -> real, sl: seq<int>, n: int, h: int, k: seq<real>)
    requires Keyed(ks, key, sl, k) && 1 <= h <= n < |sl|
    ensures HeapOrder.OrderedExceptUp(k, n, h) <==> UpReadyOn(ks, key, sl, n, h)
    ensures HeapOrder.OrderedExceptDown(k, n, h) <==> DownReadyOn(ks, key, sl, n, h)
  {
  }

  lemma KeyedOrdered<T>(ks: seq<T>, key: T -> real, sl: seq<int>, n: int, k: seq<real>)
    requires Keyed(ks, key, sl, k) && n < |sl|
    ensures HeapOrder.Ordered(k, n) <==> HeapOrderedOn(ks, key, sl, n)
  {
  }

  lemma KeyedSwap<T>(ks: seq<T>, key: T -> real, s: seq<int>, k: seq<real>, h: int, p: int)
    requires Keyed(ks, key, s, k) && 0 <= h < |s| && 0 <= p < |s|
    ensures Keyed(ks, key, HeapOrder.Swap(s, h, p), HeapOrder.Swap(k, h, p))
  {
  }

  /** In a well-formed queue the members are exactly the cells it points at, each once. */
  lemma MembersAreEntries(ix: map<int, int>, sl: seq<int>, n: int, size: int)
    requires WellFormed(ix, sl, n, size)
    ensures forall c :: 0 <= c ==> (InQueueOn(ix, sl, n, c) <==> c in multiset(sl))
    ensures forall i, j :: 1 <= i < j <= n ==> sl[i] != sl[j]
  {
    forall c | 0 <= c && c in multiset(sl) ensures InQueueOn(ix, sl, n, c) {
      var i :| 0 <= i < |sl| && sl[i] == c;
      assert 1 <= i <= n;
    }
    forall i, j | 1 <= i < j <= n ensures sl[i] != sl[j] {
      assert IndexIn(ix, sl[i]) == i && IndexIn(ix, sl[j]) == j;
    }
  }

  /** In an ordered queue the root's key is no larger than any member's. */
  lemma RootIsMinimal<T>(ks: seq<T>, key: T -> real, ix: map<int, int>, sl: seq<int>, n: int)
    requires WellFormed(ix, sl, n, |ks|) && n >= 1 && HeapOrderedOn(ks, key, sl, n)
    ensures forall c :: 0 <= c < |ks| && InQueueOn(ix, sl, n, c) ==> key(ks[sl[1]]) <= key(ks[c])
  {
    var k := KeysOf(ks, key, sl);
    KeyedOrdered(ks, key, sl, n, k);
    HeapOrder.RootIsMin(k, n);
    forall c | 0 <= c < |ks| && InQueueOn(ix, sl, n, c) ensures key(ks[sl[1]]) <= key(ks[c]) {
      assert k[IndexIn(ix, c)] == key(ks[c]);
    }
  }

  /** An ordered queue with a new last entry is ready for `CascadeUp`. */
  lemma EnqueueReady<T>(ks0: seq<T>, key: T -> real, ix0: map<int, int>, sl0: seq<int>, n: int, item: int,
                        ks1: seq<T>, sl1: seq<int>)
    requires WellFormed(ix0, sl0, n, |ks0|) && 0 <= item < |ks0| && !InQueueOn(ix0, sl0, n, item)
    requires HeapOrderedOn(ks0, key, sl0, n)
    requires |ks1| == |ks0| && forall c :: 0 <= c < |ks0| && c != item ==> ks1[c] == ks0[c]
    requires |sl1| > n + 1 && forall i :: 1 <= i <= n ==> sl1[i] == sl0[i]
    ensures UpReadyOn(ks1, key, sl1, n + 1, n + 1)
  {
    forall i | 1 <= i <= n ensures KeyAt(ks1, key, sl1[i]) == KeyAt(ks0, key, sl0[i]) {
      assert IndexIn(ix0, sl0[i]) == i;
    }
  }

  /** An ordered queue whose last entry replaced its root is ready for `CascadeDown`. */
  lemma DequeueReady<T>(ks: seq<T>, key: T -> real, sl0: seq<int>, n: int, sl1: seq<int>)
    requires ShapeOn(sl0, n) && n >= 2 && HeapOrderedOn(ks, key, sl0, n)
    requires sl1 == sl0[1 := sl0[n]][n := Null]
    ensures DownReadyOn(ks, key, sl1, n - 1, 1)
  {
    forall i | 2 <= i <= n - 1 && i / 2 != 1 ensures KeyAt(ks, key, sl1[i / 2]) <= KeyAt(ks, key, sl1[i]) {
      assert sl1[i / 2] == sl0[i / 2] && sl1[i] == sl0[i];
    }
  }

  /** The list after `Enqueue` has placed `item` in the new last position n + 1. */
  lemma EnqueuePlaced(ix0: map<int, int>, sl0: seq<int>, n: int, size: int, item: int)
    requires WellFormed(ix0, sl0, n, size) && n + 1 < |sl0| && 0 <= item < size && !InQueueOn(ix0, sl0, n, item)
    ensures WellFormed(ix0[item := n + 1], sl0[n + 1 := item], n + 1, size)
    ensures InQueueOn(ix0[item := n + 1], sl0[n + 1 := item], n + 1, item)
    ensures forall c :: InQueueOn(ix0[item := n + 1], sl0[n + 1 := item], n + 1, c) <==> InQueueOn(ix0, sl0, n, c) || c == item
  {
    var ix1, sl1 := ix0[item := n + 1], sl0[n + 1 := item];
    forall c ensures InQueueOn(ix1, sl1, n + 1, c) <==> InQueueOn(ix0, sl0, n, c) || c == item {
      if c != item && 1 <= IndexIn(ix0, c) <= n {
        assert sl1[IndexIn(ix0, c)] == sl0[IndexIn(ix0, c)];
      }
    }
  }

  /** The list after `Dequeue` has moved the last entry to the root, before the sift. */
  lemma DequeueMoved(ix0: map<int, int>, sl0: seq<int>, n: int, size: int, ix1: map<int, int>, sl1: seq<int>)
    requires WellFormed(ix0, sl0, n, size) && n >= 2
    requires ix1 == ix0[sl0[n] := 1] && sl1 == sl0[1 := sl0[n]][n := Null]
    ensures WellFormed(ix1, sl1, n - 1, size) && InQueueOn(ix1, sl1, n - 1, sl0[n])
    ensures forall c :: 0 <= c ==> (InQueueOn(ix1, sl1, n - 1, c) <==> InQueueOn(ix0, sl0, n, c) && c != sl0[1])
    ensures forall i :: 2 <= i <= n - 1 ==> sl1[i] == sl0[i]
  {
    forall i | 2 <= i <= n - 1 ensures sl0[i] != sl0[n] {
      assert IndexIn(ix0, sl0[i]) == i;
    }
    assert sl0[1] != sl0[n] by {
      assert IndexIn(ix0, sl0[1]) == 1;
    }
    forall c | 0 <= c
      ensures InQueueOn(ix1, sl1, n - 1, c) <==> InQueueOn(ix0, sl0, n, c) && c != sl0[1]
    {
      if c != sl0[n] {
        var q := IndexIn(ix0, c);
        if 2 <= q <= n - 1 {
          assert sl1[q] == sl0[q];
        }
      }
    }
  }

  /**
   * The list while `item` is being sifted with its hole at position h. Every
   * other position is consistent, does not hold `item`, and holds a member
   * of the queue (ix0, sl0) the sift started from; every such member other
   * than `item` sits, consistently, at a position other than the hole.
   */
  ghost predicate Sifting(ix0: map<int, int>, sl0: seq<int>, n: int, size: int,
                          ix: map<int, int>, sl: seq<int>, item: int, h: int) {
    ShapeOn(sl, n) && |sl| == |sl0| && 1 <= h <= n && 0 <= item < size &&
    (forall i :: 1 <= i <= n && i != h ==> 0 <= sl[i] < size && IndexIn(ix, sl[i]) == i && sl[i] != item) &&
    (forall c :: c in ix ==> 0 <= ix[c] < |sl|) &&
    (forall i :: 1 <= i <= n && i != h ==> InQueueOn(ix0, sl0, n, sl[i])) &&
    (forall c {:trigger InQueueOn(ix0, sl0, n, c)} :: InQueueOn(ix0, sl0, n, c) && c != item ==>
       1 <= IndexIn(ix, c) <= n && IndexIn(ix, c) != h && sl[IndexIn(ix, c)] == c)
  }

  lemma SiftStart(ix: map<int, int>, sl: seq<int>, n: int, size: int, item: int)
    requires WellFormed(ix, sl, n, size) && 0 <= item < size && InQueueOn(ix, sl, n, item)
    ensures Sifting(ix, sl, n, size, ix, sl, item, IndexIn(ix, item))
  {
  }

  /** The entry at position c moves into the hole h, and the hole moves to c. */
  lemma SiftMove(ix0: map<int, int>, sl0: seq<int>, n: int, size: int, ix: map<int, int>, sl: seq<int>,
                 item: int, h: int, c: int, ix': map<int, int>)
    requires Sifting(ix0, sl0, n, size, ix, sl, item, h) && 1 <= c <= n && c != h
    requires ix' == ix[sl[c] := h] || ix' == ix[sl[c] := h][item := c]
    ensures Sifting(ix0, sl0, n, size, ix', sl[h := sl[c]], item, c)
  {
    var p, sl' := sl[c], sl[h := sl[c]];
    assert IndexIn(ix', p) == h;
    forall i | 1 <= i <= n && i != h && i != c ensures IndexIn(ix', sl'[i]) == i {
      assert sl[i] != p by { assert IndexIn(ix, sl[i]) == i && IndexIn(ix, p) == c; }
    }
    forall d | InQueueOn(ix0, sl0, n, d) && d != item && d != p
      ensures 1 <= IndexIn(ix', d) <= n && IndexIn(ix', d) != c && sl'[IndexIn(ix', d)] == d
    {
      assert IndexIn(ix', d) == IndexIn(ix, d);
    }
  }

  /** The item is written into the final hole: the queue has the members it started with. */
  lemma SiftFinish(ix0: map<int, int>, sl0: seq<int>, n: int, size: int, ix: map<int, int>, sl: seq<int>,
                   item: int, h: int)
    requires Sifting(ix0, sl0, n, size, ix, sl, item, h) && InQueueOn(ix0, sl0, n, item)
    ensures WellFormed(ix[item := h], sl[h := item], n, size)
    ensures forall c :: InQueueOn(ix[item := h], sl[h := item], n, c) <==> InQueueOn(ix0, sl0, n, c)
  {
    var ix', sl' := ix[item := h], sl[h := item];
    forall c ensures InQueueOn(ix', sl', n, c) <==> InQueueOn(ix0, sl0, n, c) {
      if c != item && InQueueOn(ix', sl', n, c) {
        assert sl[IndexIn(ix', c)] == c;
      }
    }
  }

  /** `CascadeUp` may stop: the item is at the root or its parent's key is no larger. */
  ghost predicate CanStopUp<T>(ks: seq<T>, key: T -> real, sl: seq<int>, item: int, h: int)
    requires 1 <= h < |sl|
  {
    h == 1 || KeyAt(ks, key, sl[h / 2]) <= KeyAt(ks, key, item)
  }

  /** `CascadeDown` may stop: no child of h has a key below the item's. */
  ghost predicate CanStopDown<T>(ks: seq<T>, key: T -> real, sl: seq<int>, n: int, item: int, h: int)
    requires n < |sl|
  {
    (0 <= 2 * h <= n ==> KeyAt(ks, key, item) <= KeyAt(ks, key, sl[2 * h])) &&
    (0 <= 2 * h + 1 <= n ==> KeyAt(ks, key, item) <= KeyAt(ks, key, sl[2 * h + 1]))
  }

  /** One step of `CascadeUp`: the parent at h/2, whose key is larger than the item's, moves down into h. */
  lemma UpAdvance<T>(ks: seq<T>, key: T -> real, ix0: map<int, int>, sl0: seq<int>, n: int, ix: map<int, int>, sl: seq<int>,
                  item: int, h: int, p: int, k: seq<real>, ready: bool)
    requires Sifting(ix0, sl0, n, |ks|, ix, sl, item, h) && Keyed(ks, key, sl[h := item], k) && h >= 2
    requires ready ==> HeapOrder.OrderedExceptUp(k, n, h)
    requires p == sl[h / 2] && KeyAt(ks, key, item) < KeyAt(ks, key, p)
    ensures Sifting(ix0, sl0, n, |ks|, ix[p := h][item := h / 2], sl[h := p], item, h / 2)
    ensures Keyed(ks, key, sl[h := p][h / 2 := item], HeapOrder.Swap(k, h, h / 2))
    ensures ready ==> HeapOrder.OrderedExceptUp(HeapOrder.Swap(k, h, h / 2), n, h / 2)
  {
    if ready {
      HeapOrder.UpStep(k, n, h);
    }
    SiftMove(ix0, sl0, n, |ks|, ix, sl, item, h, h / 2, ix[sl[h / 2] := h][item := h / 2]);
    assert sl[h := p][h / 2 := item] == HeapOrder.Swap(sl[h := item], h, h / 2);
    KeyedSwap(ks, key, sl[h := item], k, h, h / 2);
  }

  /** `CascadeUp` stops at the root or below a parent whose key is no larger than the item's. */
  lemma UpStop<T>(ks: seq<T>, key: T -> real, ix0: map<int, int>, sl0: seq<int>, n: int, ix: map<int, int>, sl: seq<int>,
               item: int, h: int, k: seq<real>, ready: bool)
    requires Sifting(ix0, sl0, n, |ks|, ix, sl, item, h) && InQueueOn(ix0, sl0, n, item)
    requires Keyed(ks, key, sl[h := item], k)
    requires ready ==> HeapOrder.OrderedExceptUp(k, n, h)
    requires CanStopUp(ks, key, sl, item, h)
    ensures WellFormed(ix[item := h], sl[h := item], n, |ks|)
    ensures forall c :: InQueueOn(ix[item := h], sl[h := item], n, c) <==> InQueueOn(ix0, sl0, n, c)
    ensures ready ==> HeapOrderedOn(ks, key, sl[h := item], n)
  {
    if ready {
      HeapOrder.UpDone(k, n, h);
      KeyedOrdered(ks, key, sl[h := item], n, k);
    }
    SiftFinish(ix0, sl0, n, |ks|, ix, sl, item, h);
  }

  /** One step of `CascadeDown`: the smaller child c, whose key is below the item's, moves up into h. */
  lemma DownAdvance<T>(ks: seq<T>, key: T -> real, ix0: map<int, int>, sl0: seq<int>, n: int, ix: map<int, int>, sl: seq<int>,
                    item: int, h: int, c: int, p: int, k: seq<real>, ready: bool)
    requires Sifting(ix0, sl0, n, |ks|, ix, sl, item, h) && Keyed(ks, key, sl[h := item], k)
    requires ready ==> HeapOrder.OrderedExceptDown(k, n, h)
    requires (c == 2 * h || c == 2 * h + 1) && c <= n && p == sl[c]
    requires KeyAt(ks, key, p) <= KeyAt(ks, key, sl[2 * h])
    requires 2 * h + 1 <= n ==> KeyAt(ks, key, p) <= KeyAt(ks, key, sl[2 * h + 1])
    requires KeyAt(ks, key, p) < KeyAt(ks, key, item)
    ensures Sifting(ix0, sl0, n, |ks|, ix[p := h], sl[h := p], item, c)
    ensures Keyed(ks, key, sl[h := p][c := item], HeapOrder.Swap(k, h, c))
    ensures ready ==> HeapOrder.OrderedExceptDown(HeapOrder.Swap(k, h, c), n, c)
  {
    if ready {
      HeapOrder.DownStep(k, n, h, c);
    }
    SiftMove(ix0, sl0, n, |ks|, ix, sl, item, h, c, ix[sl[c] := h]);
    assert sl[h := p][c := item] == HeapOrder.Swap(sl[h := item], h, c);
    KeyedSwap(ks, key, sl[h := item], k, h, c);
  }

  /** `CascadeDown` stops at a leaf or above children whose keys are no smaller than the item's. */
  lemma DownStop<T>(ks: seq<T>, key: T -> real, ix0: map<int, int>, sl0: seq<int>, n: int, ix: map<int, int>, sl: seq<int>,
                 item: int, h: int, k: seq<real>, ready: bool)
    requires Sifting(ix0, sl0, n, |ks|, ix, sl, item, h) && InQueueOn(ix0, sl0, n, item)
    requires Keyed(ks, key, sl[h := item], k)
    requires ready ==> HeapOrder.OrderedExceptDown(k, n, h)
    requires CanStopDown(ks, key, sl, n, item, h)
    ensures WellFormed(ix[item := h], sl[h := item], n, |ks|)
    ensures forall c :: InQueueOn(ix[item := h], sl[h := item], n, c) <==> InQueueOn(ix0, sl0, n, c)
    ensures ready ==> HeapOrderedOn(ks, key, sl[h := item], n)
  {
    if ready {
      HeapOrder.DownDone(k, n, h);
      KeyedOrdered(ks, key, sl[h := item], n, k);
    }
    SiftFinish(ix0, sl0, n, |ks|, ix, sl, item, h);
  }

  /** The `QueueIndex` map and list a sift ends with. */
  type QueueLinks = (map<int, int>, seq<int>)

  /**
   * What `CascadeUp` computes: the item's hole climbs while the parent's key
   * is larger than the item's, and the item is written into the final hole.
   */
  ghost function SiftUp<T>(ks: seq<T>, key: T -> real, ix: map<int, int>, sl: seq<int>, n: int, item: int): (r: QueueLinks)
    requires 1 <= IndexIn(ix, item) <= n < |sl|
    ensures |r.1| == |sl|
    decreases IndexIn(ix, item)
  {
    var h := IndexIn(ix, item);
    if h <= 1 || KeyAt(ks, key, sl[h / 2]) <= KeyAt(ks, key, item) then (ix, sl[h := item])
    else SiftUp(ks, key, ix[sl[h / 2] := h][item := h / 2], sl[h := sl[h / 2]], n, item)
  }

  /**
   * The child `CascadeDown` compares with: one with the smaller key. On equal
   * keys the atomic queue keeps the left child and the src queues take the
   * right one (`rightOnTie`).
   */
  ghost function SmallerChild<T>(ks: seq<T>, key: T -> real, sl: seq<int>, n: int, h: int, rightOnTie: bool): (c: int)
    requires 1 <= h && 2 * h <= n < |sl|
    ensures (c == 2 * h || c == 2 * h + 1) && c <= n
    ensures KeyAt(ks, key, sl[c]) <= KeyAt(ks, key, sl[2 * h])
    ensures 2 * h + 1 <= n ==> KeyAt(ks, key, sl[c]) <= KeyAt(ks, key, sl[2 * h + 1])
    ensures 2 * h + 1 <= n && KeyAt(ks, key, sl[2 * h + 1]) == KeyAt(ks, key, sl[2 * h]) ==> (c == 2 * h + 1 <==> rightOnTie)
  {
    if 2 * h + 1 <= n && (if rightOnTie then KeyAt(ks, key, sl[2 * h + 1]) <= KeyAt(ks, key, sl[2 * h])
                          else KeyAt(ks, key, sl[2 * h + 1]) < KeyAt(ks, key, sl[2 * h]))
    then 2 * h + 1 else 2 * h
  }

  /**
   * What `CascadeDown` computes from hole h: the smaller child moves up while
   * its key is below the item's, and the item is written into the final hole.
   */
  ghost function SiftDown<T>(ks: seq<T>, key: T -> real, ix: map<int, int>, sl: seq<int>, n: int, item: int, h: int, rightOnTie: bool)
    : (r: QueueLinks)
    requires 1 <= h <= n < |sl|
    ensures |r.1| == |sl|
    decreases n - h
  {
    if 2 * h > n then (ix[item := h], sl[h := item])
    else
      var c := SmallerChild(ks, key, sl, n, h, rightOnTie);
      if KeyAt(ks, key, item) <= KeyAt(ks, key, sl[c]) then (ix[item := h], sl[h := item])
      else SiftDown(ks, key, ix[sl[c] := h], sl[h := sl[c]], n, item, c, rightOnTie)
  }

  /**
   * A sift's result: a well-formed queue of the same length with the same
   * members as (ix0, sl0), heap-ordered when `ordered` holds.
   */
  ghost predicate Sifted<T>(ks: seq<T>, key: T -> real, ix0: map<int, int>, sl0: seq<int>, n: int, r: QueueLinks, ordered: bool) {
    WellFormed(r.0, r.1, n, |ks|) && |r.1| == |sl0| &&
    (forall c :: InQueueOn(r.0, r.1, n, c) <==> InQueueOn(ix0, sl0, n, c)) &&
    (ordered ==> HeapOrderedOn(ks, key, r.1, n))
  }

  lemma {:induction false} SiftUpFrom<T>(ks: seq<T>, key: T -> real, ix0: map<int, int>, sl0: seq<int>, n: int,
                                      ix: map<int, int>, sl: seq<int>, item: int, k: seq<real>, ready: bool)
    requires Sifting(ix0, sl0, n, |ks|, ix, sl, item, IndexIn(ix, item)) && InQueueOn(ix0, sl0, n, item)
    requires Keyed(ks, key, sl[IndexIn(ix, item) := item], k)
    requires ready ==> HeapOrder.OrderedExceptUp(k, n, IndexIn(ix, item))
    ensures Sifted(ks, key, ix0, sl0, n, SiftUp(ks, key, ix, sl, n, item), ready)
    decreases IndexIn(ix, item)
  {
    var h := IndexIn(ix, item);
    if h <= 1 || KeyAt(ks, key, sl[h / 2]) <= KeyAt(ks, key, item) {
      assert ix[item := h] == ix;
      UpStop(ks, key, ix0, sl0, n, ix, sl, item, h, k, ready);
    } else {
      var p := sl[h / 2];
      UpAdvance(ks, key, ix0, sl0, n, ix, sl, item, h, p, k, ready);
      SiftUpFrom(ks, key, ix0, sl0, n, ix[p := h][item := h / 2], sl[h := p], item, HeapOrder.Swap(k, h, h / 2), ready);
    }
  }

  lemma {:induction false} SiftDownFrom<T>(ks: seq<T>, key: T -> real, ix0: map<int, int>, sl0: seq<int>, n: int,
                                        ix: map<int, int>, sl: seq<int>, item: int, h: int, rightOnTie: bool,
                                        k: seq<real>, ready: bool)
    requires Sifting(ix0, sl0, n, |ks|, ix, sl, item, h) && InQueueOn(ix0, sl0, n, item)
    requires Keyed(ks, key, sl[h := item], k)
    requires ready ==> HeapOrder.OrderedExceptDown(k, n, h)
    ensures Sifted(ks, key, ix0, sl0, n, SiftDown(ks, key, ix, sl, n, item, h, rightOnTie), ready)
    decreases n - h
  {
    if 2 * h > n {
      DownStop(ks, key, ix0, sl0, n, ix, sl, item, h, k, ready);
    } else {
      var c := SmallerChild(ks, key, sl, n, h, rightOnTie);
      if KeyAt(ks, key, item) <= KeyAt(ks, key, sl[c]) {
        DownStop(ks, key, ix0, sl0, n, ix, sl, item, h, k, ready);
      } else {
        DownAdvance(ks, key, ix0, sl0, n, ix, sl, item, h, c, sl[c], k, ready);
        SiftDownFrom(ks, key, ix0, sl0, n, ix[sl[c] := h], sl[h := sl[c]], item, c, rightOnTie, HeapOrder.Swap(k, h, c), ready);
      }
    }
  }

  /**
   * `CascadeUp` on a well-formed queue keeps it well-formed with the same
   * members, and restores heap order when only the item's position broke it.
   */
  lemma SiftUpKeeps<T>(ks: seq<T>, key: T -> real, ix: map<int, int>, sl: seq<int>, n: int, item: int)
    requires WellFormed(ix, sl, n, |ks|) && 0 <= item < |ks| && InQueueOn(ix, sl, n, item)
    ensures Sifted(ks, key, ix, sl, n, SiftUp(ks, key, ix, sl, n, item), UpReadyOn(ks, key, sl, n, IndexIn(ix, item)))
  {
    SiftStart(ix, sl, n, |ks|, item);
    assert sl[IndexIn(ix, item) := item] == sl;
    KeyedReady(ks, key, sl, n, IndexIn(ix, item), KeysOf(ks, key, sl));
    SiftUpFrom(ks, key, ix, sl, n, ix, sl, item, KeysOf(ks, key, sl), UpReadyOn(ks, key, sl, n, IndexIn(ix, item)));
  }

  /**
   * `CascadeDown` on a well-formed queue keeps it well-formed with the same
   * members, and restores heap order when only the item's position broke it.
   */
  lemma SiftDownKeeps<T>(ks: seq<T>, key: T -> real, ix: map<int, int>, sl: seq<int>, n: int, item: int, rightOnTie: bool)
    requires WellFormed(ix, sl, n, |ks|) && 0 <= item < |ks| && InQueueOn(ix, sl, n, item)
    ensures Sifted(ks, key, ix, sl, n, SiftDown(ks, key, ix, sl, n, item, IndexIn(ix, item), rightOnTie),
                   DownReadyOn(ks, key, sl, n, IndexIn(ix, item)))
  {
    SiftStart(ix, sl, n, |ks|, item);
    assert sl[IndexIn(ix, item) := item] == sl;
    KeyedReady(ks, key, sl, n, IndexIn(ix, item), KeysOf(ks, key, sl));
    SiftDownFrom(ks, key, ix, sl, n, ix, sl, item, IndexIn(ix, item), rightOnTie, KeysOf(ks, key, sl),
                 DownReadyOn(ks, key, sl, n, IndexIn(ix, item)));
  }

  // The whole operations, as functions of the queue before them.

  /**
   * `Enqueue` into a list with room at position n + 1: the item takes that
   * position and is sifted up.
   */
  ghost function EnqueueLinks<T>(ks: seq<T>, key: T -> real, ix: map<int, int>, sl: seq<int>, n: int, item: int)
    : (r: QueueLinks)
    requires 0 <= n && n + 1 < |sl|
    ensures |r.1| == |sl|
  {
    SiftUp(ks, key, ix[item := n + 1], sl[n + 1 := item], n + 1, item)
  }

  /**
   * Enqueueing an item that is not in the queue, with its new key in `ks`
   * (`ks0` before): a well-formed queue with one more member, heap-ordered
   * if the queue was.
   */
  lemma EnqueueKeeps<T>(ks0: seq<T>, ks: seq<T>, key: T -> real, ix: map<int, int>, sl: seq<int>, n: int, item: int)
    requires WellFormed(ix, sl, n, |ks0|) && n + 1 < |sl| && 0 <= item < |ks0| && !InQueueOn(ix, sl, n, item)
    requires |ks| == |ks0| && forall c :: 0 <= c < |ks0| && c != item ==> ks[c] == ks0[c]
    ensures WellFormed(EnqueueLinks(ks, key, ix, sl, n, item).0, EnqueueLinks(ks, key, ix, sl, n, item).1, n + 1, |ks|)
    ensures forall c :: InQueueOn(EnqueueLinks(ks, key, ix, sl, n, item).0, EnqueueLinks(ks, key, ix, sl, n, item).1, n + 1, c)
                        <==> InQueueOn(ix, sl, n, c) || c == item
    ensures HeapOrderedOn(ks0, key, sl, n) ==> HeapOrderedOn(ks, key, EnqueueLinks(ks, key, ix, sl, n, item).1, n + 1)
  {
    var ix1, sl1 := ix[item := n + 1], sl[n + 1 := item];
    EnqueuePlaced(ix, sl, n, |ks|, item);
    if HeapOrderedOn(ks0, key, sl, n) {
      EnqueueReady(ks0, key, ix, sl, n, item, ks, sl1);
    }
    SiftUpKeeps(ks, key, ix1, sl1, n + 1, item);
  }

  /**
   * `Dequeue` from a non-empty queue: the only entry is cleared, or the last
   * entry is moved to the root, its old position cleared, and it is sifted
   * down.
   */
  ghost function DequeueLinks<T>(ks: seq<T>, key: T -> real, ix: map<int, int>, sl: seq<int>, n: int, rightOnTie: bool)
    : (r: QueueLinks)
    requires 1 <= n < |sl|
    ensures |r.1| == |sl|
  {
    if n == 1 then (ix, sl[1 := Null])
    else SiftDown(ks, key, ix[sl[n] := 1], sl[1 := sl[n]][n := Null], n - 1, sl[n], 1, rightOnTie)
  }

  /**
   * Dequeueing from a non-empty queue: a well-formed queue without the old
   * root and with its old last position cleared. If the queue was
   * heap-ordered, the old root had a smallest key and the queue stays
   * heap-ordered.
   */
  lemma DequeueKeeps<T>(ks: seq<T>, key: T -> real, ix: map<int, int>, sl: seq<int>, n: int, rightOnTie: bool)
    requires WellFormed(ix, sl, n, |ks|) && n >= 1
    ensures WellFormed(DequeueLinks(ks, key, ix, sl, n, rightOnTie).0, DequeueLinks(ks, key, ix, sl, n, rightOnTie).1, n - 1, |ks|)
    ensures DequeueLinks(ks, key, ix, sl, n, rightOnTie).1[n] == Null
    ensures InQueueOn(ix, sl, n, sl[1])
    ensures forall c :: 0 <= c ==>
              (InQueueOn(DequeueLinks(ks, key, ix, sl, n, rightOnTie).0, DequeueLinks(ks, key, ix, sl, n, rightOnTie).1, n - 1, c)
               <==> InQueueOn(ix, sl, n, c) && c != sl[1])
    ensures HeapOrderedOn(ks, key, sl, n) ==>
              HeapOrderedOn(ks, key, DequeueLinks(ks, key, ix, sl, n, rightOnTie).1, n - 1) &&
              forall c :: 0 <= c < |ks| && InQueueOn(ix, sl, n, c) ==> key(ks[sl[1]]) <= key(ks[c])
  {
    if HeapOrderedOn(ks, key, sl, n) {
      RootIsMinimal(ks, key, ix, sl, n);
    }
    if n >= 2 {
      DequeueSifted(ks, key, ix, sl, n, rightOnTie);
    }
  }

  /** `DequeueKeeps` when a last node moves to the root and is sifted down. */
  lemma DequeueSifted<T>(ks: seq<T>, key: T -> real, ix: map<int, int>, sl: seq<int>, n: int, rightOnTie: bool)
    requires WellFormed(ix, sl, n, |ks|) && n >= 2
    ensures var r := DequeueLinks(ks, key, ix, sl, n, rightOnTie);
            WellFormed(r.0, r.1, n - 1, |ks|) && r.1[n] == Null &&
            (forall c :: 0 <= c ==> (InQueueOn(r.0, r.1, n - 1, c) <==> InQueueOn(ix, sl, n, c) && c != sl[1])) &&
            (HeapOrderedOn(ks, key, sl, n) ==> HeapOrderedOn(ks, key, r.1, n - 1))
  {
    var ix1, sl1 := ix[sl[n] := 1], sl[1 := sl[n]][n := Null];
    DequeueMoved(ix, sl, n, |ks|, ix1, sl1);
    if HeapOrderedOn(ks, key, sl, n) {
      DequeueReady(ks, key, sl, n, sl1);
    }
    SiftDownKeeps(ks, key, ix1, sl1, n - 1, sl[n], rightOnTie);
  }

  /**
   * `UpdatePriority` of a member: sifted up when its new key is below its
   * parent's, and down otherwise (`OnItemUpdated`).
   */
  ghost function UpdateLinks<T>(ks: seq<T>, key: T -> real, ix: map<int, int>, sl: seq<int>, n: int, item: int,
                                rightOnTie: bool): (r: QueueLinks)
    requires 1 <= IndexIn(ix, item) <= n < |sl|
    ensures |r.1| == |sl|
  {
    var h := IndexIn(ix, item);
    if h / 2 > 0 && KeyAt(ks, key, item) < KeyAt(ks, key, sl[h / 2]) then SiftUp(ks, key, ix, sl, n, item)
    else SiftDown(ks, key, ix, sl, n, item, h, rightOnTie)
  }

  /**
   * Updating the key of a member (`ks0` before, `ks` after): a well-formed
   * queue with the same members, heap-ordered if the queue was.
   */
  lemma UpdateKeeps<T>(ks0: seq<T>, ks: seq<T>, key: T -> real, ix: map<int, int>, sl: seq<int>, n: int, item: int,
                       rightOnTie: bool)
    requires WellFormed(ix, sl, n, |ks0|) && 0 <= item < |ks0| && InQueueOn(ix, sl, n, item)
    requires |ks| == |ks0| && forall c :: 0 <= c < |ks0| && c != item ==> ks[c] == ks0[c]
    ensures Sifted(ks, key, ix, sl, n, UpdateLinks(ks, key, ix, sl, n, item, rightOnTie), HeapOrderedOn(ks0, key, sl, n))
  {
    var h := IndexIn(ix, item);
    var k0, k := KeysOf(ks0, key, sl), KeysOf(ks, key, sl);
    if HeapOrderedOn(ks0, key, sl, n) {
      KeyedOrdered(ks0, key, sl, n, k0);
      HeapOrder.UpdateStart(k0, n, h, k[h]);
      assert k == k0[h := k[h]] by {
        forall i | 0 <= i < |sl| && i != h ensures k[i] == k0[i] {
          assert sl[i] != item by {
            if 1 <= i <= n { assert IndexIn(ix, sl[i]) == i; }
          }
        }
      }
      KeyedReady(ks, key, sl, n, h, k);
    }
    if h / 2 > 0 && KeyAt(ks, key, item) < KeyAt(ks, key, sl[h / 2]) {
      SiftUpKeeps(ks, key, ix, sl, n, item);
    } else {
      SiftDownKeeps(ks, key, ix, sl, n, item, rightOnTie);
    }
  }
}
