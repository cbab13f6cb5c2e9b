/**
 * Heap order on a 1-indexed array of keys, shared by the three priority
 * queues. Position i has parent i/2 (`QueueIndex >> 1`) and children 2i and
 * 2i + 1; the entries live in positions 1..n.
 *
 * The two "except" predicates describe the heap while an item is being
 * sifted: position h holds the moving item, and only the pairs that touch
 * h may be out of order.
 */
module HeapOrder {
  ghost predicate Ordered(k: seq<real>, n: int)
    requires n < |k|
  {
    forall i :: 2 <= i <= n ==> k[i / 2] <= k[i]
  }

  /** Sift-up state: only the pair (h/2, h) may be out of order, and h's parent is below h's children. */
  ghost predicate OrderedExceptUp(k: seq<real>, n: int, h: int)
    requires n < |k| && 1 <= h <= n
  {
    (forall i :: 2 <= i <= n && i != h ==> k[i / 2] <= k[i]) &&
    (h > 1 ==> forall i :: 2 <= i <= n && i / 2 == h ==> k[h / 2] <= k[i])
  }

  /** Sift-down state: only the pairs (h, child of h) may be out of order, and h's parent is below h's children. */
  ghost predicate OrderedExceptDown(k: seq<real>, n: int, h: int)
    requires n < |k| && 1 <= h <= n
  {
    (forall i :: 2 <= i <= n && i / 2 != h ==> k[i / 2] <= k[i]) &&
    (h > 1 ==> forall i :: 2 <= i <= n && i / 2 == h ==> k[h / 2] <= k[i])
  }

  function Swap<T>(s: seq<T>, i: int, j: int): (r: seq<T>)
    requires 0 <= i < |s| && 0 <= j < |s|
    ensures |r| == |s| && r[i] == s[j] && r[j] == s[i]
    ensures forall p :: 0 <= p < |s| && p != i && p != j ==> r[p] == s[p]
  {
    s[i := s[j]][j := s[i]]
  }

  lemma SwapMultiset<T>(s: seq<T>, i: int, j: int)
    requires 0 <= i < |s| && 0 <= j < |s|
    ensures multiset(Swap(s, i, j)) == multiset(s)
  {
  }

  /** The root of an ordered heap holds a smallest key. */
  lemma RootIsMin(k: seq<real>, n: int)
    requires n < |k| && Ordered(k, n)
    ensures forall i :: 1 <= i <= n ==> k[1] <= k[i]
  {
    forall i | 1 <= i <= n ensures k[1] <= k[i] {
      AncestorBelow(k, n, i);
    }
  }

  lemma {:induction false} AncestorBelow(k: seq<real>, n: int, i: int)
    requires n < |k| && Ordered(k, n) && 1 <= i <= n
    ensures k[1] <= k[i]
    decreases i
  {
    if i > 1 {
      AncestorBelow(k, n, i / 2);
    }
  }

  /** A fresh leaf appended to an ordered heap is a valid sift-up start. */
  lemma UpStart(k: seq<real>, k': seq<real>, n: int)
    requires n < |k| && n + 1 < |k'| && n >= 0 && Ordered(k, n)
    requires forall i :: 1 <= i <= n ==> k'[i] == k[i]
    ensures OrderedExceptUp(k', n + 1, n + 1)
  {
  }

  /** One sift-up step: the item at h swaps with its larger parent. */
  lemma {:induction false} UpStep(k: seq<real>, n: int, h: int)
    requires n < |k| && 2 <= h <= n && OrderedExceptUp(k, n, h)
    requires k[h] < k[h / 2]
    ensures OrderedExceptUp(Swap(k, h, h / 2), n, h / 2)
  {
    var p := h / 2;
    var k' := Swap(k, h, p);
    forall i | 2 <= i <= n && i != p ensures k'[i / 2] <= k'[i] {
      if i == h {
      } else if i / 2 == h {
        assert k'[i] == k[i];
      } else if i / 2 == p {
        assert k'[i] == k[i] && k[p] <= k[i];
      } else {
        assert k'[i] == k[i] && k'[i / 2] == k[i / 2];
      }
    }
    if p > 1 {
      forall i | 2 <= i <= n && i / 2 == p ensures k'[p / 2] <= k'[i] {
        assert k[p / 2] <= k[p];
        if i != h {
          assert k'[i] == k[i] && k[p] <= k[i];
        }
      }
    }
  }

  lemma UpDone(k: seq<real>, n: int, h: int)
    requires n < |k| && 1 <= h <= n && OrderedExceptUp(k, n, h)
    requires h == 1 || k[h / 2] <= k[h]
    ensures Ordered(k, n)
  {
  }

  /** Replacing the root of an ordered heap (and dropping entries past m) is a valid sift-down start. */
  lemma DownStart(k: seq<real>, k': seq<real>, n: int, m: int)
    requires n < |k| && 1 <= m <= n && m < |k'| && Ordered(k, n)
    requires forall i :: 2 <= i <= m ==> k'[i] == k[i]
    ensures OrderedExceptDown(k', m, 1)
  {
    forall i | 2 <= i <= m && i / 2 != 1 ensures k'[i / 2] <= k'[i] {
      assert k'[i / 2] == k[i / 2];
    }
  }

  /** One sift-down step: the item at h swaps with its smaller child c. */
  lemma {:induction false} DownStep(k: seq<real>, n: int, h: int, c: int)
    requires n < |k| && 1 <= h && (c == 2 * h || c == 2 * h + 1) && c <= n && OrderedExceptDown(k, n, h)
    requires k[c] <= k[2 * h] && (2 * h + 1 <= n ==> k[c] <= k[2 * h + 1])
    requires k[c] < k[h]
    ensures OrderedExceptDown(Swap(k, h, c), n, c)
  {
    var k' := Swap(k, h, c);
    assert c / 2 == h;
    forall i | 2 <= i <= n && i / 2 != c ensures k'[i / 2] <= k'[i] {
      if i == c {
      } else if i / 2 == h {
        assert i == 2 * h || i == 2 * h + 1;
        assert k'[i] == k[i];
      } else if i == h {
        assert k'[i / 2] == k[i / 2];
      } else {
        assert k'[i] == k[i] && k'[i / 2] == k[i / 2];
      }
    }
    forall i | 2 <= i <= n && i / 2 == c ensures k'[c / 2] <= k'[i] {
      assert k'[i] == k[i];
    }
  }

  /** The sift-down stops: the item is no larger than its children, or it has none. */
  lemma DownDone(k: seq<real>, n: int, h: int)
    requires n < |k| && 1 <= h <= n && OrderedExceptDown(k, n, h)
    requires 2 * h <= n ==> k[h] <= k[2 * h]
    requires 2 * h + 1 <= n ==> k[h] <= k[2 * h + 1]
    ensures Ordered(k, n)
  {
    forall i | 2 <= i <= n && i / 2 == h ensures k[i / 2] <= k[i] {
      assert i == 2 * h || i == 2 * h + 1;
    }
  }

  /** An ordered heap is a valid start for both sifts of an entry whose key changed. */
  lemma UpdateStart(k: seq<real>, n: int, h: int, v: real)
    requires n < |k| && 1 <= h <= n && Ordered(k, n)
    ensures v <= k[h] ==> OrderedExceptUp(k[h := v], n, h)
    ensures (h == 1 || k[h / 2] <= v) ==> OrderedExceptDown(k[h := v], n, h)
  {
    var k' := k[h := v];
    if v <= k[h] {
      forall i | 2 <= i <= n && i != h ensures k'[i / 2] <= k'[i] {
        if i / 2 == h {
          assert k[h] <= k[i];
        }
      }
      if h > 1 {
        forall i | 2 <= i <= n && i / 2 == h ensures k'[h / 2] <= k'[i] {
          assert k[h / 2] <= k[h] <= k[i];
        }
      }
    }
    if h == 1 || k[h / 2] <= v {
      if h > 1 {
        forall i | 2 <= i <= n && i / 2 == h ensures k'[h / 2] <= k'[i] {
          assert k[h / 2] <= k[h] <= k[i];
        }
      }
    }
  }
}
