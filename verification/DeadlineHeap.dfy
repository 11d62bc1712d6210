/**
 The timer heap of an aggregation worker: a binary min-heap of batch deadlines whose items
 know their own position. Swap, Push and Pop are the worker's; sifting follows the
 standard heap scheme that drives them.
 */
module DeadlineHeap {
  import Sorting

  class HeapItem {
    const batch: nat
    const deadline: int
    var index: int

    constructor (batch: nat, deadline: int)
      ensures this.batch == batch && this.deadline == deadline
    {
      this.batch, this.deadline, index := batch, deadline, 0;
    }
  }

  /** The item at k is not due before its parent. */
  ghost predicate OrderedAt(h: seq<HeapItem>, k: int)
    requires 0 <= k < |h|
  {
    k > 0 ==> h[(k - 1) / 2].deadline <= h[k].deadline
  }

  ghost predicate HeapOrdered(h: seq<HeapItem>, n: int)
    requires n <= |h|
  {
    forall k :: 0 <= k < n ==> OrderedAt(h, k)
  }

  lemma {:induction false} RootIsEarliest(h: seq<HeapItem>, k: nat)
    requires k < |h| && HeapOrdered(h, |h|)
    ensures h[0].deadline <= h[k].deadline
  {
    if k > 0 {
      RootIsEarliest(h, (k - 1) / 2);
      assert OrderedAt(h, k);
    }
  }

  lemma Earliest(h: seq<HeapItem>)
    requires |h| > 0 && HeapOrdered(h, |h|)
    ensures forall x :: x in h ==> h[0].deadline <= x.deadline
  {
    forall k | 0 <= k < |h|
      ensures h[0].deadline <= h[k].deadline
    {
      RootIsEarliest(h, k);
    }
  }

  /** Exchanging root and last item disturbs the order only below the root. */
  lemma RootExchanged(before: seq<HeapItem>, h: seq<HeapItem>, n: nat)
    requires |before| == n + 1 && HeapOrdered(before, n + 1) && h == before[0 := before[n]][n := before[0]]
    ensures forall k :: 0 <= k < n && (k - 1) / 2 != 0 ==> OrderedAt(h, k)
  {
    forall k | 0 <= k < n && (k - 1) / 2 != 0
      ensures OrderedAt(h, k)
    {
      assert OrderedAt(before, k);
    }
  }

  lemma PrefixOrdered(h: seq<HeapItem>, n: nat)
    requires n <= |h| && HeapOrdered(h, n)
    ensures HeapOrdered(h[..n], n)
  {
    forall k | 0 <= k < n
      ensures OrderedAt(h[..n], k)
    {
      assert OrderedAt(h, k);
    }
  }

  class MinHeap {
    var h: seq<HeapItem>

    ghost function Items(): set<HeapItem>
      reads this
    {
      set x | x in h
    }

    /** Every item knows its position; in particular no item occurs twice. */
    ghost predicate Indexed()
      reads this, h
    {
      forall i :: 0 <= i < |h| ==> h[i].index == i
    }

    ghost predicate Valid()
      reads this, h
    {
      Indexed() && HeapOrdered(h, |h|)
    }

    constructor ()
      ensures Valid() && h == []
    {
      h := [];
    }

    method Swap(i: nat, j: nat)
      requires Indexed() && i < |h| && j < |h|
      modifies this, Items()
      ensures Indexed() && h == old(h)[i := old(h)[j]][j := old(h)[i]]
      ensures multiset(h) == multiset(old(h)) && Items() == old(Items())
    {
      h := h[i := h[j]][j := h[i]];
      h[i].index := i;
      h[j].index := j;
      Sorting.PermutationMembers(h, old(h));
    }

    method PushLast(item: HeapItem)
      requires Indexed() && item !in h
      modifies this, item
      ensures Indexed() && h == old(h) + [item]
    {
      item.index := |h|;
      h := h + [item];
    }

    method PopLast() returns (item: HeapItem)
      requires Indexed() && |h| > 0
      modifies this, Items()
      ensures h == old(h)[..|old(h)| - 1] && item == old(h)[|old(h)| - 1] && Indexed()
      ensures item.index == -1 && item !in h && Items() == old(Items()) - {item}
      ensures multiset(old(h)) == multiset(h) + multiset{item}
    {
      var n := |h| - 1;
      item := h[n];
      assert h == h[..n] + [item];
      Sorting.SnocMembers(h[..n], item);
      h := h[..n];
      item.index := -1;
    }

    /** Order restored everywhere but at j, and around j. */
    ghost predicate Rising(j: int)
      reads this
    {
      && 0 <= j < |h|
      && (forall k :: 0 <= k < |h| && k != j ==> OrderedAt(h, k))
      && (forall k :: 0 < k < |h| && (k - 1) / 2 == j && j > 0 ==> h[(j - 1) / 2].deadline <= h[k].deadline)
    }

    lemma RiseStep(before: seq<HeapItem>, j: nat)
      requires 0 < j < |before| == |h| && h == before[(j - 1) / 2 := before[j]][j := before[(j - 1) / 2]]
      requires before[j].deadline < before[(j - 1) / 2].deadline
      requires forall k :: 0 <= k < |before| && k != j ==> OrderedAt(before, k)
      requires forall k :: 0 < k < |before| && (k - 1) / 2 == j ==> before[(j - 1) / 2].deadline <= before[k].deadline
      ensures Rising((j - 1) / 2)
    {
      var i := (j - 1) / 2;
      assert OrderedAt(before, i);
      forall k | 0 <= k < |h| && k != i
        ensures OrderedAt(h, k)
      {
        assert k != j ==> OrderedAt(before, k);
      }
      forall k | 0 < k < |h| && (k - 1) / 2 == i && i > 0
        ensures h[(i - 1) / 2].deadline <= h[k].deadline
      {
        assert k != j ==> OrderedAt(before, k);
      }
    }

    method Up(j0: nat)
      requires Indexed() && Rising(j0)
      modifies this, Items()
      ensures Valid() && multiset(h) == multiset(old(h)) && Items() == old(Items())
    {
      var j := j0;
      while true
        invariant 0 <= j < |h| && Indexed() && Rising(j)
        invariant multiset(h) == multiset(old(h))
        invariant Items() == old(Items())
        decreases j
      {
        var i := (j - 1) / 2;
        if j == 0 || h[i].deadline <= h[j].deadline {
          break;
        }
        ghost var before := h;
        Swap(i, j);
        RiseStep(before, j);
        j := i;
      }
    }
  
    /** Order among the first n items but below i, and around i. */
    ghost predicate Sinking(i: int, n: int)
      reads this
    {
      && 0 <= i && 0 <= n <= |h|
      && (forall k :: 0 <= k < n && (k - 1) / 2 != i ==> OrderedAt(h, k))
      && (forall k :: 0 < k < n && (k - 1) / 2 == i && i > 0 ==> h[(i - 1) / 2].deadline <= h[k].deadline)
    }

    lemma SinkStep(before: seq<HeapItem>, i: nat, j: nat, n: nat)
      requires 0 < j < n <= |before| == |h| && (j - 1) / 2 == i && h == before[i := before[j]][j := before[i]]
      requires before[j].deadline < before[i].deadline
      requires forall k :: 0 < k < n && (k - 1) / 2 == i ==> before[j].deadline <= before[k].deadline
      requires forall k :: 0 <= k < n && (k - 1) / 2 != i ==> OrderedAt(before, k)
      requires forall k :: 0 < k < n && (k - 1) / 2 == i && i > 0 ==> before[(i - 1) / 2].deadline <= before[k].deadline
      ensures Sinking(j, n)
    {
      forall k | 0 <= k < n && (k - 1) / 2 != j
        ensures OrderedAt(h, k)
      {
        assert (k - 1) / 2 != i ==> OrderedAt(before, k);
      }
      forall k | 0 < k < n && (k - 1) / 2 == j
        ensures h[(j - 1) / 2].deadline <= h[k].deadline
      {
        assert OrderedAt(before, k);
      }
    }

    /** The earlier child of i among the first n items. */
    method EarlierChild(i: nat, n: nat) returns (j: nat)
      requires 2 * i + 1 < n <= |h|
      ensures 0 < j < n && (j - 1) / 2 == i
      ensures forall k :: 0 < k < n && (k - 1) / 2 == i ==> h[j].deadline <= h[k].deadline
    {
      j := 2 * i + 1;
      if j + 1 < n && h[j + 1].deadline < h[j].deadline {
        j := j + 1;
      }
      forall k | 0 < k < n && (k - 1) / 2 == i
        ensures h[j].deadline <= h[k].deadline
      {
        assert k == 2 * i + 1 || k == 2 * i + 2;
      }
    }

    method Down(i0: nat, n: nat)
      requires Indexed() && Sinking(i0, n)
      modifies this, Items()
      ensures Indexed() && |h| == |old(h)| && HeapOrdered(h, n) && h[n..] == old(h)[n..]
      ensures multiset(h) == multiset(old(h)) && Items() == old(Items())
    {
      var i := i0;
      while 2 * i + 1 < n
        invariant Indexed() && Sinking(i, n) && |h| == |old(h)| && h[n..] == old(h)[n..]
        invariant multiset(h) == multiset(old(h)) && Items() == old(Items())
        decreases n - i
      {
        var j := EarlierChild(i, n);
        if h[i].deadline <= h[j].deadline {
          break;
        }
        ghost var before := h;
        Swap(i, j);
        SinkStep(before, i, j, n);
        i := j;
      }
    }

    /** heap.Push */
    method Push(item: HeapItem)
      requires Valid() && item !in h
      modifies this, Items(), item
      ensures Valid() && multiset(h) == multiset(old(h)) + multiset{item}
      ensures Items() == old(Items()) + {item}
    {
      PushLast(item);
      assert Items() == old(Items()) + {item};
      forall k | 0 <= k < |h| - 1
        ensures OrderedAt(h, k)
      {
        assert OrderedAt(old(h), k);
      }
      Up(|h| - 1);
    }

    /** heap.Pop: an item with the earliest deadline leaves. */
    method Pop() returns (item: HeapItem)
      requires Valid() && |h| > 0
      modifies this, Items()
      ensures Valid() && multiset(old(h)) == multiset(h) + multiset{item}
      ensures item.index == -1 && item in old(h) && item !in h
      ensures Items() == old(Items()) - {item}
      ensures forall x :: x in old(h) ==> item.deadline <= x.deadline
    {
      Earliest(h);
      var n := |h| - 1;
      Swap(0, n);
      RootExchanged(old(h), h, n);
      Down(0, n);
      PrefixOrdered(h, n);
      assert h[n] == h[n..][0] == old(h)[0];
      item := PopLast();
    }

    /** The loop under the worker lock: exactly the items that are due leave, earliest first. */
    method PopExpired(now: int) returns (expired: seq<HeapItem>)
      requires Valid()
      modifies this, Items()
      ensures Valid() && multiset(old(h)) == multiset(h) + multiset(expired)
      ensures forall x :: x in expired ==> x.deadline <= now
      ensures forall x :: x in h ==> x.deadline > now
      ensures forall i, j :: 0 <= i < j < |expired| ==> expired[i].deadline <= expired[j].deadline
    {
      expired := [];
      while |h| > 0 && h[0].deadline <= now
        invariant Valid() && Items() <= old(Items())
        invariant multiset(old(h)) == multiset(h) + multiset(expired)
        invariant forall x :: x in expired ==> x.deadline <= now
        invariant forall x, y :: x in expired && y in h ==> x.deadline <= y.deadline
        invariant forall i, j :: 0 <= i < j < |expired| ==> expired[i].deadline <= expired[j].deadline
        decreases |h|
      {
        ghost var before, all := h, Items();
        var item := Pop();
        assert |multiset(before)| == |multiset(h)| + 1;
        forall x | x in h
          ensures x in before
        {
          assert x in Items() && x in all;
        }
        expired := expired + [item];
      }
      forall x | x in h
        ensures x.deadline > now
      {
        var k :| 0 <= k < |h| && h[k] == x;
        RootIsEarliest(h, k);
      }
    }
  }
}
