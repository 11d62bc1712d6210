/**
 The timer heap as the worker uses it refines the set of timers of the transition system: each
 step that touches the set is realised by a call on the heap, which stays in heap order with
 every item at the position it knows.
 */
module TimerHeap {
  import opened Aggregator
  import opened DeadlineHeap
  import Sorting

  /** Only these two kinds of steps touch the timers. */
  lemma HeapUntouched(c: Config, s: State, e: Event)
    requires Enabled(c, s, e) && !e.PopExpired?
    requires e.PushTimer? ==> s.pool[s.handler.b].timer.Some?
    ensures Next(c, s, e).heap == s.heap
  {
  }

  ghost predicate StandsFor(x: HeapItem, t: Timer) {
    x.batch == t.batch && x.deadline == t.deadline
  }

  /** The items stand, one for one, for the timers. */
  ghost predicate OneForOne(timers: map<HeapItem, Timer>, items: set<HeapItem>, live: set<Timer>) {
    && timers.Keys == items && timers.Values == live
    && (forall x :: x in timers ==> StandsFor(x, timers[x]))
    && (forall x, y :: x in timers && y in timers && timers[x] == timers[y] ==> x == y)
  }

  lemma OneMore(timers: map<HeapItem, Timer>, items: set<HeapItem>, live: set<Timer>, x: HeapItem, t: Timer)
    requires OneForOne(timers, items, live) && x !in items && t !in live && StandsFor(x, t)
    ensures OneForOne(timers[x := t], items + {x}, live + {t})
  {
    var more := timers[x := t];
    assert forall y :: y in timers ==> timers[y] in timers.Values;
    assert more[x] in more.Values;
    forall y | y in live
      ensures y in more.Values
    {
      var z: HeapItem :| z in timers && timers[z] == y;
      assert more[z] == y;
    }
  }

  /** Parting a list without repetitions parts its members. */
  lemma Parted(all: seq<HeapItem>, rest: seq<HeapItem>, gone: seq<HeapItem>)
    requires Sorting.NoDuplicates(all) && multiset(all) == multiset(rest) + multiset(gone)
    ensures Sorting.NoDuplicates(gone) && (forall x :: x in all <==> x in rest || x in gone)
    ensures forall x :: x in gone ==> x !in rest
  {
    var both := rest + gone;
    assert multiset(both) == multiset(rest) + multiset(gone);
    Sorting.PermutationMembers(all, both);
    Sorting.PermutationDistinct(all, both);
    forall i, j | 0 <= i < j < |gone|
      ensures gone[i] != gone[j]
    {
      assert both[|rest| + i] == gone[i] && both[|rest| + j] == gone[j];
    }
    forall x | x in gone
      ensures x !in rest
    {
      var j :| 0 <= j < |gone| && gone[j] == x;
      assert both[|rest| + j] == x;
      assert forall i :: 0 <= i < |rest| ==> both[i] == rest[i];
    }
  }

  ghost function TimersOf(timers: map<HeapItem, Timer>, items: seq<HeapItem>): (due: seq<Timer>)
    requires forall x :: x in items ==> x in timers
    ensures |due| == |items| && forall i :: 0 <= i < |due| ==> due[i] == timers[items[i]]
  {
    seq(|items|, i requires 0 <= i < |items| => assert items[i] in items; timers[items[i]])
  }

  /** The timers of the items that left are those that are due. */
  lemma DueTimers(timers: map<HeapItem, Timer>, items: set<HeapItem>, live: set<Timer>, rest: seq<HeapItem>,
                  gone: seq<HeapItem>, now: int)
    requires OneForOne(timers, items, live) && Sorting.NoDuplicates(gone)
    requires (forall x :: x in items <==> x in rest || x in gone) && (forall x :: x in gone ==> x !in rest)
    requires (forall x :: x in gone ==> x.deadline <= now) && (forall x :: x in rest ==> x.deadline > now)
    ensures var due := TimersOf(timers, gone);
            && Distinct(due) && Elements(due) == set t | t in live && t.deadline <= now
  {
    var due := TimersOf(timers, gone);
    forall t | t in live && t.deadline <= now
      ensures t in due
    {
      var x: HeapItem :| x in timers && timers[x] == t;
      assert x in gone;
      var i :| 0 <= i < |gone| && gone[i] == x;
      assert due[i] == t;
    }
    forall t | t in due
      ensures t in live && t.deadline <= now
    {
      var i :| 0 <= i < |due| && due[i] == t;
      assert gone[i] in gone && timers[gone[i]] in timers.Values;
    }
  }

  /** The items left stand for the timers left. */
  lemma LeftTimers(timers: map<HeapItem, Timer>, items: set<HeapItem>, live: set<Timer>, rest: seq<HeapItem>,
                   gone: seq<HeapItem>)
    requires OneForOne(timers, items, live)
    requires (forall x :: x in items <==> x in rest || x in gone) && (forall x :: x in gone ==> x !in rest)
    ensures var left := map x: HeapItem | x in timers && x in rest :: timers[x];
            OneForOne(left, (set x | x in rest), live - Elements(TimersOf(timers, gone)))
  {
    var left := map x: HeapItem | x in timers && x in rest :: timers[x];
    var due := TimersOf(timers, gone);
    forall t | t in live - Elements(due)
      ensures t in left.Values
    {
      var x: HeapItem :| x in timers && timers[x] == t;
      assert left[x] == t;
    }
    forall t | t in left.Values
      ensures t in live && t !in due
    {
      var x: HeapItem :| x in left && left[x] == t;
      assert timers[x] in timers.Values;
    }
  }

  class WorkerTimers {
    const heap: MinHeap
    /** Which timer an item of the heap stands for. */
    ghost var timers: map<HeapItem, Timer>

    /** The heap is in order and realises the timers of the state. */
    ghost predicate Realises(s: State)
      reads this, heap, heap.h
    {
      heap.Valid() && OneForOne(timers, heap.Items(), s.heap)
    }

    constructor ()
      ensures Realises(INIT) && fresh(heap)
    {
      heap := new MinHeap();
      timers := map[];
    }

    /** A new timer for the batch that the handler holds. */
    method StartTimer(ghost c: Config, ghost s: State, batch: nat, deadline: int)
      requires Realises(s) && TimersOk(c, s) && Enabled(c, s, PushTimer) && s.pool[s.handler.b].timer.None?
      requires batch == s.handler.b && deadline == s.clock + c.timeout
      modifies this`timers, heap, heap.Items()
      ensures Realises(Next(c, s, PushTimer))
    {
      ghost var t := Timer(s.serial, batch, s.clock, deadline);
      assert t !in s.heap by {
        assert t in s.heap ==> Live(s, t);
      }
      var item := new HeapItem(batch, deadline);
      OneMore(timers, heap.Items(), s.heap, item, t);
      timers := timers[item := t];
      heap.Push(item);
    }

    /** The check of the timers: what leaves the heap is what an event of the transition system takes. */
    method CheckTimeout(ghost c: Config, ghost s: State, now: int)
      returns (expired: seq<HeapItem>, ghost due: seq<Timer>)
      requires Realises(s) && s.expired == [] && now <= s.clock
      modifies this`timers, heap, heap.Items()
      ensures Enabled(c, s, PopExpired(now, due)) && Realises(Next(c, s, PopExpired(now, due)))
      ensures |due| == |expired| && forall i :: 0 <= i < |due| ==> StandsFor(expired[i], due[i])
      ensures forall i, j :: 0 <= i < j < |due| ==> due[i].deadline <= due[j].deadline
    {
      ghost var before, all := timers, heap.h;
      assert Sorting.NoDuplicates(all);
      expired := heap.PopExpired(now);
      Parted(all, heap.h, expired);
      due := TimersOf(before, expired);
      DueTimers(before, (set x | x in all), s.heap, heap.h, expired, now);
      LeftTimers(before, (set x | x in all), s.heap, heap.h, expired);
      timers := map x: HeapItem | x in before && x in heap.h :: before[x];
      assert forall i :: 0 <= i < |expired| ==> expired[i] in expired;
    }
  }
}
