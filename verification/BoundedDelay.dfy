/**
 How long messages wait: everything that waits in batches at some moment has left by the end of
 any timeout check whose clock reading is a batch timeout later.
 */
module BoundedDelay {
  import opened Aggregator
  import opened MessageFlow
  import opened AggregatorRuns

  type Dues = seq<multiset<Message>>

  /** The messages owed, batch by batch, taken together. */
  ghost function Total(owed: Dues): multiset<Message> {
    if owed == [] then multiset{} else Total(owed[..|owed| - 1]) + owed[|owed| - 1]
  }

  lemma {:induction false} TotalUpdate(owed: Dues, b: nat)
    requires b < |owed|
    ensures Total(owed[b := multiset{}]) + owed[b] == Total(owed)
  {
    var n := |owed| - 1;
    if b < n {
      TotalUpdate(owed[..n], b);
      assert owed[b := multiset{}][..n] == owed[..n][b := multiset{}];
      assert Total(owed[..n][b := multiset{}]) + owed[n] + owed[b]
          == Total(owed[..n][b := multiset{}]) + owed[b] + owed[n];
    } else {
      assert owed[b := multiset{}][..n] == owed[..n];
    }
  }

  lemma {:induction false} TotalNothing(owed: Dues)
    requires forall b :: 0 <= b < |owed| ==> owed[b] == multiset{}
    ensures Total(owed) == multiset{}
  {
    if owed != [] {
      TotalNothing(owed[..|owed| - 1]);
    }
  }

  /** What batch b still owes waits in it, with this timer. */
  ghost predicate Waits(s: State, owed: multiset<Message>, t: Timer, b: nat) {
    owed != multiset{} ==>
      Live(s, t) && t.batch == b && b < |s.pool| && owed <= multiset(s.pool[b].msgs)
  }

  /** `gone` has been flushed and the rest waits, each batch with its timer. */
  ghost predicate Awaits(s: State, gone: multiset<Message>, owed: Dues, ts: seq<Timer>) {
    && |ts| == |owed| && gone <= FlushedMsgs(s.flushed)
    && (forall b :: 0 <= b < |owed| ==> Waits(s, owed[b], ts[b], b))
  }

  /** Obligations are only ever discharged. */
  ghost predicate Reduced(owed: Dues, owed': Dues) {
    |owed'| == |owed| && forall b :: 0 <= b < |owed| ==> owed'[b] != multiset{} ==> owed'[b] == owed[b]
  }

  /** A step that flushes no waiting batch, loses no timer and takes nothing out of batches. */
  lemma AwaitsQuiet(s: State, s': State, gone: multiset<Message>, owed: Dues, ts: seq<Timer>)
    requires Awaits(s, gone, owed, ts) && FlushedMsgs(s.flushed) <= FlushedMsgs(s'.flushed)
    requires (forall t :: Live(s, t) ==> Live(s', t)) && |s.pool| <= |s'.pool|
    requires forall b :: 0 <= b < |s.pool| ==> s.pool[b].msgs <= s'.pool[b].msgs
    ensures Awaits(s', gone, owed, ts)
  {
    forall b | 0 <= b < |owed|
      ensures Waits(s', owed[b], ts[b], b)
    {
      assert Waits(s, owed[b], ts[b], b);
      if owed[b] != multiset{} {
        PrefixMultiset(s.pool[b].msgs, s'.pool[b].msgs);
      }
    }
  }

  lemma PrefixMultiset<T>(a: seq<T>, b: seq<T>)
    requires a <= b
    ensures multiset(a) <= multiset(b)
  {
    assert b == a + b[|a|..];
  }

  lemma Sums<T>(a: multiset<T>, b: multiset<T>, x: multiset<T>, y: multiset<T>)
    requires a <= x && b <= y
    ensures a + b <= x + y
  {
  }

  /** A flush leaves what other batches owe waiting. */
  lemma OthersWait(c: Config, s: State, owed: multiset<Message>, t: Timer, b: nat)
    requires TimersOk(c, s) && Enabled(c, s, FlushNext) && b != s.expired[0].batch && Waits(s, owed, t, b)
    ensures Waits(FlushNextNext(s), owed, t, b)
  {
    if owed != multiset{} {
      StillLive(c, s, t, b);
    }
  }

  /** A flush discharges what its batch owes and touches no other. */
  lemma AwaitsFlush(c: Config, s: State, gone: multiset<Message>, owed: Dues, ts: seq<Timer>)
    returns (gone': multiset<Message>, owed': Dues)
    requires TimersOk(c, s) && Enabled(c, s, FlushNext) && Awaits(s, gone, owed, ts)
    ensures Awaits(FlushNextNext(s), gone', owed', ts) && gone' + Total(owed') == gone + Total(owed)
    ensures Reduced(owed, owed')
  {
    var b0 := s.expired[0].batch;
    FlushedSnoc(s.flushed, FlushOf(s.pool[b0]));
    gone', owed' := gone, owed;
    if b0 < |owed| {
      assert Waits(s, owed[b0], ts[b0], b0);
      Sums(gone, owed[b0], FlushedMsgs(s.flushed), multiset(s.pool[b0].msgs));
      gone', owed' := gone + owed[b0], owed[b0 := multiset{}];
      TotalUpdate(owed, b0);
      Moved(gone, owed[b0], Total(owed'));
    }
    forall b | 0 <= b < |owed'|
      ensures Waits(FlushNextNext(s), owed'[b], ts[b], b)
    {
      assert Waits(s, owed[b], ts[b], b);
      if b != b0 {
        OthersWait(c, s, owed[b], ts[b], b);
      }
    }
  }

  lemma Moved<T>(a: multiset<T>, b: multiset<T>, c: multiset<T>)
    ensures (a + b) + c == a + (c + b)
  {
  }

  lemma StillLive(c: Config, s: State, t: Timer, b: nat)
    requires TimersOk(c, s) && Enabled(c, s, FlushNext) && b != s.expired[0].batch && t.batch == b
    ensures Live(s, t) ==> Live(FlushNextNext(s), t)
  {
  }

  lemma AwaitsSendNow(c: Config, s: State, x: Message, gone: multiset<Message>, owed: Dues, ts: seq<Timer>)
    requires Awaits(s, gone, owed, ts)
    ensures Awaits(SendNowNext(c, s, x), gone, owed, ts)
  {
    FlushedSnoc(s.flushed, FlushOf(Appended(NewBatch(x), x)));
    AwaitsQuiet(s, SendNowNext(c, s, x), gone, owed, ts);
  }

  lemma AwaitsAppend(c: Config, s: State, gone: multiset<Message>, owed: Dues, ts: seq<Timer>)
    requires s.handler.Chosen? && s.handler.b < |s.pool| && Awaits(s, gone, owed, ts)
    ensures Awaits(AppendNext(c, s), gone, owed, ts)
  {
    AwaitsQuiet(s, JoinNext(s), gone, owed, ts);
    AwaitsQuiet(s, OverflowNext(c, s), gone, owed, ts);
  }

  /** Each step flushes what it owes or leaves it waiting, and nothing is forgotten. */
  lemma AwaitsKept(c: Config, s: State, e: Event, gone: multiset<Message>, owed: Dues, ts: seq<Timer>)
    returns (gone': multiset<Message>, owed': Dues)
    requires TimersOk(c, s) && Enabled(c, s, e) && Awaits(s, gone, owed, ts)
    ensures Awaits(Next(c, s, e), gone', owed', ts) && gone' + Total(owed') == gone + Total(owed)
    ensures Reduced(owed, owed')
  {
    gone', owed' := gone, owed;
    match e
    case SendNow(x) => AwaitsSendNow(c, s, x, gone, owed, ts);
    case FlushNext => gone', owed' := AwaitsFlush(c, s, gone, owed, ts);
    case PopExpired(now, due) =>
      TimersPop(c, s, now, due);
      AwaitsQuiet(s, PopExpiredNext(s, due), gone, owed, ts);
    case Append => AwaitsAppend(c, s, gone, owed, ts);
    case Lookup(x) => AwaitsQuiet(s, LookupNext(s, x), gone, owed, ts);
    case Create(num) => AwaitsQuiet(s, CreateNext(s, num), gone, owed, ts);
    case PushTimer => AwaitsQuiet(s, PushTimerNext(c, s), gone, owed, ts);
    case SetTimer => AwaitsQuiet(s, SetTimerNext(s), gone, owed, ts);
    case Tick(time) => AwaitsQuiet(s, s.(clock := time), gone, owed, ts);
  }

  /** Of all that was owed first, part is gone and the rest waits. */
  ghost predicate Owes(s: State, gone: multiset<Message>, owed: Dues, ts: seq<Timer>, all: multiset<Message>,
                       first: Dues)
  {
    Awaits(s, gone, owed, ts) && gone + Total(owed) == all && Reduced(first, owed)
  }

  ghost predicate Owing(s: State, ts: seq<Timer>, all: multiset<Message>, first: Dues) {
    exists gone, owed :: Owes(s, gone, owed, ts, all, first)
  }

  lemma ReducedFurther(a: Dues, b: Dues, c: Dues)
    requires Reduced(a, b) && Reduced(b, c)
    ensures Reduced(a, c)
  {
  }

  lemma OwingStep(c: Config, es: seq<Event>, ss: seq<State>, i: nat, ts: seq<Timer>, all: multiset<Message>,
                  first: Dues)
    requires IsRun(c, es, ss) && i < |es| && Owing(ss[i], ts, all, first)
    ensures Owing(ss[i + 1], ts, all, first)
  {
    var gone, owed :| Owes(ss[i], gone, owed, ts, all, first);
    assert StepAt(c, es, ss, i);
    RunInvariant(c, es, ss, i);
    var gone', owed' := AwaitsKept(c, ss[i], es[i], gone, owed, ts);
    ReducedFurther(first, owed, owed');
    assert Owes(ss[i + 1], gone', owed', ts, all, first);
  }

  lemma {:induction false} OwingUntil(c: Config, es: seq<Event>, ss: seq<State>, i: nat, j: nat, ts: seq<Timer>,
                                      all: multiset<Message>, first: Dues)
    requires IsRun(c, es, ss) && i <= j < |ss| && Owing(ss[i], ts, all, first)
    ensures Owing(ss[j], ts, all, first)
    decreases j
  {
    if i < j {
      OwingUntil(c, es, ss, i, j - 1, ts, all, first);
      OwingStep(c, es, ss, j - 1, ts, all, first);
    }
  }

  // ---------- Timers come due ----------

  /** A timer popped by a check never returns to the heap. */
  ghost predicate Due(s: State, t: Timer) {
    t !in s.heap && t.serial < s.serial
  }

  lemma DueKept(c: Config, s: State, e: Event, t: Timer)
    requires Enabled(c, s, e) && Due(s, t)
    ensures Due(Next(c, s, e), t)
  {
  }

  lemma {:induction false} DueUntil(c: Config, es: seq<Event>, ss: seq<State>, i: nat, j: nat, t: Timer)
    requires IsRun(c, es, ss) && i <= j < |ss| && Due(ss[i], t)
    ensures Due(ss[j], t)
    decreases j
  {
    if i < j {
      DueUntil(c, es, ss, i, j - 1, t);
      assert StepAt(c, es, ss, j - 1);
      DueKept(c, ss[j - 1], es[j - 1], t);
    }
  }

  lemma PoppedIsDue(c: Config, es: seq<Event>, ss: seq<State>, j: nat, t: Timer)
    requires IsRun(c, es, ss) && j < |es| && es[j].PopExpired? && t.deadline <= es[j].now && t.serial < ss[j].serial
    ensures Due(ss[j + 1], t)
  {
    assert StepAt(c, es, ss, j);
    RunInvariant(c, es, ss, j);
    TimersPop(c, ss[j], es[j].now, es[j].due);
  }

  lemma {:induction false} SerialGrows(c: Config, es: seq<Event>, ss: seq<State>, i: nat, j: nat)
    requires IsRun(c, es, ss) && i <= j < |ss|
    ensures ss[i].serial <= ss[j].serial
    decreases j
  {
    if i < j {
      SerialGrows(c, es, ss, i, j - 1);
      assert StepAt(c, es, ss, j - 1);
    }
  }

  /** What waits in batches the handler does not have locked. */
  ghost function Waiting(s: State): (owed: Dues)
    ensures |owed| == |s.pool|
    ensures forall b :: 0 <= b < |s.pool| ==> owed[b] == if Locked(s, b) then multiset{} else multiset(s.pool[b].msgs)
  {
    seq(|s.pool|, b requires 0 <= b < |s.pool| => if Locked(s, b) then multiset{} else multiset(s.pool[b].msgs))
  }

  /** The timers the waiting batches have; a batch that owes nothing may have none. */
  ghost function Timers(s: State): (ts: seq<Timer>)
    ensures |ts| == |s.pool|
    ensures forall b :: 0 <= b < |s.pool| && s.pool[b].timer.Some? ==> ts[b] == s.pool[b].timer.value
  {
    seq(|s.pool|, b requires 0 <= b < |s.pool| =>
      if s.pool[b].timer.Some? then s.pool[b].timer.value else Timer(0, 0, 0, 0))
  }

  /** What waits does so for timers due at most a timeout from now. */
  lemma WaitingHasTimers(c: Config, s: State)
    requires Inv(c, s)
    ensures Awaits(s, FlushedMsgs(s.flushed), Waiting(s), Timers(s))
    ensures forall b :: 0 <= b < |s.pool| && Waiting(s)[b] != multiset{} ==>
              Timers(s)[b].deadline <= s.clock + c.timeout && Timers(s)[b].serial < s.serial
  {
    forall b | 0 <= b < |s.pool| && Waiting(s)[b] != multiset{}
      ensures Waits(s, Waiting(s)[b], Timers(s)[b], b)
      ensures Timers(s)[b].deadline <= s.clock + c.timeout && Timers(s)[b].serial < s.serial
    {
      assert PacketOk(c, s, b) && TimerOf(s, b).Some?;
    }
  }

  /** Once all its timers are due and the expired list is worked off, nothing is owed. */
  lemma NothingOwed(s: State, gone: multiset<Message>, owed: Dues, ts: seq<Timer>)
    requires Awaits(s, gone, owed, ts) && s.expired == []
    requires forall b :: 0 <= b < |owed| && owed[b] != multiset{} ==> Due(s, ts[b])
    ensures Total(owed) == multiset{}
  {
    forall b | 0 <= b < |owed|
      ensures owed[b] == multiset{}
    {
      assert Waits(s, owed[b], ts[b], b);
    }
    TotalNothing(owed);
  }

  /**
   Bounded delay. Whatever waits at time T, message by message and batch by batch, is flushed in
   addition to all that was flushed before, by the end of the first timeout check whose clock
   reading is at least T plus the batch timeout: once that check has worked off its expired list
   (state k).
   */
  lemma FlushedInTime(c: Config, es: seq<Event>, ss: seq<State>, i: nat, j: nat, k: nat)
    requires IsRun(c, es, ss) && i <= j < k < |ss|
    requires es[j].PopExpired? && es[j].now >= ss[i].clock + c.timeout
    requires ss[k].expired == []
    ensures FlushedMsgs(ss[i].flushed) + Total(Waiting(ss[i])) <= FlushedMsgs(ss[k].flushed)
  {
    RunInvariant(c, es, ss, i);
    WaitingHasTimers(c, ss[i]);
    var owed, ts := Waiting(ss[i]), Timers(ss[i]);
    forall b | 0 <= b < |owed| && owed[b] != multiset{}
      ensures Due(ss[k], ts[b])
    {
      SerialGrows(c, es, ss, i, j);
      PoppedIsDue(c, es, ss, j, ts[b]);
      DueUntil(c, es, ss, j + 1, k, ts[b]);
    }
    var gone := FlushedMsgs(ss[i].flushed);
    var all := gone + Total(owed);
    assert Owes(ss[i], gone, owed, ts, all, owed);
    OwingUntil(c, es, ss, i, k, ts, all, owed);
    var gone', owed' :| Owes(ss[k], gone', owed', ts, all, owed);
    NothingOwed(ss[k], gone', owed', ts);
  }

  /** With an idle handler that is everything pending. */
  lemma IdleWaiting(s: State)
    requires s.handler.Idle?
    ensures Total(Waiting(s)) == Pending(s.pool)
  {
    TotalIsPending(s.pool, Waiting(s));
  }

  lemma {:induction false} TotalIsPending(pool: seq<Batch>, owed: Dues)
    requires |owed| == |pool| && forall b :: 0 <= b < |pool| ==> owed[b] == multiset(pool[b].msgs)
    ensures Total(owed) == Pending(pool)
  {
    if pool != [] {
      TotalIsPending(pool[..|pool| - 1], owed[..|owed| - 1]);
    }
  }
}
