/** The bounded buffer with two condition variables. Every region under the mutex is one step;
    threads may barge in ahead of woken ones, and may wake up for no reason. */
module SafeQueue {
  import opened Text

  /** A thread is outside, asleep in a `wait`, or woken and on its way back to the mutex. Waiting
      producers carry the value they want to push. `accepted` and `delivered` record, in order,
      the values that went in and came out. */
  datatype Monitor<T> = Monitor(
    maxSize: nat, queue: seq<T>, stop: bool,
    asleepProducers: map<int, T>, wokenProducers: map<int, T>,
    asleepConsumers: set<int>, wokenConsumers: set<int>,
    accepted: seq<T>, delivered: seq<T>)

  function New<T>(maxSize: nat): Monitor<T> {
    Monitor(maxSize, [], false, map[], map[], {}, {}, [], [])
  }

  /** `pick` is the sleeper a `notify_one` would choose, if there is one. */
  datatype Op<T> =
    | Push(thread: int, value: T, pick: int)
    | PushAgain(thread: int, pick: int)
    | Pop(thread: int, pick: int)
    | PopAgain(thread: int, pick: int)
    | Stop
    | SpuriousProducer(thread: int)
    | SpuriousConsumer(thread: int)

  predicate Outside<T>(m: Monitor<T>, thread: int) {
    && thread !in m.asleepProducers && thread !in m.wokenProducers
    && thread !in m.asleepConsumers && thread !in m.wokenConsumers
  }

  predicate Can<T>(m: Monitor<T>, op: Op<T>) {
    match op
    case Push(t, _, pick) => Outside(m, t) && (m.asleepConsumers == {} || pick in m.asleepConsumers)
    case PushAgain(t, pick) => t in m.wokenProducers && (m.asleepConsumers == {} || pick in m.asleepConsumers)
    case Pop(t, pick) => Outside(m, t) && (m.asleepProducers == map[] || pick in m.asleepProducers)
    case PopAgain(t, pick) => t in m.wokenConsumers && (m.asleepProducers == map[] || pick in m.asleepProducers)
    case Stop => true
    case SpuriousProducer(t) => t in m.asleepProducers
    case SpuriousConsumer(t) => t in m.asleepConsumers
  }

  function WakeProducer<T>(m: Monitor<T>, t: int): Monitor<T> {
    if t in m.asleepProducers then
      m.(asleepProducers := m.asleepProducers - {t}, wokenProducers := m.wokenProducers[t := m.asleepProducers[t]])
    else m
  }

  function WakeConsumer<T>(m: Monitor<T>, t: int): Monitor<T> {
    if t in m.asleepConsumers then
      m.(asleepConsumers := m.asleepConsumers - {t}, wokenConsumers := m.wokenConsumers + {t})
    else m
  }

  /** `push` from the point where the mutex is held. */
  function PushRegion<T>(m: Monitor<T>, t: int, value: T, pick: int): Monitor<T> {
    if m.stop then m
    else if |m.queue| < m.maxSize then
      WakeConsumer(m.(queue := m.queue + [value], accepted := m.accepted + [value]), pick)
    else m.(asleepProducers := m.asleepProducers[t := value])
  }

  /** `pop` from the point where the mutex is held. */
  function PopRegion<T>(m: Monitor<T>, t: int, pick: int): Monitor<T> {
    if m.queue != [] then
      WakeProducer(m.(queue := m.queue[1..], delivered := m.delivered + [m.queue[0]]), pick)
    else if m.stop then m
    else m.(asleepConsumers := m.asleepConsumers + {t})
  }

  function Do<T>(m: Monitor<T>, op: Op<T>): Monitor<T>
    requires Can(m, op)
  {
    match op
    case Push(t, value, pick) => PushRegion(m, t, value, pick)
    case PushAgain(t, pick) =>
      PushRegion(m.(wokenProducers := m.wokenProducers - {t}), t, m.wokenProducers[t], pick)
    case Pop(t, pick) => PopRegion(m, t, pick)
    case PopAgain(t, pick) => PopRegion(m.(wokenConsumers := m.wokenConsumers - {t}), t, pick)
    case Stop =>
      m.(stop := true,
         asleepProducers := map[], wokenProducers := m.wokenProducers + m.asleepProducers,
         asleepConsumers := {}, wokenConsumers := m.wokenConsumers + m.asleepConsumers)
    case SpuriousProducer(t) => WakeProducer(m, t)
    case SpuriousConsumer(t) => WakeConsumer(m, t)
  }

  // ---------------------------------------------------------------- the invariant

  /** No wakeup is lost: while a producer sleeps, every free slot is already promised to a woken
      producer; while a consumer sleeps, every queued value is promised to a woken consumer. */
  ghost predicate NoLostWakeup<T>(m: Monitor<T>) {
    && (m.asleepProducers != map[] ==> m.maxSize - |m.queue| <= |m.wokenProducers|)
    && (m.asleepConsumers != {} ==> |m.queue| <= |m.wokenConsumers|)
    && (m.stop ==> m.asleepProducers == map[] && m.asleepConsumers == {})
  }

  /** First in, first out, nothing lost or invented, and never more than `maxSize` values. */
  ghost predicate Fifo<T>(m: Monitor<T>) {
    m.accepted == m.delivered + m.queue && |m.queue| <= m.maxSize
  }

  ghost predicate Inv<T>(m: Monitor<T>) {
    && NoLostWakeup(m) && Fifo(m)
    && m.asleepProducers.Keys !! m.wokenProducers.Keys && m.asleepConsumers !! m.wokenConsumers
  }

  lemma WokenCount<T>(a: map<int, T>, t: int, v: T)
    requires t !in a
    ensures |a[t := v]| == |a| + 1
  {
    assert a[t := v].Keys == a.Keys + {t};
  }

  lemma LeftCount<T>(a: map<int, T>, t: int)
    requires t in a
    ensures |a - {t}| == |a| - 1
  {
    assert (a - {t}).Keys == a.Keys - {t};
  }

  lemma PushKeepsInv<T>(m: Monitor<T>, t: int, value: T, pick: int, owed: nat)
    requires Fifo(m) && m.asleepProducers.Keys !! m.wokenProducers.Keys && m.asleepConsumers !! m.wokenConsumers
    requires t !in m.wokenProducers
    requires m.asleepConsumers == {} || pick in m.asleepConsumers
    requires m.stop ==> m.asleepProducers == map[] && m.asleepConsumers == {}
    requires m.asleepConsumers != {} ==> |m.queue| <= |m.wokenConsumers|
    // the running thread counts for one slot if it was woken for it
    requires owed <= 1 && (m.asleepProducers != map[] ==> m.maxSize - |m.queue| <= |m.wokenProducers| + owed)
    ensures Inv(PushRegion(m, t, value, pick))
  {
    assert m.delivered + (m.queue + [value]) == m.delivered + m.queue + [value];
  }

  lemma PopKeepsInv<T>(m: Monitor<T>, t: int, pick: int, owed: nat)
    requires Fifo(m) && m.asleepProducers.Keys !! m.wokenProducers.Keys && m.asleepConsumers !! m.wokenConsumers
    requires t !in m.wokenConsumers
    requires m.asleepProducers == map[] || pick in m.asleepProducers
    requires m.stop ==> m.asleepProducers == map[] && m.asleepConsumers == {}
    requires m.asleepProducers != map[] ==> m.maxSize - |m.queue| <= |m.wokenProducers|
    requires owed <= 1 && (m.asleepConsumers != {} ==> |m.queue| <= |m.wokenConsumers| + owed)
    ensures Inv(PopRegion(m, t, pick))
  {
    if m.queue != [] {
      assert m.queue == [m.queue[0]] + m.queue[1..];
      assert m.delivered + [m.queue[0]] + m.queue[1..] == m.delivered + m.queue;
      if pick in m.asleepProducers {
        WokenCount(m.wokenProducers, pick, m.asleepProducers[pick]);
      }
    }
  }

  lemma StepKeepsInv<T>(m: Monitor<T>, op: Op<T>)
    requires Inv(m) && Can(m, op)
    ensures Inv(Do(m, op))
  {
    match op
    case Push(t, value, pick) =>
      PushKeepsInv(m, t, value, pick, 0);
    case PushAgain(t, pick) =>
      LeftCount(m.wokenProducers, t);
      PushKeepsInv(m.(wokenProducers := m.wokenProducers - {t}), t, m.wokenProducers[t], pick, 1);
    case Pop(t, pick) =>
      PopKeepsInv(m, t, pick, 0);
    case PopAgain(t, pick) =>
      PopKeepsInv(m.(wokenConsumers := m.wokenConsumers - {t}), t, pick, 1);
    case Stop =>
    case SpuriousProducer(t) =>
      WokenCount(m.wokenProducers, t, m.asleepProducers[t]);
    case SpuriousConsumer(t) =>
  }

  // ---------------------------------------------------------------- runs

  /** The state after a run, and whether every step of it could be taken. */
  function Run<T>(m: Monitor<T>, ops: seq<Op<T>>): Option<Monitor<T>>
    decreases |ops|
  {
    if ops == [] then Some(m)
    else if Can(m, ops[0]) then Run(Do(m, ops[0]), ops[1..])
    else None
  }

  lemma {:induction false} RunKeepsInv<T>(m: Monitor<T>, ops: seq<Op<T>>)
    requires Inv(m)
    ensures Run(m, ops).Some? ==> Inv(Run(m, ops).value) && Run(m, ops).value.maxSize == m.maxSize
    decreases |ops|
  {
    if ops != [] && Can(m, ops[0]) {
      StepKeepsInv(m, ops[0]);
      RunKeepsInv(Do(m, ops[0]), ops[1..]);
    }
  }

  /** Sleepers on both sides and nobody on the way to do anything about it. */
  ghost predicate Deadlocked<T>(m: Monitor<T>) {
    && m.asleepProducers != map[] && m.asleepConsumers != {}
    && m.wokenProducers == map[] && m.wokenConsumers == {}
  }

  /** In every reachable state in which no woken thread is on its way, producers sleep only before
      a full queue and consumers only before an empty one; values come out in the order they went
      in; after `stop` nobody sleeps. */
  lemma NobodySleepsInVain<T>(maxSize: nat, ops: seq<Op<T>>)
    requires Run(New<T>(maxSize), ops).Some?
    ensures var m := Run(New<T>(maxSize), ops).value;
            && (m.wokenProducers == map[] && m.asleepProducers != map[] ==> |m.queue| == maxSize)
            && (m.wokenConsumers == {} && m.asleepConsumers != {} ==> m.queue == [])
            && m.accepted == m.delivered + m.queue && |m.queue| <= maxSize
            && (m.stop ==> m.asleepProducers == map[] && m.asleepConsumers == {})
  {
    RunKeepsInv(New<T>(maxSize), ops);
  }

  // ---------------------------------------------------------------- whose values come out

  /** A run up to some step: the monitor, for each thread the position of its last `Push`, the
      positions of the pushes whose values went in, and the values that came out, both in order. */
  datatype Trace<T> = Trace(m: Monitor<T>, last: map<int, nat>, entered: seq<nat>, popped: seq<T>)

  predicate Grows<T>(m: Monitor<T>, op: Op<T>)
    requires Can(m, op)
  {
    (op.Push? || op.PushAgain?) && |Do(m, op).queue| > |m.queue|
  }

  /** One step of `ops`: a push that makes the queue longer brings in the value its thread last came
      with; a pop hands out the front of the queue. */
  function NextTrace<T>(t: Trace<T>, ops: seq<Op<T>>, k: nat): Trace<T>
    requires k < |ops| && Can(t.m, ops[k])
  {
    var op := ops[k];
    var last := if op.Push? then t.last[op.thread := k] else t.last;
    Trace(Do(t.m, op), last,
          if Grows(t.m, op) && op.thread in last then t.entered + [last[op.thread]] else t.entered,
          if (op.Pop? || op.PopAgain?) && t.m.queue != [] then t.popped + [t.m.queue[0]] else t.popped)
  }

  function Follow<T>(t: Trace<T>, ops: seq<Op<T>>, k: nat): Trace<T>
    requires k <= |ops| && Run(t.m, ops[k..]).Some?
    decreases |ops| - k
  {
    if k == |ops| then t
    else
      assert ops[k..][0] == ops[k] && ops[k..][1..] == ops[k + 1..];
      Follow(NextTrace(t, ops, k), ops, k + 1)
  }

  predicate Waits<T>(m: Monitor<T>, thread: int) {
    thread in m.asleepProducers || thread in m.wokenProducers
  }

  function HeldBy<T>(m: Monitor<T>, thread: int): T
    requires Waits(m, thread)
  {
    if thread in m.asleepProducers then m.asleepProducers[thread] else m.wokenProducers[thread]
  }

  /** Position `i` is the last push of `thread` before `k`. */
  ghost predicate LastPush<T>(ops: seq<Op<T>>, k: nat, thread: int, i: nat) {
    && i < k <= |ops| && ops[i].Push? && ops[i].thread == thread
    && forall j :: i < j < k && ops[j].Push? ==> ops[j].thread != thread
  }

  /** A producer that waits holds the value of its last push, which has not gone in yet. */
  ghost predicate WaitersHold<T>(t: Trace<T>, ops: seq<Op<T>>, k: nat) {
    forall thread :: Waits(t.m, thread) ==>
      && thread in t.last && LastPush(ops, k, thread, t.last[thread])
      && HeldBy(t.m, thread) == ops[t.last[thread]].value
      && t.last[thread] !in t.entered
  }

  /** The values that came out, and behind them those in the queue, are the values of the pushes that
      went in; no push went in twice. */
  ghost predicate ComesOut<T>(t: Trace<T>, ops: seq<Op<T>>, k: nat) {
    && k <= |ops| && |t.entered| == |t.popped + t.m.queue|
    && (forall i :: 0 <= i < |t.entered| ==>
          && t.entered[i] < k && ops[t.entered[i]].Push?
          && (t.popped + t.m.queue)[i] == ops[t.entered[i]].value)
    && forall i, j :: 0 <= i < j < |t.entered| ==> t.entered[i] != t.entered[j]
  }

  ghost predicate TraceInv<T>(t: Trace<T>, ops: seq<Op<T>>, k: nat) {
    Inv(t.m) && WaitersHold(t, ops, k) && ComesOut(t, ops, k) && t.m.delivered == t.popped
  }

  lemma WaitersStay<T>(t: Trace<T>, u: Trace<T>, ops: seq<Op<T>>, k: nat)
    requires k < |ops| && WaitersHold(t, ops, k) && !ops[k].Push?
    requires u.last == t.last && u.entered == t.entered
    requires forall thread :: Waits(u.m, thread) ==> Waits(t.m, thread) && HeldBy(u.m, thread) == HeldBy(t.m, thread)
    ensures WaitersHold(u, ops, k + 1)
  {
    forall thread | Waits(u.m, thread)
      ensures LastPush(ops, k + 1, thread, u.last[thread])
    {
      assert Waits(t.m, thread);
    }
  }

  /** One more value at the back. */
  lemma Enters<T>(t: Trace<T>, u: Trace<T>, ops: seq<Op<T>>, k: nat, i: nat)
    requires ComesOut(t, ops, k) && k < |ops| && i <= k && ops[i].Push? && i !in t.entered
    requires u.entered == t.entered + [i] && u.popped == t.popped && u.m.queue == t.m.queue + [ops[i].value]
    ensures ComesOut(u, ops, k + 1)
  {
    assert u.popped + u.m.queue == (t.popped + t.m.queue) + [ops[i].value];
  }

  /** One value moves from the queue to what came out. */
  lemma Leaves<T>(t: Trace<T>, u: Trace<T>, ops: seq<Op<T>>, k: nat)
    requires ComesOut(t, ops, k) && k < |ops| && t.m.queue != []
    requires u.entered == t.entered && u.popped == t.popped + [t.m.queue[0]] && u.m.queue == t.m.queue[1..]
    ensures ComesOut(u, ops, k + 1)
  {
    assert u.popped + u.m.queue == t.popped + t.m.queue;
  }

  lemma PushTrace<T>(t: Trace<T>, ops: seq<Op<T>>, k: nat)
    requires k < |ops| && TraceInv(t, ops, k) && Can(t.m, ops[k]) && ops[k].Push?
    ensures TraceInv(NextTrace(t, ops, k), ops, k + 1)
  {
    StepKeepsInv(t.m, ops[k]);
    var u, me := NextTrace(t, ops, k), ops[k].thread;
    assert k !in t.entered;
    if Grows(t.m, ops[k]) {
      Enters(t, u, ops, k, k);
    }
    forall thread | Waits(u.m, thread)
      ensures thread in u.last && LastPush(ops, k + 1, thread, u.last[thread])
      ensures HeldBy(u.m, thread) == ops[u.last[thread]].value && u.last[thread] !in u.entered
    {
      if thread != me {
        assert Waits(t.m, thread) && HeldBy(u.m, thread) == HeldBy(t.m, thread);
      }
    }
  }

  lemma PushAgainTrace<T>(t: Trace<T>, ops: seq<Op<T>>, k: nat)
    requires k < |ops| && TraceInv(t, ops, k) && Can(t.m, ops[k]) && ops[k].PushAgain?
    ensures TraceInv(NextTrace(t, ops, k), ops, k + 1)
  {
    StepKeepsInv(t.m, ops[k]);
    var u, me := NextTrace(t, ops, k), ops[k].thread;
    assert Waits(t.m, me) && HeldBy(t.m, me) == t.m.wokenProducers[me];
    if Grows(t.m, ops[k]) {
      Enters(t, u, ops, k, t.last[me]);
    }
    forall thread | Waits(u.m, thread)
      ensures thread in u.last && LastPush(ops, k + 1, thread, u.last[thread])
      ensures HeldBy(u.m, thread) == ops[u.last[thread]].value && u.last[thread] !in u.entered
    {
      assert Waits(t.m, thread) && HeldBy(u.m, thread) == HeldBy(t.m, thread);
      assert ops[t.last[thread]].thread == thread && ops[t.last[me]].thread == me;
    }
  }

  lemma PopTrace<T>(t: Trace<T>, ops: seq<Op<T>>, k: nat)
    requires k < |ops| && TraceInv(t, ops, k) && Can(t.m, ops[k]) && (ops[k].Pop? || ops[k].PopAgain?)
    ensures TraceInv(NextTrace(t, ops, k), ops, k + 1)
  {
    StepKeepsInv(t.m, ops[k]);
    var u := NextTrace(t, ops, k);
    WaitersStay(t, u, ops, k);
    if t.m.queue != [] {
      Leaves(t, u, ops, k);
    }
  }

  lemma WakeTrace<T>(t: Trace<T>, ops: seq<Op<T>>, k: nat)
    requires k < |ops| && TraceInv(t, ops, k) && Can(t.m, ops[k])
    requires ops[k].Stop? || ops[k].SpuriousProducer? || ops[k].SpuriousConsumer?
    ensures TraceInv(NextTrace(t, ops, k), ops, k + 1)
  {
    StepKeepsInv(t.m, ops[k]);
    WaitersStay(t, NextTrace(t, ops, k), ops, k);
  }

  lemma {:induction false} FollowInv<T>(t: Trace<T>, ops: seq<Op<T>>, k: nat)
    requires k <= |ops| && TraceInv(t, ops, k) && Run(t.m, ops[k..]).Some?
    ensures TraceInv(Follow(t, ops, k), ops, |ops|)
    ensures Run(t.m, ops[k..]) == Some(Follow(t, ops, k).m)
    decreases |ops| - k
  {
    if k < |ops| {
      assert ops[k..][0] == ops[k] && ops[k..][1..] == ops[k + 1..];
      if ops[k].Push? {
        PushTrace(t, ops, k);
      } else if ops[k].PushAgain? {
        PushAgainTrace(t, ops, k);
      } else if ops[k].Pop? || ops[k].PopAgain? {
        PopTrace(t, ops, k);
      } else {
        WakeTrace(t, ops, k);
      }
      FollowInv(NextTrace(t, ops, k), ops, k + 1);
    }
  }

  /** Over every run: what `pop` handed out, and behind it what is queued, are in order the values of
      `Push` calls of the run, each call at most once, though its thread may have slept and been woken
      any number of times before its value went in; and a producer that still waits holds the value
      of its last call. */
  lemma ValuesComeOut<T>(maxSize: nat, ops: seq<Op<T>>)
    requires Run(New<T>(maxSize), ops).Some?
    ensures Run(New<T>(maxSize), ops[0..]).Some?
    ensures var m := Run(New<T>(maxSize), ops).value;
            var t := Follow(Trace(New<T>(maxSize), map[], [], []), ops, 0);
            && t.m == m && ComesOut(t, ops, |ops|) && m.delivered == t.popped
            && forall thread :: Waits(m, thread) ==>
                 exists i: nat :: LastPush(ops, |ops|, thread, i) && HeldBy(m, thread) == ops[i].value
  {
    assert ops[0..] == ops;
    FollowInv(Trace(New<T>(maxSize), map[], [], []), ops, 0);
  }

  ghost predicate EndsDeadlocked<T>(m: Monitor<T>, ops: seq<Op<T>>) {
    Run(m, ops).Some? && Deadlocked(Run(m, ops).value)
  }

  /** Some run deadlocks if and only if the queue was built with capacity 0. */
  lemma DeadlockExactly<T>(maxSize: nat, value: T)
    ensures (exists ops :: EndsDeadlocked(New<T>(maxSize), ops)) <==> maxSize == 0
  {
    var m := New<T>(maxSize);
    if maxSize == 0 {
      var first, second := Push(1, value, 0), Pop(2, 1);
      var m1 := Do(m, first);
      var m2 := Do(m1, second);
      assert [second][1..] == [] && [first, second][1..] == [second];
      assert Run(m1, [second]) == Run(m2, [second][1..]);
      assert Run(m, [first, second]) == Some(m2);
      assert 1 in m2.asleepProducers && 2 in m2.asleepConsumers;
      assert EndsDeadlocked(m, [first, second]);
    } else {
      forall ops | Run(m, ops).Some? ensures !Deadlocked(Run(m, ops).value) {
        RunKeepsInv(m, ops);
      }
    }
  }

  /** After `stop` every thread that gets the mutex leaves: nobody goes back to sleep, and the
      values still queued are delivered before any `pop` reports the end. */
  lemma StopReleases<T>(m: Monitor<T>, op: Op<T>)
    requires Inv(m) && m.stop && Can(m, op)
    ensures var n := Do(m, op);
            && n.stop && n.accepted == m.accepted
            && (op.PushAgain? ==> op.thread !in n.wokenProducers && n.queue == m.queue)
            && (op.PopAgain? ==> op.thread !in n.wokenConsumers)
            && (op.PopAgain? || op.Pop? ==>
                  if m.queue == [] then n.delivered == m.accepted else |n.queue| == |m.queue| - 1)
  {
    StepKeepsInv(m, op);
  }

  /** How often in a run a woken thread gets the mutex back, and how often somebody pops. */
  function Returns<T>(ops: seq<Op<T>>): nat {
    if ops == [] then 0 else (if ops[0].PushAgain? || ops[0].PopAgain? then 1 else 0) + Returns(ops[1..])
  }

  function Pops<T>(ops: seq<Op<T>>): nat {
    if ops == [] then 0 else (if ops[0].Pop? || ops[0].PopAgain? then 1 else 0) + Pops(ops[1..])
  }

  function Woken<T>(m: Monitor<T>): nat {
    |m.wokenProducers| + |m.wokenConsumers|
  }

  function LeftAfter(size: nat, pops: nat): nat {
    if pops <= size then size - pops else 0
  }

  lemma StopStep<T>(m: Monitor<T>, op: Op<T>)
    requires Inv(m) && m.stop && Can(m, op)
    ensures var n := Do(m, op);
            && Inv(n) && n.stop && n.accepted == m.accepted
            && Woken(n) + Returns([op]) == Woken(m)
            && |n.queue| == LeftAfter(|m.queue|, Pops([op]))
  {
    StepKeepsInv(m, op);
    assert [op][1..] == [];
    match op
    case Push(_, _, _) =>
    case PushAgain(t, _) => LeftCount(m.wokenProducers, t);
    case Pop(_, _) =>
    case PopAgain(_, _) =>
    case Stop => StoppedTwice(m);
    case SpuriousProducer(_) =>
    case SpuriousConsumer(_) =>
  }

  lemma StoppedTwice<T>(m: Monitor<T>)
    requires m.stop && NoLostWakeup(m)
    ensures m.wokenProducers + m.asleepProducers == m.wokenProducers
    ensures m.wokenConsumers + m.asleepConsumers == m.wokenConsumers
  {
  }

  /** Any run after `stop`: every return of a woken thread is its last, so there are at most as many
      as threads were woken; nothing more is accepted; and everything accepted has been delivered
      exactly if the run popped at least as often as values were queued. */
  lemma {:induction false} StopDrains<T>(m: Monitor<T>, ops: seq<Op<T>>)
    requires Inv(m) && m.stop && Run(m, ops).Some?
    ensures var n := Run(m, ops).value;
            && Inv(n) && n.stop && n.accepted == m.accepted
            && Woken(n) + Returns(ops) == Woken(m)
            && |n.queue| == LeftAfter(|m.queue|, Pops(ops))
            && (n.delivered == n.accepted <==> Pops(ops) >= |m.queue|)
    decreases |ops|
  {
    if ops != [] {
      var op, rest := ops[0], ops[1..];
      StopStep(m, op);
      assert [op][1..] == [];
      StopDrains(Do(m, op), rest);
    }
    AllDelivered(Run(m, ops).value);
  }

  lemma AllDelivered<T>(m: Monitor<T>)
    requires Fifo(m)
    ensures m.delivered == m.accepted <==> m.queue == []
  {
    if m.queue == [] {
      assert m.delivered + m.queue == m.delivered;
    } else {
      assert |m.accepted| > |m.delivered|;
    }
  }

  lemma NoMember(s: set<int>)
    requires forall x :: x !in s
    ensures s == {}
  {
    var none: set<int> := {};
    assert forall x :: x in s <==> x in none;
    assert s == none;
  }

  lemma Member(s: set<int>) returns (t: int)
    requires s != {}
    ensures t in s
  {
    if !exists x :: x in s {
      NoMember(s);
    }
    t :| t in s;
  }

  /** And nothing stops the woken threads from leaving: some run of their returns alone ends with
      nobody woken. */
  lemma {:induction false} EverybodyLeaves<T>(m: Monitor<T>) returns (ops: seq<Op<T>>)
    requires Inv(m) && m.stop
    ensures Run(m, ops).Some? && Woken(Run(m, ops).value) == 0 && |ops| == Returns(ops)
    decreases Woken(m)
  {
    if Woken(m) == 0 {
      return [];
    }
    var op: Op<T>;
    if m.wokenProducers.Keys != {} {
      var t := Member(m.wokenProducers.Keys);
      op := PushAgain(t, 0);
    } else {
      assert |m.wokenProducers| == |m.wokenProducers.Keys| == 0;
      var t := Member(m.wokenConsumers);
      op := PopAgain(t, 0);
    }
    assert [op][1..] == [];
    StopStep(m, op);
    var rest := EverybodyLeaves(Do(m, op));
    ops := [op] + rest;
    assert ops[1..] == rest;
  }

  // ---------------------------------------------------------------- the class

  /** The fields of the queue, plus who is parked on its two condition variables. A result of None
      means that the calling thread went to sleep in `wait`. */
  class SafeQueue<T> {
    const maxSize: nat
    var queue: seq<T>
    var stopped: bool
    var notFull: map<int, T>       // asleep on not_full
    var notFullWoken: map<int, T>
    var notEmpty: set<int>         // asleep on not_empty
    var notEmptyWoken: set<int>
    ghost var accepted: seq<T>
    ghost var delivered: seq<T>

    ghost function Abs(): Monitor<T>
      reads this
    {
      Monitor(maxSize, queue, stopped, notFull, notFullWoken, notEmpty, notEmptyWoken, accepted, delivered)
    }

    ghost predicate Valid()
      reads this
    {
      Inv(Abs())
    }

    constructor (maxSize: nat)
      ensures Valid() && Abs() == New(maxSize)
    {
      this.maxSize := maxSize;
      queue, stopped, notFull, notFullWoken, notEmpty, notEmptyWoken := [], false, map[], map[], {}, {};
      accepted, delivered := [], [];
    }

    method NotifyConsumer(pick: int)
      modifies this`notEmpty, this`notEmptyWoken
      ensures Abs() == WakeConsumer(old(Abs()), pick)
    {
      if pick in notEmpty {
        notEmpty, notEmptyWoken := notEmpty - {pick}, notEmptyWoken + {pick};
      }
    }

    method NotifyProducer(pick: int)
      modifies this`notFull, this`notFullWoken
      ensures Abs() == WakeProducer(old(Abs()), pick)
    {
      if pick in notFull {
        notFull, notFullWoken := notFull - {pick}, notFullWoken[pick := notFull[pick]];
      }
    }

    method PushLocked(t: int, value: T, pick: int) returns (r: Option<bool>)
      modifies this
      ensures Abs() == PushRegion(old(Abs()), t, value, pick)
      ensures r == if old(stopped) then Some(false) else if |old(queue)| < maxSize then Some(true) else None
      ensures queue == if r == Some(true) then old(queue) + [value] else old(queue)
      ensures r.None? ==> t in notFull && notFull[t] == value
    {
      if !(|queue| < maxSize || stopped) {
        notFull := notFull[t := value];
        return None;
      }
      if stopped {
        return Some(false);
      }
      queue, accepted := queue + [value], accepted + [value];
      NotifyConsumer(pick);
      return Some(true);
    }

    method Push(t: int, value: T, pick: int) returns (r: Option<bool>)
      requires Valid() && Can(Abs(), Op.Push(t, value, pick))
      modifies this
      ensures Valid() && Abs() == Do(old(Abs()), Op.Push(t, value, pick))
      ensures r == Some(true) ==> accepted == old(accepted) + [value]
      ensures r == None ==> t in notFull && notFull[t] == value
      ensures r == Some(false) <==> old(stopped)
    {
      StepKeepsInv(Abs(), Op.Push(t, value, pick));
      r := PushLocked(t, value, pick);
    }

    /** A woken producer gets the mutex back and re-tests its predicate. */
    method PushAgain(t: int, pick: int) returns (r: Option<bool>)
      requires Valid() && Can(Abs(), Op.PushAgain(t, pick))
      modifies this
      ensures Valid() && Abs() == Do(old(Abs()), Op.PushAgain(t, pick))
      ensures r == Some(true) ==> accepted == old(accepted) + [old(notFullWoken)[t]]
      ensures r == None ==> t in notFull && notFull[t] == old(notFullWoken)[t]
      ensures r == Some(false) <==> old(stopped)
    {
      StepKeepsInv(Abs(), Op.PushAgain(t, pick));
      var value := notFullWoken[t];
      notFullWoken := notFullWoken - {t};
      r := PushLocked(t, value, pick);
    }

    /** None: asleep; Some(None): stopped and drained; Some(Some(v)): the oldest value. */
    method PopLocked(t: int, pick: int) returns (r: Option<Option<T>>)
      modifies this
      ensures Abs() == PopRegion(old(Abs()), t, pick)
      ensures r == if old(queue) != [] then Some(Some(old(queue)[0])) else if old(stopped) then Some(None) else None
    {
      if !(queue != [] || stopped) {
        notEmpty := notEmpty + {t};
        return None;
      }
      if stopped && queue == [] {
        return Some(None);
      }
      r := Some(Some(queue[0]));
      queue, delivered := queue[1..], delivered + [queue[0]];
      NotifyProducer(pick);
    }

    method Pop(t: int, pick: int) returns (r: Option<Option<T>>)
      requires Valid() && Can(Abs(), Op.Pop(t, pick))
      modifies this
      ensures Valid() && Abs() == Do(old(Abs()), Op<T>.Pop(t, pick))
      ensures r.Some? && r.value.Some? ==> delivered == old(delivered) + [r.value.value]
      ensures r == Some(None) ==> old(stopped) && delivered == accepted
    {
      StepKeepsInv(Abs(), Op<T>.Pop(t, pick));
      r := PopLocked(t, pick);
    }

    method PopAgain(t: int, pick: int) returns (r: Option<Option<T>>)
      requires Valid() && Can(Abs(), Op.PopAgain(t, pick))
      modifies this
      ensures Valid() && Abs() == Do(old(Abs()), Op<T>.PopAgain(t, pick))
      ensures r.Some? && r.value.Some? ==> delivered == old(delivered) + [r.value.value]
      ensures r == Some(None) ==> old(stopped) && delivered == accepted
    {
      StepKeepsInv(Abs(), Op<T>.PopAgain(t, pick));
      notEmptyWoken := notEmptyWoken - {t};
      r := PopLocked(t, pick);
    }

    method Stop()
      requires Valid()
      modifies this
      ensures Valid() && Abs() == Do(old(Abs()), Op<T>.Stop)
    {
      StepKeepsInv(Abs(), Op<T>.Stop);
      stopped := true;
      notEmpty, notEmptyWoken := {}, notEmptyWoken + notEmpty;
      notFull, notFullWoken := map[], notFullWoken + notFull;
    }
  }
}
