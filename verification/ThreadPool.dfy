/** The thread pool: `submit` notifies after it has released the mutex, the destructor notifies
    everybody, spins until nothing is pending and joins. */
module ThreadPool {
  import opened Text

  type Task = int

  /** Where a worker is: before the mutex, asleep in `wait`, running a task, between the task and
      the decrement of `pending_tasks_`, or out of its loop. */
  datatype Pc = Ready | Asleep | Running(task: Task) | Ran(task: Task) | Exited

  /** The destructor: not called, `stop_` set and `notify_all` owed, spinning, joining, returned. */
  datatype Dtor = NotCalled | Stopping | Spinning | Joining(next: nat) | Returned

  /** `owed` counts submits that have queued their task and not yet called `notify_one`. The three
      logs record the order of submits, of pops and of finished tasks. `pending` is an integer, so
      that an underflow would show. */
  datatype Pool = Pool(
    stop: bool, pending: int, tasks: seq<Task>, workers: seq<Pc>, owed: nat, dtor: Dtor,
    submitted: seq<Task>, popped: seq<Task>, ran: seq<Task>)

  function New(n: nat): Pool {
    Pool(false, 0, [], seq(n, _ => Ready), 0, NotCalled, [], [], [])
  }

  datatype Op =
    | Submit(task: Task)
    | Notify(pick: nat)   // notify_one; `pick` is the sleeper it chooses, if anybody sleeps
    | Acquire(w: nat)     // the locked region of worker_loop_
    | Finish(w: nat)      // task() returns
    | Count(w: nat)       // pending_tasks_--
    | Spurious(w: nat)
    | SetStop | NotifyAll | EndSpin | Join | Leave

  predicate SomeAsleep(ws: seq<Pc>) {
    exists i :: 0 <= i < |ws| && ws[i].Asleep?
  }

  predicate At(p: Pool, w: nat, pc: Pc) {
    w < |p.workers| && p.workers[w] == pc
  }

  predicate Can(p: Pool, op: Op) {
    match op
    case Submit(_) => !p.stop // otherwise it throws and changes nothing
    case Notify(pick) => p.owed > 0 && (SomeAsleep(p.workers) ==> At(p, pick, Asleep))
    case Acquire(w) => At(p, w, Ready)
    case Finish(w) => w < |p.workers| && p.workers[w].Running?
    case Count(w) => w < |p.workers| && p.workers[w].Ran?
    case Spurious(w) => At(p, w, Asleep)
    case SetStop => p.dtor == NotCalled
    case NotifyAll => p.dtor == Stopping
    case EndSpin => p.dtor == Spinning && p.pending <= 0
    case Join => p.dtor.Joining? && At(p, p.dtor.next, Exited)
    case Leave => p.dtor == Joining(|p.workers|)
  }

  function WakeAll(ws: seq<Pc>): (r: seq<Pc>)
    ensures |r| == |ws|
    ensures forall i :: 0 <= i < |ws| ==> r[i] == if ws[i].Asleep? then Ready else ws[i]
  {
    if ws == [] then [] else [if ws[0].Asleep? then Ready else ws[0]] + WakeAll(ws[1..])
  }

  /** The locked region of the worker loop, from the wait predicate to the pop. */
  function AcquireRegion(p: Pool, w: nat): Pool
    requires w < |p.workers|
  {
    if !p.stop && p.tasks == [] then p.(workers := p.workers[w := Asleep])
    else if p.tasks == [] then p.(workers := p.workers[w := Exited])
    else p.(workers := p.workers[w := Running(p.tasks[0])], tasks := p.tasks[1..], popped := p.popped + [p.tasks[0]])
  }

  function Do(p: Pool, op: Op): Pool
    requires Can(p, op)
  {
    match op
    case Submit(t) =>
      p.(tasks := p.tasks + [t], pending := p.pending + 1, owed := p.owed + 1, submitted := p.submitted + [t])
    case Notify(pick) =>
      var q := p.(owed := p.owed - 1);
      if At(p, pick, Asleep) then q.(workers := p.workers[pick := Ready]) else q
    case Acquire(w) => AcquireRegion(p, w)
    case Finish(w) =>
      p.(workers := p.workers[w := Ran(p.workers[w].task)], ran := p.ran + [p.workers[w].task])
    case Count(w) => p.(workers := p.workers[w := Ready], pending := p.pending - 1)
    case Spurious(w) => p.(workers := p.workers[w := Ready])
    case SetStop => p.(stop := true, dtor := Stopping)
    case NotifyAll => p.(workers := WakeAll(p.workers), dtor := Spinning)
    case EndSpin => p.(dtor := Joining(0))
    case Join => p.(dtor := Joining(p.dtor.next + 1))
    case Leave => p.(dtor := Returned)
  }

  // ---------------------------------------------------------------- sums over the workers

  function Sum(ws: seq<Pc>, f: Pc -> nat): nat {
    if ws == [] then 0 else f(ws[0]) + Sum(ws[1..], f)
  }

  lemma {:induction false} SumUpdate(ws: seq<Pc>, f: Pc -> nat, w: nat, pc: Pc)
    requires w < |ws|
    ensures Sum(ws[w := pc], f) == Sum(ws, f) - f(ws[w]) + f(pc)
  {
    if w == 0 {
      assert ws[0 := pc][1..] == ws[1..];
    } else {
      assert ws[w := pc][1..] == ws[1..][w - 1 := pc];
      SumUpdate(ws[1..], f, w - 1, pc);
    }
  }

  lemma {:induction false} SumMember(ws: seq<Pc>, f: Pc -> nat, w: nat)
    requires w < |ws|
    ensures Sum(ws, f) >= f(ws[w])
  {
    if w > 0 {
      SumMember(ws[1..], f, w - 1);
    }
  }

  lemma {:induction false} SumZero(ws: seq<Pc>, f: Pc -> nat)
    requires forall i :: 0 <= i < |ws| ==> f(ws[i]) == 0
    ensures Sum(ws, f) == 0
  {
    if ws != [] {
      SumZero(ws[1..], f);
    }
  }

  lemma {:induction false} SumWakeAll(ws: seq<Pc>, f: Pc -> nat)
    ensures f(Asleep) >= f(Ready) ==> Sum(WakeAll(ws), f) <= Sum(ws, f)
    ensures f(Asleep) == f(Ready) ==> Sum(WakeAll(ws), f) == Sum(ws, f)
  {
    if ws != [] {
      SumWakeAll(ws[1..], f);
    }
  }

  function BusyOf(pc: Pc): nat { if pc.Running? || pc.Ran? then 1 else 0 }
  function ReadyOf(pc: Pc): nat { if pc.Ready? then 1 else 0 }

  /** Counts the workers that are running `t` now. */
  function RunningOf(t: Task): Pc -> nat {
    pc => if pc == Running(t) then 1 else 0
  }

  // ---------------------------------------------------------------- the invariant

  /** `pending_tasks_` is the queue plus the workers that have popped and not yet counted down. */
  ghost predicate Accounting(p: Pool) {
    p.pending == |p.tasks| + Sum(p.workers, BusyOf)
  }

  /** No lost wakeup: while a worker sleeps, every queued task is matched by a notification that
      is still owed or by a worker on its way to the mutex. */
  ghost predicate NoLostWakeup(p: Pool) {
    SomeAsleep(p.workers) ==> |p.tasks| <= p.owed + Sum(p.workers, ReadyOf)
  }

  /** Tasks are popped in submit order. */
  ghost predicate Fifo(p: Pool) {
    p.submitted == p.popped + p.tasks
  }

  /** As often as a task was popped, it has finished or is running. */
  ghost predicate RunsOnce(p: Pool) {
    forall t :: multiset(p.popped)[t] == multiset(p.ran)[t] + Sum(p.workers, RunningOf(t))
  }

  ghost predicate Shutdown(p: Pool) {
    && (p.stop <==> p.dtor != NotCalled)
    && (p.stop && p.dtor != Stopping ==> !SomeAsleep(p.workers))
    && (forall i :: 0 <= i < |p.workers| && p.workers[i].Exited? ==> p.stop && p.tasks == [])
    && (p.dtor.Joining? || p.dtor.Returned? ==> p.pending == 0)
    && (p.dtor.Joining? ==> p.dtor.next <= |p.workers| && forall i :: 0 <= i < p.dtor.next ==> p.workers[i].Exited?)
    && (p.dtor.Returned? ==> forall i :: 0 <= i < |p.workers| ==> p.workers[i].Exited?)
  }

  ghost predicate Inv(p: Pool) {
    Accounting(p) && NoLostWakeup(p) && Fifo(p) && RunsOnce(p) && Shutdown(p)
  }

  lemma WorkerMoves(p: Pool, w: nat, pc: Pc)
    requires w < |p.workers|
    ensures var ws := p.workers[w := pc];
            && Sum(ws, BusyOf) == Sum(p.workers, BusyOf) - BusyOf(p.workers[w]) + BusyOf(pc)
            && Sum(ws, ReadyOf) == Sum(p.workers, ReadyOf) - ReadyOf(p.workers[w]) + ReadyOf(pc)
            && (SomeAsleep(ws) && !pc.Asleep? ==> SomeAsleep(p.workers))
  {
    SumUpdate(p.workers, BusyOf, w, pc);
    SumUpdate(p.workers, ReadyOf, w, pc);
  }

  lemma AcquireKeepsInv(p: Pool, w: nat)
    requires Inv(p) && At(p, w, Ready)
    ensures Inv(AcquireRegion(p, w))
  {
    var q := AcquireRegion(p, w);
    WorkerMoves(p, w, q.workers[w]);
    SumMember(p.workers, BusyOf, w);
    AcquireFifo(p, w);
  }

  lemma AcquireFifo(p: Pool, w: nat)
    requires Fifo(p) && RunsOnce(p) && At(p, w, Ready)
    ensures Fifo(AcquireRegion(p, w)) && RunsOnce(AcquireRegion(p, w))
  {
    var q := AcquireRegion(p, w);
    forall t ensures multiset(q.popped)[t] == multiset(q.ran)[t] + Sum(q.workers, RunningOf(t)) {
      SumUpdate(p.workers, RunningOf(t), w, q.workers[w]);
    }
    if p.tasks != [] {
      assert p.tasks == [p.tasks[0]] + p.tasks[1..];
      assert p.popped + [p.tasks[0]] + p.tasks[1..] == p.popped + p.tasks;
    }
  }

  lemma WorkKeepsInv(p: Pool, op: Op)
    requires Inv(p) && Can(p, op) && (op.Finish? || op.Count? || op.Spurious?)
    ensures Inv(Do(p, op))
  {
    var q := Do(p, op);
    WorkerMoves(p, op.w, q.workers[op.w]);
    SumMember(p.workers, BusyOf, op.w);
    WorkFifo(p, op);
  }

  lemma WorkFifo(p: Pool, op: Op)
    requires RunsOnce(p) && Can(p, op) && (op.Finish? || op.Count? || op.Spurious?)
    ensures RunsOnce(Do(p, op))
  {
    var q := Do(p, op);
    forall t ensures multiset(q.popped)[t] == multiset(q.ran)[t] + Sum(q.workers, RunningOf(t)) {
      SumUpdate(p.workers, RunningOf(t), op.w, q.workers[op.w]);
    }
  }

  lemma NotifyKeepsInv(p: Pool, op: Op)
    requires Inv(p) && Can(p, op) && op.Notify?
    ensures Inv(Do(p, op))
  {
    if At(p, op.pick, Asleep) {
      var q := Do(p, op);
      WorkerMoves(p, op.pick, Ready);
      forall t ensures multiset(q.popped)[t] == multiset(q.ran)[t] + Sum(q.workers, RunningOf(t)) {
        SumUpdate(p.workers, RunningOf(t), op.pick, Ready);
      }
    }
  }

  lemma NotifyAllKeepsInv(p: Pool)
    requires Inv(p) && Can(p, NotifyAll)
    ensures Inv(Do(p, NotifyAll))
  {
    var q := Do(p, NotifyAll);
    SumWakeAll(p.workers, BusyOf);
    forall t ensures multiset(q.popped)[t] == multiset(q.ran)[t] + Sum(q.workers, RunningOf(t)) {
      SumWakeAll(p.workers, RunningOf(t));
    }
  }

  lemma StepKeepsInv(p: Pool, op: Op)
    requires Inv(p) && Can(p, op)
    ensures Inv(Do(p, op))
  {
    match op
    case Submit(t) => assert p.popped + (p.tasks + [t]) == p.popped + p.tasks + [t];
    case Notify(_) => NotifyKeepsInv(p, op);
    case NotifyAll => NotifyAllKeepsInv(p);
    case Acquire(w) => AcquireKeepsInv(p, w);
    case Finish(_) => WorkKeepsInv(p, op);
    case Count(_) => WorkKeepsInv(p, op);
    case Spurious(_) => WorkKeepsInv(p, op);
    case SetStop =>
    case EndSpin =>
    case Join =>
    case Leave =>
  }

  // ---------------------------------------------------------------- runs

  function Run(p: Pool, ops: seq<Op>): Option<Pool>
    decreases |ops|
  {
    if ops == [] then Some(p)
    else if Can(p, ops[0]) then Run(Do(p, ops[0]), ops[1..])
    else None
  }

  lemma {:induction false} RunKeepsInv(p: Pool, ops: seq<Op>)
    requires Inv(p)
    ensures Run(p, ops).Some? ==> Inv(Run(p, ops).value) && |Run(p, ops).value.workers| == |p.workers|
    decreases |ops|
  {
    if ops != [] && Can(p, ops[0]) {
      StepKeepsInv(p, ops[0]);
      RunKeepsInv(Do(p, ops[0]), ops[1..]);
    }
  }

  // ---------------------------------------------------------------- what the run itself says

  /** The tasks of the submits of a run, in order. */
  function Submits(ops: seq<Op>): seq<Task> {
    if ops == [] then [] else (if ops[0].Submit? then [ops[0].task] else []) + Submits(ops[1..])
  }

  /** The tasks that workers start, in order: what a worker runs once it has left the mutex. */
  function Starts(p: Pool, ops: seq<Op>): seq<Task>
    requires Run(p, ops).Some?
    decreases |ops|
  {
    if ops == [] then []
    else
      var q := Do(p, ops[0]);
      (if ops[0].Acquire? && q.workers[ops[0].w].Running? then [q.workers[ops[0].w].task] else [])
      + Starts(q, ops[1..])
  }

  /** The tasks that workers finish: what a worker was running. */
  function Ends(p: Pool, ops: seq<Op>): seq<Task>
    requires Run(p, ops).Some?
    decreases |ops|
  {
    if ops == [] then []
    else (if ops[0].Finish? then [p.workers[ops[0].w].task] else []) + Ends(Do(p, ops[0]), ops[1..])
  }

  lemma SeqAssoc(a: seq<Task>, b: seq<Task>, c: seq<Task>)
    ensures a + b + c == a + (b + c)
  {
  }

  lemma StepLogs(p: Pool, op: Op)
    requires Can(p, op)
    ensures var q := Do(p, op);
            && q.submitted == p.submitted + (if op.Submit? then [op.task] else [])
            && q.popped == p.popped + (if op.Acquire? && q.workers[op.w].Running? then [q.workers[op.w].task] else [])
            && q.ran == p.ran + (if op.Finish? then [p.workers[op.w].task] else [])
  {
  }

  /** The three logs are what the run itself says. */
  lemma {:induction false} LogsAreTrue(p: Pool, ops: seq<Op>)
    requires Run(p, ops).Some?
    ensures var q := Run(p, ops).value;
            && q.submitted == p.submitted + Submits(ops)
            && q.popped == p.popped + Starts(p, ops)
            && q.ran == p.ran + Ends(p, ops)
    decreases |ops|
  {
    if ops != [] {
      var q := Do(p, ops[0]);
      StepLogs(p, ops[0]);
      LogsAreTrue(q, ops[1..]);
      SeqAssoc(p.submitted, if ops[0].Submit? then [ops[0].task] else [], Submits(ops[1..]));
      SeqAssoc(p.popped,
               if ops[0].Acquire? && q.workers[ops[0].w].Running? then [q.workers[ops[0].w].task] else [],
               Starts(q, ops[1..]));
      SeqAssoc(p.ran, if ops[0].Finish? then [p.workers[ops[0].w].task] else [], Ends(q, ops[1..]));
    }
  }

  lemma NewLogs(n: nat, ops: seq<Op>)
    requires Run(New(n), ops).Some?
    ensures var p := Run(New(n), ops).value;
            p.submitted == Submits(ops) && p.popped == Starts(New(n), ops) && p.ran == Ends(New(n), ops)
  {
    LogsAreTrue(New(n), ops);
  }

  lemma NewIsInv(n: nat)
    ensures Inv(New(n))
  {
    SumZero(New(n).workers, BusyOf);
    forall t ensures Sum(New(n).workers, RunningOf(t)) == 0 {
      SumZero(New(n).workers, RunningOf(t));
    }
  }

  /** In every reachable state: the counter never underflows; a queued task beside a sleeping
      worker always has a notification owed or a worker on its way; the tasks started, and behind them
      those queued, are the tasks submitted, in order; no task has finished more often than it was
      submitted. */
  lemma EveryReachableState(n: nat, ops: seq<Op>)
    requires Run(New(n), ops).Some?
    ensures var p := Run(New(n), ops).value;
            && p.pending >= |p.tasks|
            && (p.tasks != [] && SomeAsleep(p.workers) ==>
                  p.owed > 0 || exists i :: 0 <= i < |p.workers| && p.workers[i].Ready?)
            && Submits(ops) == Starts(New(n), ops) + p.tasks
            && forall t :: multiset(Ends(New(n), ops))[t] <= multiset(Submits(ops))[t]
  {
    NewIsInv(n);
    NewLogs(n, ops);
    RunKeepsInv(New(n), ops);
    var p := Run(New(n), ops).value;
    if forall i :: 0 <= i < |p.workers| ==> !p.workers[i].Ready? {
      SumZero(p.workers, ReadyOf);
    }
    forall t ensures multiset(p.ran)[t] <= multiset(p.submitted)[t] {
      assert multiset(p.popped)[t] == multiset(p.ran)[t] + Sum(p.workers, RunningOf(t));
    }
  }

  /** When the destructor has returned, every worker has left its loop and every accepted task has
      run exactly as often as it was submitted. */
  lemma ReturnedMeansAllRan(n: nat, ops: seq<Op>)
    requires Run(New(n), ops).Some? && Run(New(n), ops).value.dtor.Returned?
    ensures var p := Run(New(n), ops).value;
            && multiset(Ends(New(n), ops)) == multiset(Submits(ops)) && Starts(New(n), ops) == Submits(ops)
            && forall i :: 0 <= i < |p.workers| ==> p.workers[i].Exited?
  {
    NewIsInv(n);
    NewLogs(n, ops);
    RunKeepsInv(New(n), ops);
    var p := Run(New(n), ops).value;
    assert p.tasks == [];
    forall t ensures multiset(p.ran)[t] == multiset(p.submitted)[t] {
      assert multiset(p.popped)[t] == multiset(p.ran)[t] + Sum(p.workers, RunningOf(t));
      SumZero(p.workers, RunningOf(t));
    }
  }

  // ---------------------------------------------------------------- shutdown

  function WeightOf(pc: Pc): nat {
    match pc
    case Exited => 0
    case Ready => 1
    case Asleep => 2
    case Ran(_) => 2
    case Running(_) => 3
  }

  function DtorWeight(p: Pool): nat {
    match p.dtor
    case NotCalled => |p.workers| + 4
    case Stopping => |p.workers| + 3
    case Spinning => |p.workers| + 2
    case Joining(k) => if k <= |p.workers| then |p.workers| - k + 1 else 0
    case Returned => 0
  }

  /** What is left to do once `stop_` is set. */
  function Work(p: Pool): nat {
    3 * |p.tasks| + Sum(p.workers, WeightOf) + p.owed + DtorWeight(p)
  }

  /** Every step after `stop_` makes progress; only the polling of the counter is left out. */
  lemma WorkDecreases(p: Pool, op: Op)
    requires Inv(p) && p.stop && Can(p, op)
    ensures Do(p, op).stop && Work(Do(p, op)) < Work(p)
  {
    match op
    case Submit(_) =>
    case Notify(pick) =>
      if At(p, pick, Asleep) {
        SumUpdate(p.workers, WeightOf, pick, Ready);
      }
    case Acquire(w) => SumUpdate(p.workers, WeightOf, w, Do(p, op).workers[w]);
    case Finish(w) => SumUpdate(p.workers, WeightOf, w, Do(p, op).workers[w]);
    case Count(w) => SumUpdate(p.workers, WeightOf, w, Do(p, op).workers[w]);
    case Spurious(w) => SumUpdate(p.workers, WeightOf, w, Do(p, op).workers[w]);
    case SetStop =>
    case NotifyAll => SumWakeAll(p.workers, WeightOf);
    case EndSpin =>
    case Join =>
    case Leave =>
  }

  /** The destructor is never stuck: as long as it has not returned, somebody can take a step,
      provided there is a worker or nothing was left in the queue. */
  lemma NeverStuck(p: Pool) returns (op: Op)
    requires Inv(p) && p.stop && !p.dtor.Returned? && (p.workers != [] || p.tasks == [])
    ensures Can(p, op)
  {
    if p.dtor == Stopping {
      return NotifyAll;
    }
    if w :| 0 <= w < |p.workers| && (p.workers[w].Running? || p.workers[w].Ran?) {
      return if p.workers[w].Running? then Finish(w) else Count(w);
    }
    SumZero(p.workers, BusyOf);
    if p.tasks != [] {
      assert p.workers[0].Ready?;
      return Acquire(0);
    }
    match p.dtor
    case Spinning => op := EndSpin;
    case Joining(k) =>
      if k == |p.workers| {
        op := Leave;
      } else {
        op := if p.workers[k].Exited? then Join else Acquire(k);
      }
  }

  /** No run after `stop_` is longer than the work that was left when it started. */
  lemma {:induction false} ShutdownIsBounded(p: Pool, ops: seq<Op>)
    requires Inv(p) && p.stop && Run(p, ops).Some?
    ensures |ops| <= Work(p)
    decreases |ops|
  {
    if ops != [] {
      StepKeepsInv(p, ops[0]);
      WorkDecreases(p, ops[0]);
      ShutdownIsBounded(Do(p, ops[0]), ops[1..]);
    }
  }

  lemma {:induction false} ShutdownRun(p: Pool) returns (ops: seq<Op>)
    requires Inv(p) && p.stop && (p.workers != [] || p.tasks == [])
    ensures Run(p, ops).Some? && Run(p, ops).value.dtor.Returned?
    decreases Work(p)
  {
    if p.dtor.Returned? {
      return [];
    }
    var op := NeverStuck(p);
    StepKeepsInv(p, op);
    WorkDecreases(p, op);
    var rest := ShutdownRun(Do(p, op));
    ops := [op] + rest;
    assert ops[1..] == rest;
  }

  lemma {:induction false} NoWorkerNoReturn(p: Pool, ops: seq<Op>)
    requires Inv(p) && p.workers == [] && p.tasks != [] && Run(p, ops).Some?
    ensures !Run(p, ops).value.dtor.Returned?
    decreases |ops|
  {
    assert !p.dtor.Returned?;
    if ops != [] {
      StepKeepsInv(p, ops[0]);
      assert Do(p, ops[0]).tasks != [];
      NoWorkerNoReturn(Do(p, ops[0]), ops[1..]);
    }
  }

  ghost predicate EndsReturned(p: Pool, ops: seq<Op>) {
    Run(p, ops).Some? && Run(p, ops).value.dtor.Returned?
  }

  /** Once stopped, the destructor can return if and only if the pool has a worker or has nothing
      queued; a pool of size 0 with a queued task spins for ever. Together with `WorkDecreases` and
      `NeverStuck`, every run that keeps taking steps ends with the destructor returned. */
  lemma DestructorReturnsExactly(p: Pool)
    requires Inv(p) && p.stop
    ensures (exists ops :: EndsReturned(p, ops)) <==> p.workers != [] || p.tasks == []
  {
    if p.workers != [] || p.tasks == [] {
      var ops := ShutdownRun(p);
      assert EndsReturned(p, ops);
    } else {
      forall ops | Run(p, ops).Some? ensures !Run(p, ops).value.dtor.Returned? {
        NoWorkerNoReturn(p, ops);
      }
    }
  }

  // ---------------------------------------------------------------- the class

  /** The fields of the pool and the position of each worker. */
  class ThreadPool {
    var stop: bool
    var pending: int
    var tasks: seq<Task>
    var workers: seq<Pc>
    var owed: nat
    var dtor: Dtor
    ghost var submitted: seq<Task>
    ghost var popped: seq<Task>
    ghost var ran: seq<Task>

    ghost function Abs(): Pool
      reads this
    {
      Pool(stop, pending, tasks, workers, owed, dtor, submitted, popped, ran)
    }

    ghost predicate Valid()
      reads this
    {
      Inv(Abs())
    }

    constructor (n: nat)
      ensures Valid() && Abs() == New(n)
    {
      stop, pending, tasks, owed, dtor := false, 0, [], 0, NotCalled;
      workers := seq(n, _ => Ready);
      submitted, popped, ran := [], [], [];
      new;
      NewIsInv(n);
    }

    /** `submit` up to the release of the mutex; `ok` is false when it throws. */
    method Submit(task: Task) returns (ok: bool)
      requires Valid()
      modifies this
      ensures Valid() && ok == !old(stop)
      ensures Abs() == if ok then Do(old(Abs()), Op.Submit(task)) else old(Abs())
      ensures tasks == if ok then old(tasks) + [task] else old(tasks)
    {
      if stop {
        return false;
      }
      StepKeepsInv(Abs(), Op.Submit(task));
      tasks, submitted := tasks + [task], submitted + [task];
      pending := pending + 1;
      owed := owed + 1;
      ok := true;
    }

    /** `condition_.notify_one()`, after the mutex was released. */
    method NotifyOne(pick: nat)
      requires Valid() && Can(Abs(), Notify(pick))
      modifies this
      ensures Valid() && Abs() == Do(old(Abs()), Notify(pick))
    {
      StepKeepsInv(Abs(), Notify(pick));
      owed := owed - 1;
      if pick < |workers| && workers[pick].Asleep? {
        workers := workers[pick := Ready];
      }
    }

    /** The locked region of `worker_loop_`. */
    method TakeTask(w: nat)
      requires Valid() && Can(Abs(), Acquire(w))
      modifies this
      ensures Valid() && Abs() == Do(old(Abs()), Acquire(w))
      ensures old(tasks) != [] ==> workers[w] == Running(old(tasks)[0]) && tasks == old(tasks)[1..]
    {
      StepKeepsInv(Abs(), Acquire(w));
      if !(stop || tasks != []) {
        workers := workers[w := Asleep];
        return;
      }
      if stop && tasks == [] {
        workers := workers[w := Exited];
        return;
      }
      workers := workers[w := Running(tasks[0])];
      tasks, popped := tasks[1..], popped + [tasks[0]];
    }

    /** `task()` returns and, later, `pending_tasks_--`. */
    method FinishTask(w: nat)
      requires Valid() && Can(Abs(), Finish(w))
      modifies this
      ensures Valid() && Abs() == Do(old(Abs()), Finish(w))
    {
      StepKeepsInv(Abs(), Finish(w));
      ran := ran + [workers[w].task];
      workers := workers[w := Ran(workers[w].task)];
    }

    method CountDown(w: nat)
      requires Valid() && Can(Abs(), Count(w))
      modifies this
      ensures Valid() && Abs() == Do(old(Abs()), Count(w)) && pending >= 0
    {
      StepKeepsInv(Abs(), Count(w));
      pending := pending - 1;
      workers := workers[w := Ready];
    }

    method SetStopFlag()
      requires Valid() && dtor == NotCalled
      modifies this
      ensures Valid() && Abs() == Do(old(Abs()), SetStop)
    {
      StepKeepsInv(Abs(), SetStop);
      stop, dtor := true, Stopping;
    }

    /** `condition_.notify_all()`: from here on no worker sleeps. */
    method NotifyEverybody()
      requires Valid() && dtor == Stopping
      modifies this
      ensures Valid() && Abs() == Do(old(Abs()), NotifyAll)
      ensures forall i :: 0 <= i < |workers| ==> !workers[i].Asleep?
    {
      StepKeepsInv(Abs(), NotifyAll);
      workers, dtor := WakeAll(workers), Spinning;
    }

    /** The rest of the destructor: the test of the counter, one `join`, the return. */
    method DestructorStep() returns (moved: bool)
      requires Valid() && (dtor == Spinning || dtor.Joining?)
      modifies this
      ensures Valid()
      ensures !moved ==> Abs() == old(Abs())
      ensures moved ==> exists op :: op in {EndSpin, Join, Leave} && Can(old(Abs()), op) && Abs() == Do(old(Abs()), op)
    {
      ghost var op := EndSpin;
      moved := true;
      if dtor == Spinning {
        moved := pending <= 0;
        op := EndSpin;
        dtor := if moved then Joining(0) else dtor;
      } else if dtor.next == |workers| {
        op := Leave;
        dtor := Returned;
      } else {
        moved := dtor.next < |workers| && workers[dtor.next].Exited?;
        op := Join;
        dtor := if moved then Joining(dtor.next + 1) else dtor;
      }
      if moved {
        assert Can(old(Abs()), op);
        StepKeepsInv(old(Abs()), op);
      }
    }
  }
}
