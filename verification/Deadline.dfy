/** Runs with a clock: if every task ends less than IDLE_LIMIT after the read that submitted it, no
    tick closes a descriptor whose task waits or runs. */
module Deadline {
  import opened Text
  import opened Reactor
  import opened Ownership
  import opened WireStream
  import H = HttpConn
  import O = Outgoing
  import T = Timer

  /** A queued or running task, and the time of the read that submitted it. */
  datatype Task = Task(fd: int, since: int)

  /** The server, the latest clock reading, and the tasks behind `queue` and `running`. */
  datatype Timed = Timed(s: State, clock: int, queued: seq<Task>, running: seq<Task>)

  /** A step of any thread and when it is taken; a task that ends is named by its position. */
  datatype Stamped = Stamped(op: Op, at: int, which: nat)

  function Begin(clock: int): Timed {
    Timed(Start(), clock, [], [])
  }

  /** The clock reading a handler makes is that of its step. */
  predicate Reads(op: Op, at: int) {
    match op
    case Accept(_, _, now) => now == at
    case Tick(now) => now == at
    case ReadNow(_, now) => now == at
    case WriteNow(_, now) => now == at
    case _ => true
  }

  /** The clock does not run backwards. */
  predicate Allowed(t: Timed, e: Stamped) {
    && Can(t.s, e.op) && t.clock <= e.at && Reads(e.op, e.at)
    && (e.op.Take? ==> t.queued != [])
    && (e.op.Finish? ==> e.which < |t.running| && t.running[e.which].fd == e.op.fd)
  }

  function Drop(tasks: seq<Task>, k: nat): seq<Task>
    requires k < |tasks|
  {
    tasks[..k] + tasks[k + 1..]
  }

  function Next(t: Timed, e: Stamped): Timed
    requires Allowed(t, e)
  {
    var u := Do(t.s, e.op);
    match e.op
    case ReadNow(_, _) =>
      var submitted := u.queue != t.s.queue;
      Timed(u, e.at, if submitted then t.queued + [Task(t.s.main.value.fd, e.at)] else t.queued, t.running)
    case Take => Timed(u, e.at, t.queued[1..], t.running + [t.queued[0]])
    case Finish(_, _) => Timed(u, e.at, t.queued, Drop(t.running, e.which))
    case _ => Timed(u, e.at, t.queued, t.running)
  }

  predicate TimedRun(t: Timed, steps: seq<Stamped>)
    decreases |steps|
  {
    steps == [] || (Allowed(t, steps[0]) && TimedRun(Next(t, steps[0]), steps[1..]))
  }

  function Final(t: Timed, steps: seq<Stamped>): Timed
    requires TimedRun(t, steps)
    decreases |steps|
  {
    if steps == [] then t else Final(Next(t, steps[0]), steps[1..])
  }

  function Ops(steps: seq<Stamped>): seq<Op> {
    if steps == [] then [] else [steps[0].op] + Ops(steps[1..])
  }

  // ---------------------------------------------------------------- the hypothesis

  /** Every task that ends in this run ends less than IDLE_LIMIT after it was submitted. */
  predicate Prompt(t: Timed, steps: seq<Stamped>)
    requires TimedRun(t, steps)
    decreases |steps|
  {
    steps == [] ||
    (&& (steps[0].op.Finish? ==> steps[0].at < t.running[steps[0].which].since + T.IDLE_LIMIT)
     && Prompt(Next(t, steps[0]), steps[1..]))
  }

  /** At the end of the run no task is left. */
  predicate Completes(t: Timed, steps: seq<Stamped>)
    requires TimedRun(t, steps)
  {
    Final(t, steps).queued == [] && Final(t, steps).running == []
  }

  /** No tick of this run reports a descriptor whose task waits or runs. */
  predicate TicksSpareTasks(t: Timed, steps: seq<Stamped>)
    requires TimedRun(t, steps)
    decreases |steps|
  {
    steps == [] ||
    (&& (steps[0].op.Tick? ==> forall fd :: fd in T.Expired(t.s.timer, steps[0].at) ==>
           fd !in t.s.queue && fd !in t.s.running)
     && TicksSpareTasks(Next(t, steps[0]), steps[1..]))
  }

  // ---------------------------------------------------------------- tasks and descriptors

  function Count(tasks: seq<Task>, fd: int): nat {
    if tasks == [] then 0 else (if tasks[0].fd == fd then 1 else 0) + Count(tasks[1..], fd)
  }

  lemma {:induction false} CountAppend(a: seq<Task>, b: seq<Task>, fd: int)
    ensures Count(a + b, fd) == Count(a, fd) + Count(b, fd)
  {
    if a == [] {
      assert a + b == b;
    } else {
      assert (a + b)[1..] == a[1..] + b;
      CountAppend(a[1..], b, fd);
    }
  }

  lemma CountOne(k: Task, fd: int)
    ensures Count([k], fd) == if k.fd == fd then 1 else 0
  {
    assert [k][1..] == [];
  }

  lemma CountDrop(tasks: seq<Task>, k: nat, fd: int)
    requires k < |tasks|
    ensures Count(Drop(tasks, k), fd) == Count(tasks, fd) - if tasks[k].fd == fd then 1 else 0
  {
    assert tasks == tasks[..k] + ([tasks[k]] + tasks[k + 1..]);
    CountAppend(tasks[..k], [tasks[k]] + tasks[k + 1..], fd);
    CountAppend([tasks[k]], tasks[k + 1..], fd);
    CountOne(tasks[k], fd);
    CountAppend(tasks[..k], tasks[k + 1..], fd);
  }

  lemma {:induction false} CountMember(tasks: seq<Task>, fd: int)
    requires Count(tasks, fd) > 0
    ensures exists k :: k in tasks && k.fd == fd
  {
    if tasks[0].fd == fd {
      assert tasks[0] in tasks;
    } else {
      CountMember(tasks[1..], fd);
      var k :| k in tasks[1..] && k.fd == fd;
      assert k in tasks;
    }
  }

  /** The tasks behind the queue, in order, and behind the workers. */
  ghost predicate Matches(t: Timed) {
    && |t.queued| == |t.s.queue| && (forall i :: 0 <= i < |t.queued| ==> t.queued[i].fd == t.s.queue[i])
    && forall fd :: Count(t.running, fd) == t.s.running[fd]
  }

  predicate Outstanding(t: Timed, k: Task) {
    k in t.queued || k in t.running
  }

  /** No task is older than the last activity of the connection it works for. */
  ghost predicate Fresh(t: Timed) {
    forall k :: Outstanding(t, k) ==>
      k.since <= t.clock && (k.fd in t.s.conns ==> k.since <= t.s.conns[k.fd].last)
  }

  ghost predicate TaskInv(t: Timed) {
    Matches(t) && Fresh(t)
  }

  lemma ReadQueue(s: State, recvs: seq<H.Recv>, now: int)
    requires Can(s, ReadNow(recvs, now))
    ensures var u := Do(s, ReadNow(recvs, now));
            && u.running == s.running
            && u.queue == (if u.queue != s.queue then s.queue + [s.main.value.fd] else s.queue)
  {
  }

  /** Only these three kinds of steps move tasks. */
  lemma {:induction false} CloseAllTasks(s: State, fds: seq<int>)
    ensures CloseAll(s, fds).queue == s.queue && CloseAll(s, fds).running == s.running
    decreases |fds|
  {
    if fds != [] {
      CloseAllTasks(Close(s, fds[0]), fds[1..]);
    }
  }

  lemma OtherSteps(s: State, op: Op)
    requires Can(s, op) && !op.ReadNow? && !op.Take? && !op.Finish?
    ensures Do(s, op).queue == s.queue && Do(s, op).running == s.running
  {
    if op.Tick? {
      CloseAllTasks(s.(main := None, timer := T.Kept(s.timer, op.now)), T.Expired(s.timer, op.now));
    }
  }

  lemma NextMatches(t: Timed, e: Stamped)
    requires Matches(t) && Allowed(t, e)
    ensures Matches(Next(t, e))
  {
    match e.op
    case ReadNow(recvs, now) => ReadQueue(t.s, recvs, now);
    case Take =>
      forall fd ensures Count(Next(t, e).running, fd) == Next(t, e).s.running[fd] {
        CountAppend(t.running, [t.queued[0]], fd);
        CountOne(t.queued[0], fd);
      }
    case Finish(_, _) =>
      forall fd ensures Count(Next(t, e).running, fd) == Next(t, e).s.running[fd] {
        CountDrop(t.running, e.which, fd);
      }
    case _ => OtherSteps(t.s, e.op);
  }

  /** The time of last activity of a connection is kept or becomes the time of the step. */
  lemma LastMoves(s: State, op: Op, at: int, fd: int)
    requires Agreement(s) && Can(s, op) && Reads(op, at) && fd in Do(s, op).conns
    ensures (fd in s.conns && Do(s, op).conns[fd].last == s.conns[fd].last) || Do(s, op).conns[fd].last == at
  {
    match op
    case Tick(now) => TickEffect(s, now);
    case ReadNow(recvs, now) => ReadMoves(s.(main := None), s.main.value.fd, recvs, now, fd);
    case WriteNow(offers, now) => WriteMoves(s.(main := None), s.main.value.fd, offers, now, fd);
    case Finish(on, env) => FinishMoves(s, on, env, fd);
    case _ =>
  }

  lemma FinishMoves(s: State, on: int, env: H.Env, fd: int)
    requires fd in DoFinish(s, on, env).conns
    ensures fd in s.conns && DoFinish(s, on, env).conns[fd].last == s.conns[fd].last
  {
  }

  lemma ReadMoves(s: State, on: int, recvs: seq<H.Recv>, now: int, fd: int)
    requires fd in DoRead(s, on, recvs, now).conns
    ensures fd in s.conns
    ensures var t := DoRead(s, on, recvs, now); t.conns[fd].last == s.conns[fd].last || t.conns[fd].last == now
  {
  }

  lemma WriteMoves(s: State, on: int, offers: seq<O.Offer>, now: int, fd: int)
    requires fd in DoWrite(s, on, offers, now).conns
    ensures fd in s.conns
    ensures var t := DoWrite(s, on, offers, now); t.conns[fd].last == s.conns[fd].last || t.conns[fd].last == now
  {
    if on in s.conns {
      var r := O.Write(s.conns[on].h.out, offers);
      if r.done {
        FlushedMoves(s, on, AfterWrite(s.conns[on], r, now), now, fd);
      }
    }
  }

  lemma FlushedMoves(s: State, on: int, c: Conn, now: int, fd: int)
    requires on in s.conns && fd in DoFlushed(s, on, c, now).conns
    ensures fd in s.conns
    ensures var t := DoFlushed(s, on, c, now); t.conns[fd].last == s.conns[fd].last || t.conns[fd].last == c.last
  {
  }

  lemma NextOutstanding(t: Timed, e: Stamped, k: Task)
    requires Allowed(t, e) && Outstanding(Next(t, e), k)
    ensures Outstanding(t, k) || (e.op.ReadNow? && k == Task(t.s.main.value.fd, e.at))
  {
  }

  lemma ReadIsActivity(s: State, recvs: seq<H.Recv>, now: int)
    requires Can(s, ReadNow(recvs, now)) && Do(s, ReadNow(recvs, now)).queue != s.queue
    ensures var u := Do(s, ReadNow(recvs, now)); var fd := s.main.value.fd; fd in u.conns && u.conns[fd].last == now
  {
  }

  lemma NextFresh(t: Timed, e: Stamped)
    requires Agreement(t.s) && Fresh(t) && Allowed(t, e)
    ensures Fresh(Next(t, e))
  {
    var u := Next(t, e);
    forall k | Outstanding(u, k)
      ensures k.since <= u.clock && (k.fd in u.s.conns ==> k.since <= u.s.conns[k.fd].last)
    {
      NextOutstanding(t, e, k);
      if k.fd in u.s.conns {
        LastMoves(t.s, e.op, e.at, k.fd);
        if !Outstanding(t, k) {
          ReadIsActivity(t.s, e.op.recvs, e.op.now);
        }
      }
    }
  }

  lemma NextInv(t: Timed, e: Stamped)
    requires Agreement(t.s) && TaskInv(t) && Allowed(t, e)
    ensures Agreement(Next(t, e).s) && TaskInv(Next(t, e))
  {
    StepAgrees(t.s, e.op);
    NextMatches(t, e);
    NextFresh(t, e);
  }

  // ---------------------------------------------------------------- the deadline

  /** A task that is still to end in a prompt run is younger than IDLE_LIMIT. */
  lemma {:induction false} StillYoung(t: Timed, steps: seq<Stamped>, k: Task)
    requires TimedRun(t, steps) && Prompt(t, steps) && Completes(t, steps) && Outstanding(t, k)
    ensures t.clock < k.since + T.IDLE_LIMIT
    decreases |steps|
  {
    if steps != [] {
      var e := steps[0];
      if !(e.op.Finish? && t.running[e.which] == k) {
        StaysOutstanding(t, e, k);
        StillYoung(Next(t, e), steps[1..], k);
      }
    }
  }

  lemma StaysOutstanding(t: Timed, e: Stamped, k: Task)
    requires Allowed(t, e) && Outstanding(t, k) && !(e.op.Finish? && t.running[e.which] == k)
    ensures Outstanding(Next(t, e), k)
  {
    match e.op
    case Take =>
      assert t.queued == [t.queued[0]] + t.queued[1..];
    case Finish(_, _) =>
      if k in t.running {
        var i :| 0 <= i < |t.running| && t.running[i] == k;
        assert Drop(t.running, e.which)[if i < e.which then i else i - 1] == k;
      }
    case _ =>
  }

  /** A tick of a prompt run meets only descriptors whose tasks are younger than IDLE_LIMIT. */
  lemma TickMeetsYoung(t: Timed, steps: seq<Stamped>, fd: int)
    requires TimedRun(t, steps) && Prompt(t, steps) && Completes(t, steps) && TaskInv(t)
    requires steps != [] && steps[0].op.Tick?
    requires fd in t.s.conns && (fd in t.s.queue || fd in t.s.running)
    ensures steps[0].at < t.s.conns[fd].last + T.IDLE_LIMIT
  {
    var k := TaskOf(t, fd);
    StaysOutstanding(t, steps[0], k);
    StillYoung(Next(t, steps[0]), steps[1..], k);
  }

  lemma TaskOf(t: Timed, fd: int) returns (k: Task)
    requires Matches(t) && (fd in t.s.queue || fd in t.s.running)
    ensures Outstanding(t, k) && k.fd == fd
  {
    if fd in t.s.queue {
      var i :| 0 <= i < |t.s.queue| && t.s.queue[i] == fd;
      k := t.queued[i];
    } else {
      CountMember(t.running, fd);
      k :| k in t.running && k.fd == fd;
    }
  }

  lemma {:induction false} PromptSpares(t: Timed, steps: seq<Stamped>)
    requires TimedRun(t, steps) && Prompt(t, steps) && Completes(t, steps) && Agreement(t.s) && TaskInv(t)
    ensures TicksSpareTasks(t, steps)
    decreases |steps|
  {
    if steps != [] {
      var e := steps[0];
      if e.op.Tick? {
        TickEffect(t.s, e.at);
        forall fd | fd in T.Expired(t.s.timer, e.at) ensures fd !in t.s.queue && fd !in t.s.running {
          assert fd in SetOf(T.Expired(t.s.timer, e.at));
          if fd in t.s.queue || fd in t.s.running {
            TickMeetsYoung(t, steps, fd);
          }
        }
      }
      NextInv(t, e);
      PromptSpares(Next(t, e), steps[1..]);
    }
  }

  /** The deadline theorem, for every run from the start with a clock that does not run backwards,
      safe or not: if each task ends less than IDLE_LIMIT after the read that submitted it, no tick
      reports a descriptor whose task waits or runs. */
  lemma PromptTasksAreSpared(clock: int, steps: seq<Stamped>)
    requires TimedRun(Begin(clock), steps) && Prompt(Begin(clock), steps) && Completes(Begin(clock), steps)
    ensures TicksSpareTasks(Begin(clock), steps)
  {
    PromptSpares(Begin(clock), steps);
  }

  // ---------------------------------------------------------------- submission and activity

  /** While its task is outstanding, the last activity of a connection is the read that submitted it. */
  ghost predicate SinceIsLast(t: Timed) {
    forall k :: Outstanding(t, k) ==> k.fd in t.s.conns && t.s.conns[k.fd].last == k.since
  }

  lemma {:induction false} MemberCount(tasks: seq<Task>, k: Task)
    requires k in tasks
    ensures Count(tasks, k.fd) > 0
  {
    if tasks[0] != k {
      assert tasks == [tasks[0]] + tasks[1..];
      MemberCount(tasks[1..], k);
    }
  }

  lemma BusyFd(t: Timed, k: Task)
    requires Matches(t) && Outstanding(t, k)
    ensures k.fd in t.s.queue || k.fd in t.s.running
  {
    if k in t.running {
      MemberCount(t.running, k);
    } else {
      var i :| 0 <= i < |t.queued| && t.queued[i] == k;
      assert t.s.queue[i] == k.fd;
    }
  }

  lemma BusyElsewhere(s: State, fd: int)
    requires OneOwner(s) && fd in s.conns && (fd in s.queue || fd in s.running)
    ensures fd !in s.armed && MainFd(s) != Some(fd)
  {
    assert Owners(s, fd) == 1;
  }

  /** Nobody else touches a connection whose task waits or runs. */
  lemma BusyKeepsLast(s: State, op: Op, fd: int)
    requires Agreement(s) && OneOwner(s) && Can(s, op) && Safe(s, op)
    requires fd in s.conns && (fd in s.queue || fd in s.running)
    ensures fd in Do(s, op).conns && Do(s, op).conns[fd].last == s.conns[fd].last
  {
    BusyElsewhere(s, fd);
    if op.Tick? {
      TickEffect(s, op.now);
    } else {
      OthersKeepLast(s, op, fd);
    }
  }

  lemma OthersKeepLast(s: State, op: Op, fd: int)
    requires Can(s, op) && !op.Tick? && fd in s.conns && MainFd(s) != Some(fd)
    ensures fd in Do(s, op).conns && Do(s, op).conns[fd].last == s.conns[fd].last
  {
    match op
    case ReadNow(recvs, now) => OtherRead(s.(main := None), s.main.value.fd, recvs, now, fd);
    case WriteNow(offers, now) => OtherWrite(s.(main := None), s.main.value.fd, offers, now, fd);
    case Finish(on, env) => FinishMoves(s, on, env, fd);
    case CloseNow => OtherClose(s.(main := None), s.main.value.fd, fd);
    case _ =>
  }

  lemma OtherClose(s: State, on: int, fd: int)
    requires fd in s.conns && fd != on
    ensures fd in Close(s, on).conns && Close(s, on).conns[fd] == s.conns[fd]
  {
  }

  lemma OtherRead(s: State, on: int, recvs: seq<H.Recv>, now: int, fd: int)
    requires fd in s.conns && fd != on
    ensures var t := DoRead(s, on, recvs, now); fd in t.conns && t.conns[fd] == s.conns[fd]
  {
  }

  lemma OtherWrite(s: State, on: int, offers: seq<O.Offer>, now: int, fd: int)
    requires fd in s.conns && fd != on
    ensures var t := DoWrite(s, on, offers, now); fd in t.conns && t.conns[fd] == s.conns[fd]
  {
  }

  lemma NextSince(t: Timed, e: Stamped)
    requires Agreement(t.s) && OneOwner(t.s) && Matches(t) && SinceIsLast(t) && Allowed(t, e) && Safe(t.s, e.op)
    ensures SinceIsLast(Next(t, e))
  {
    var u := Next(t, e);
    forall k | Outstanding(u, k) ensures k.fd in u.s.conns && u.s.conns[k.fd].last == k.since {
      NextOutstanding(t, e, k);
      if Outstanding(t, k) {
        BusyFd(t, k);
        BusyKeepsLast(t.s, e.op, k.fd);
      } else {
        ReadIsActivity(t.s, e.op.recvs, e.op.now);
      }
    }
  }

  lemma {:induction false} SinceFrom(t: Timed, steps: seq<Stamped>)
    requires TimedRun(t, steps) && SafeRun(t.s, Ops(steps)) && Inv(t.s) && TaskInv(t) && SinceIsLast(t)
    ensures SinceIsLast(Final(t, steps))
    decreases |steps|
  {
    if steps != [] {
      var e := steps[0];
      assert Ops(steps)[0] == e.op && Ops(steps)[1..] == Ops(steps[1..]);
      StepKeepsInv(t.s, e.op);
      NextInv(t, e);
      NextSince(t, e);
      SinceFrom(Next(t, e), steps[1..]);
    }
  }

  /** In every reachable state of a safe run with a clock, the last activity of a connection whose
      task waits or runs is exactly the read that submitted the task. */
  lemma SubmittedIsLast(clock: int, steps: seq<Stamped>)
    requires TimedRun(Begin(clock), steps) && SafeRun(Start(), Ops(steps))
    ensures SinceIsLast(Final(Begin(clock), steps))
  {
    SinceFrom(Begin(clock), steps);
  }

  // ---------------------------------------------------------------- the order of tasks

  /** The queue is in order of submission, so a worker takes the task that has waited longest. */
  ghost predicate OldestFirst(t: Timed) {
    && (forall i, j :: 0 <= i < j < |t.queued| ==> t.queued[i].since <= t.queued[j].since)
    && forall i :: 0 <= i < |t.queued| ==> t.queued[i].since <= t.clock
  }

  lemma NextOrder(t: Timed, e: Stamped)
    requires OldestFirst(t) && Allowed(t, e)
    ensures OldestFirst(Next(t, e))
  {
  }

  lemma {:induction false} OrderFrom(t: Timed, steps: seq<Stamped>)
    requires TimedRun(t, steps) && Agreement(t.s) && TaskInv(t) && OldestFirst(t)
    ensures OldestFirst(Final(t, steps)) && Matches(Final(t, steps))
    decreases |steps|
  {
    if steps != [] {
      NextInv(t, steps[0]);
      NextOrder(t, steps[0]);
      OrderFrom(Next(t, steps[0]), steps[1..]);
    }
  }

  /** In every run with a clock that does not run backwards the queued descriptors are, in order, those
      of tasks in the order in which the reads submitted them. */
  lemma TasksInOrder(clock: int, steps: seq<Stamped>)
    requires TimedRun(Begin(clock), steps)
    ensures var t := Final(Begin(clock), steps);
            && OldestFirst(t) && |t.queued| == |t.s.queue|
            && forall i :: 0 <= i < |t.queued| ==> t.queued[i].fd == t.s.queue[i]
  {
    OrderFrom(Begin(clock), steps);
  }

  // ---------------------------------------------------------------- the idle window

  /** Activity on a descriptor: it is accepted, a read of it succeeds, or a write completes. */
  predicate Active(s: State, op: Op, fd: int)
    requires Can(s, op)
  {
    match op
    case Accept(f, _, _) => f == fd && fd < 65536
    case ReadNow(recvs, _) =>
      MainFd(s) == Some(fd) && fd in s.conns && H.ReadCall(s.conns[fd].h.parser.readBuf, recvs).0
    case WriteNow(offers, _) =>
      MainFd(s) == Some(fd) && fd in s.conns && O.Write(s.conns[fd].h.out, offers).done
    case _ => false
  }

  /** The time of the last activity on `fd` in a run, if `when` was the last before it. */
  function LastActive(t: Timed, steps: seq<Stamped>, fd: int, when: int): int
    requires TimedRun(t, steps)
    decreases |steps|
  {
    if steps == [] then when
    else LastActive(Next(t, steps[0]), steps[1..], fd, if Active(t.s, steps[0].op, fd) then steps[0].at else when)
  }

  lemma ActiveIsLast(s: State, op: Op, at: int, fd: int)
    requires Agreement(s) && Can(s, op) && Reads(op, at) && fd in Do(s, op).conns
    ensures if Active(s, op, fd) then Do(s, op).conns[fd].last == at
            else fd in s.conns && Do(s, op).conns[fd].last == s.conns[fd].last
  {
    match op
    case Tick(now) => TickEffect(s, now);
    case ReadNow(recvs, now) =>
      if s.main.value.fd != fd {
        ReadMoves(s.(main := None), s.main.value.fd, recvs, now, fd);
        OtherRead(s.(main := None), s.main.value.fd, recvs, now, fd);
      }
    case WriteNow(offers, now) =>
      if s.main.value.fd != fd {
        WriteMoves(s.(main := None), s.main.value.fd, offers, now, fd);
        OtherWrite(s.(main := None), s.main.value.fd, offers, now, fd);
      } else {
        OwnWrite(s.(main := None), fd, offers, now);
      }
    case Finish(on, env) => FinishMoves(s, on, env, fd);
    case _ =>
  }

  lemma OwnWrite(s: State, fd: int, offers: seq<O.Offer>, now: int)
    requires fd in DoWrite(s, fd, offers, now).conns
    ensures fd in s.conns
    ensures DoWrite(s, fd, offers, now).conns[fd].last ==
            if O.Write(s.conns[fd].h.out, offers).done then now else s.conns[fd].last
  {
  }

  lemma {:induction false} LastFrom(t: Timed, steps: seq<Stamped>, fd: int, when: int)
    requires TimedRun(t, steps) && Agreement(t.s)
    requires fd in t.s.conns ==> t.s.conns[fd].last == when
    ensures fd in Final(t, steps).s.conns ==> Final(t, steps).s.conns[fd].last == LastActive(t, steps, fd, when)
    decreases |steps|
  {
    if steps != [] {
      var e := steps[0];
      StepAgrees(t.s, e.op);
      if fd in Next(t, e).s.conns {
        ActiveIsLast(t.s, e.op, e.at, fd);
      }
      LastFrom(Next(t, e), steps[1..], fd, if Active(t.s, e.op, fd) then e.at else when);
    }
  }

  /** The time of the last tick of a run that comes after one at `tick`. */
  function LastTick(tick: int, steps: seq<Stamped>): int
    decreases |steps|
  {
    if steps == [] then tick else LastTick(if steps[0].op.Tick? then steps[0].at else tick, steps[1..])
  }

  /** No open connection was idle for IDLE_LIMIT at the last tick. */
  ghost predicate Ticked(t: Timed, tick: int) {
    tick <= t.clock && forall fd :: fd in t.s.conns ==> tick < t.s.conns[fd].last + T.IDLE_LIMIT
  }

  lemma NextTicked(t: Timed, e: Stamped, tick: int)
    requires Agreement(t.s) && Ticked(t, tick) && Allowed(t, e)
    ensures Ticked(Next(t, e), if e.op.Tick? then e.at else tick)
  {
    var u := Next(t, e);
    forall fd | fd in u.s.conns
      ensures (if e.op.Tick? then e.at else tick) < u.s.conns[fd].last + T.IDLE_LIMIT
    {
      LastMoves(t.s, e.op, e.at, fd);
      if e.op.Tick? {
        TickEffect(t.s, e.at);
      }
    }
  }

  lemma {:induction false} TickedFrom(t: Timed, steps: seq<Stamped>, tick: int)
    requires TimedRun(t, steps) && Agreement(t.s) && Ticked(t, tick)
    ensures Agreement(Final(t, steps).s) && Ticked(Final(t, steps), LastTick(tick, steps))
    decreases |steps|
  {
    if steps != [] {
      NextTicked(t, steps[0], tick);
      StepAgrees(t.s, steps[0].op);
      TickedFrom(Next(t, steps[0]), steps[1..], if steps[0].op.Tick? then steps[0].at else tick);
    }
  }

  /** The idle window of the server, over every run with a clock that does not run backwards, safe or
      not: a tick at most 5 seconds after the previous one closes an open connection if and only if it
      has been idle for 15 seconds, and none has been idle for 20. */
  lemma ServerIdleWindow(clock: int, steps: seq<Stamped>, now: int, fd: int)
    requires TimedRun(Begin(clock), steps)
    requires Allowed(Final(Begin(clock), steps), Stamped(Tick(now), now, 0))
    requires now <= LastTick(clock, steps) + 5
    requires fd in Final(Begin(clock), steps).s.conns
    ensures var last := LastActive(Begin(clock), steps, fd, clock);
            && (fd !in Do(Final(Begin(clock), steps).s, Tick(now)).conns <==> last + 15 <= now)
            && now < last + 20
  {
    LastFrom(Begin(clock), steps, fd, clock);
    TickedFrom(Begin(clock), steps, clock);
    TickCollects(Final(Begin(clock), steps).s, now, fd);
  }

  // ---------------------------------------------------------------- prompt runs and safe runs

  /** What is left to ask for when tasks are prompt: requests without a bad length, no hard error of
      `writev`, and at a tick no fetched event of a descriptor that has been idle for IDLE_LIMIT. */
  predicate Careful(s: State, op: Op) {
    match op
    case Tick(now) =>
      forall fd :: fd in s.conns && InBatch(s.batch, fd) > 0 ==> now < s.conns[fd].last + T.IDLE_LIMIT
    case _ => Safe(s, op)
  }

  predicate CarefulRun(s: State, ops: seq<Op>)
    decreases |ops|
  {
    ops == [] || (Can(s, ops[0]) && Careful(s, ops[0]) && CarefulRun(Do(s, ops[0]), ops[1..]))
  }

  lemma CarefulIsSafe(t: Timed, steps: seq<Stamped>)
    requires TimedRun(t, steps) && Prompt(t, steps) && Completes(t, steps) && TaskInv(t) && Inv(t.s)
    requires steps != []
    ensures Careful(t.s, steps[0].op) <==> Safe(t.s, steps[0].op)
  {
    var e := steps[0];
    if e.op.Tick? {
      DeadlineExactly(t.s, e.at);
      forall fd | fd in t.s.conns && (fd in t.s.queue || fd in t.s.running)
        ensures e.at < t.s.conns[fd].last + T.IDLE_LIMIT
      {
        TickMeetsYoung(t, steps, fd);
      }
    }
  }

  lemma RestIsPrompt(t: Timed, steps: seq<Stamped>)
    requires TimedRun(t, steps) && Prompt(t, steps) && Completes(t, steps) && steps != []
    ensures var u := Next(t, steps[0]);
            TimedRun(u, steps[1..]) && Prompt(u, steps[1..]) && Completes(u, steps[1..])
  {
  }

  lemma NextKeeps(t: Timed, e: Stamped)
    requires TaskInv(t) && Inv(t.s) && Allowed(t, e) && Safe(t.s, e.op)
    ensures TaskInv(Next(t, e)) && Inv(Next(t, e).s) && Next(t, e).s == Do(t.s, e.op)
  {
    StepKeepsInv(t.s, e.op);
    NextInv(t, e);
  }

  lemma {:induction false} CarefulFrom(t: Timed, steps: seq<Stamped>)
    requires TimedRun(t, steps) && Prompt(t, steps) && Completes(t, steps) && TaskInv(t) && Inv(t.s)
    ensures CarefulRun(t.s, Ops(steps)) <==> SafeRun(t.s, Ops(steps))
    decreases |steps|
  {
    if steps != [] {
      var e := steps[0];
      CarefulIsSafe(t, steps);
      RestIsPrompt(t, steps);
      if Safe(t.s, e.op) {
        NextKeeps(t, e);
        CarefulFrom(Next(t, e), steps[1..]);
      }
      BothOrNeither(t.s, e.op, Ops(steps[1..]));
    }
  }

  lemma BothOrNeither(s: State, op: Op, rest: seq<Op>)
    requires Can(s, op) && (Careful(s, op) <==> Safe(s, op))
    requires Safe(s, op) ==> (CarefulRun(Do(s, op), rest) <==> SafeRun(Do(s, op), rest))
    ensures CarefulRun(s, [op] + rest) <==> SafeRun(s, [op] + rest)
  {
    assert ([op] + rest)[1..] == rest;
  }

  /** Among the runs with prompt tasks the safe ones are exactly the careful ones. */
  lemma DeadlineRuns(clock: int, steps: seq<Stamped>)
    requires TimedRun(Begin(clock), steps) && Prompt(Begin(clock), steps) && Completes(Begin(clock), steps)
    ensures CarefulRun(Start(), Ops(steps)) <==> SafeRun(Start(), Ops(steps))
  {
    CarefulFrom(Begin(clock), steps);
  }
}
