/** The server as a transition system: the main thread with its event batch, the kernel's epoll
    set, the task queue and the workers. EPOLLONESHOT is a token that moves between them. */
module Reactor {
  import opened Text
  import O = Outgoing
  import H = HttpConn
  import R = Response
  import Q = Request
  import T = Timer

  const MAX_FD := 65536

  datatype Interest = In | Out

  /** Which branch of the dispatch an event takes: error or hang-up first, then input, then output. */
  datatype Kind = Hup | Readable | Writable

  datatype Event = Listen | Pipe | Client(fd: int, kind: Kind)

  /** A connection and its history: time of last activity, responses sent in full, the response
      being sent, the bytes the kernel took, the lengths of the mappings made and released; what the
      reads since the last response appended, and for each response in full what the reads before it
      had appended; the files and users that the task found which built the current response, and
      each of those sent in full. */
  datatype Conn = Conn(
    h: H.Snapshot, last: int, finished: seq<R.Response>, current: Option<R.Response>, wire: string,
    made: seq<nat>, freed: seq<nat>, chunks: seq<string>, asked: seq<seq<string>>,
    view: Option<H.Env>, views: seq<H.Env>)

  /** `armed`: descriptors armed in epoll; `batch`: events fetched and not yet dispatched; `main`:
      the event the main thread is handling; `queue` and `running`: descriptors whose task waits or
      runs; `gone`: closed connections. */
  datatype State = State(
    conns: map<int, Conn>, armed: map<int, Interest>, batch: seq<Event>, main: Option<Event>,
    queue: seq<int>, running: multiset<int>, timer: T.Nodes, userCount: int, gone: seq<Conn>)

  function Start(): State {
    State(map[], map[], [], None, [], multiset{}, [], 0, [])
  }

  datatype Op =
    | Wait(events: seq<Event>)                    // epoll_wait
    | Dispatch                                    // the loop takes the next event of the batch
    | Accept(fd: int, addr: int, now: int)        // one turn of handle_listen_
    | AcceptDone
    | Tick(now: int)                              // handle_timer_
    | CloseNow                                    // handle_close_
    | ReadNow(recvs: seq<H.Recv>, now: int)       // handle_read_
    | WriteNow(offers: seq<O.Offer>, now: int)    // handle_write_
    | Take                                        // a worker pops a task
    | Finish(fd: int, env: H.Env)                 // process() ends on a worker

  // ---------------------------------------------------------------- steps of one connection

  function NewConn(now: int): Conn {
    Conn(H.Snapshot(Q.Fresh(), O.Out("", None, 0, O.NO_IOVEC, O.NO_IOVEC, 0, 0, 0)), now,
         [], None, "", [], [], [], [], None, [])
  }

  /** What `munmap` was called with when the mapping of `before` is gone in `after`. */
  function Freed(before: O.Out, after: O.Out): seq<nat> {
    if before.mapped.Some? && after.mapped.None? then [before.statSize] else []
  }

  /** `close_conn`. */
  function Closed(c: Conn): Conn {
    var o := O.Unmap(c.h.out);
    c.(h := c.h.(out := o), freed := c.freed + Freed(c.h.out, o))
  }

  function AfterRead(c: Conn, buf: string, now: int): Conn
    requires c.h.parser.readBuf <= buf
  {
    c.(h := c.h.(parser := c.h.parser.(readBuf := buf)), last := now,
       chunks := c.chunks + [buf[|c.h.parser.readBuf|..]])
  }

  /** `write()` and, if it finished, the bookkeeping for the response it finished. */
  function AfterWrite(c: Conn, r: O.WriteResult, now: int): Conn {
    c.(h := c.h.(out := r.o), wire := c.wire + r.sent, freed := c.freed + Freed(c.h.out, r.o),
       last := if r.done then now else c.last,
       finished := if r.done && c.current.Some? then c.finished + [c.current.value] else c.finished,
       asked := if r.done && c.current.Some? then c.asked + [c.chunks] else c.asked,
       chunks := if r.done then [] else c.chunks,
       views := if r.done && c.view.Some? then c.views + [c.view.value] else c.views,
       view := if r.done then None else c.view,
       current := if r.done then None else c.current)
  }

  function AfterFinish(c: Conn, d: H.Decision, env: H.Env): Conn {
    match d
    case NeedMore(q) => c.(h := c.h.(parser := q))
    case Throws(q) => c.(h := c.h.(parser := q))
    case Answer(q, f, r) =>
      c.(h := H.Respond(c.h.out, q, f, r), current := Some(r), view := Some(env),
         made := c.made + if r.File? then [|r.content|] else [])
  }

  // ---------------------------------------------------------------- steps of the server

  predicate Compatible(armed: map<int, Interest>, e: Event) {
    e.Client? ==>
      && e.fd in armed
      && (e.kind == Readable ==> armed[e.fd] == In)
      && (e.kind == Writable ==> armed[e.fd] == Out)
  }

  /** How many events of a batch belong to a descriptor. */
  function InBatch(events: seq<Event>, fd: int): nat {
    if events == [] then 0
    else (if events[0].Client? && events[0].fd == fd then 1 else 0) + InBatch(events[1..], fd)
  }

  predicate AtMostOnce(events: seq<Event>) {
    forall i, j :: 0 <= i < j < |events| && events[i].Client? && events[j].Client? ==> events[i].fd != events[j].fd
  }

  function MainFd(s: State): Option<int> {
    if s.main.Some? && s.main.value.Client? then Some(s.main.value.fd) else None
  }

  predicate Handling(s: State, kind: Kind) {
    s.main.Some? && s.main.value.Client? && s.main.value.kind == kind
  }

  /** What the environment allows: epoll reports only armed descriptors, each at most once per
      batch; `accept` returns a descriptor that is not open. */
  predicate Can(s: State, op: Op) {
    match op
    case Wait(events) =>
      && s.main.None? && s.batch == [] && AtMostOnce(events)
      && forall i :: 0 <= i < |events| ==> Compatible(s.armed, events[i])
    case Dispatch => s.main.None? && s.batch != []
    case Accept(fd, _, _) => s.main == Some(Listen) && fd !in s.conns
    case AcceptDone => s.main == Some(Listen)
    case Tick(_) => s.main == Some(Pipe)
    case CloseNow => Handling(s, Hup)
    case ReadNow(_, _) => Handling(s, Readable)
    case WriteNow(_, _) => Handling(s, Writable)
    case Take => s.queue != []
    case Finish(fd, _) => fd in s.running
  }

  /** `handle_close_`: for a descriptor that is not open any more it does nothing. */
  function Close(s: State, fd: int): State {
    var t := s.(timer := T.Remove(s.timer, fd));
    if fd in s.conns then
      t.(conns := s.conns - {fd}, armed := s.armed - {fd}, userCount := s.userCount - 1,
         gone := s.gone + [Closed(s.conns[fd])])
    else t
  }

  function CloseAll(s: State, fds: seq<int>): State
    decreases |fds|
  {
    if fds == [] then s else CloseAll(Close(s, fds[0]), fds[1..])
  }

  function OneShot(s: State, events: seq<Event>): map<int, Interest> {
    map fd | fd in s.armed && InBatch(events, fd) == 0 :: s.armed[fd]
  }

  function DoAccept(s: State, fd: int, addr: int, now: int): State {
    if fd >= MAX_FD then s
    else
      s.(conns := s.conns[fd := NewConn(now)], armed := s.armed[fd := In], userCount := s.userCount + 1,
         timer := T.Insert(s.timer, T.TimerNode(fd, now + T.IDLE_LIMIT, addr)))
  }

  function DoRead(s: State, fd: int, recvs: seq<H.Recv>, now: int): State {
    if fd !in s.conns then s // recv on descriptor -1 fails and there is nothing left to close
    else
      var c := s.conns[fd];
      var (ok, buf) := H.ReadCall(c.h.parser.readBuf, recvs);
      if ok then
        s.(conns := s.conns[fd := AfterRead(c, buf, now)], timer := T.Adjust(s.timer, fd, now),
           queue := s.queue + [fd])
      else Close(s, fd)
  }

  function DoWrite(s: State, fd: int, offers: seq<O.Offer>, now: int): State {
    if fd !in s.conns then s
    else
      var r := O.Write(s.conns[fd].h.out, offers);
      var c := AfterWrite(s.conns[fd], r, now);
      if !r.done then s.(conns := s.conns[fd := c], armed := s.armed[fd := Out])
      else DoFlushed(s, fd, c, now)
  }

  /** `handle_write_` once everything is sent: stay for the next request, or close. */
  function DoFlushed(s: State, fd: int, c: Conn, now: int): State {
    var t := s.(timer := T.Adjust(s.timer, fd, now));
    if c.h.parser.f.keepAlive then
      t.(conns := s.conns[fd := c.(h := H.AfterReset(c.h))], armed := s.armed[fd := In])
    else Close(t.(conns := s.conns[fd := c]), fd)
  }

  function DoFinish(s: State, fd: int, env: H.Env): State {
    var t := s.(running := s.running - multiset{fd});
    if fd !in s.conns then t
    else
      var d := H.Decide(s.conns[fd].h.parser, env);
      var u := t.(conns := s.conns[fd := AfterFinish(s.conns[fd], d, env)]);
      match d
      case NeedMore(_) => u.(armed := s.armed[fd := In])
      case Throws(_) => u
      case Answer(_, _, _) => u.(armed := s.armed[fd := Out])
  }

  /** `epoll_ctl` at the end of `process()`. */
  function Rearmed(armed: map<int, Interest>, fd: int, rearm: H.Rearm): map<int, Interest> {
    match rearm
    case NoRearm => armed
    case RearmIn => armed[fd := In]
    case RearmOut => armed[fd := Out]
  }

  /** The end of a task is `process()` on its connection, with the descriptor armed as it asks. */
  lemma FinishIsProcess(s: State, fd: int, env: H.Env)
    requires fd in s.conns
    ensures var (rearm, h) := H.AfterProcess(s.conns[fd].h, env);
            var c := AfterFinish(s.conns[fd], H.Decide(s.conns[fd].h.parser, env), env);
            && c.h == h
            && DoFinish(s, fd, env) ==
               s.(running := s.running - multiset{fd}, conns := s.conns[fd := c], armed := Rearmed(s.armed, fd, rearm))
  {
  }

  lemma SetTwice<V>(m: map<int, V>, fd: int, c: V, d: V)
    ensures m[fd := c][fd := d] == m[fd := d]
  {
  }

  lemma FlushedTwice(s: State, fd: int, c: Conn, now: int)
    requires fd in s.conns
    ensures DoFlushed(s.(conns := s.conns[fd := c]), fd, c, now) == DoFlushed(s, fd, c, now)
  {
    SetTwice(s.conns, fd, c, c);
    SetTwice(s.conns, fd, c, c.(h := H.AfterReset(c.h)));
  }

  function Do(s: State, op: Op): State
    requires Can(s, op)
  {
    match op
    case Wait(events) => s.(armed := OneShot(s, events), batch := events)
    case Dispatch => s.(main := Some(s.batch[0]), batch := s.batch[1..])
    case Accept(fd, addr, now) => DoAccept(s, fd, addr, now)
    case AcceptDone => s.(main := None)
    case Tick(now) => CloseAll(s.(main := None, timer := T.Kept(s.timer, now)), T.Expired(s.timer, now))
    case CloseNow => Close(s.(main := None), s.main.value.fd)
    case ReadNow(recvs, now) => DoRead(s.(main := None), s.main.value.fd, recvs, now)
    case WriteNow(offers, now) => DoWrite(s.(main := None), s.main.value.fd, offers, now)
    case Take => s.(queue := s.queue[1..], running := s.running + multiset{s.queue[0]})
    case Finish(fd, env) => DoFinish(s, fd, env)
  }

  /** The state after a run, if every step of it could be taken. */
  function Run(s: State, ops: seq<Op>): Option<State>
    decreases |ops|
  {
    if ops == [] then Some(s)
    else if Can(s, ops[0]) then Run(Do(s, ops[0]), ops[1..])
    else None
  }

  // ---------------------------------------------------------------- timer and connections

  /** The timer has exactly one node for every open connection, due IDLE_LIMIT after its last
      activity, in order of expiry. */
  ghost predicate TimerOk(l: T.Nodes, conns: map<int, Conn>) {
    && T.Sorted(l) && T.DistinctFds(l) && T.FdsOf(l) == conns.Keys
    && forall n :: n in l ==> n.fd in conns && n.expire == conns[n.fd].last + T.IDLE_LIMIT
  }

  ghost predicate Agreement(s: State) {
    TimerOk(s.timer, s.conns) && s.userCount == |s.conns|
  }

  lemma TimerInsert(l: T.Nodes, conns: map<int, Conn>, n: T.TimerNode, c: Conn)
    requires TimerOk(l, conns) && n.fd !in conns && n.expire == c.last + T.IDLE_LIMIT
    ensures TimerOk(T.Insert(l, n), conns[n.fd := c])
  {
    T.InsertSorted(l, n);
    T.InsertNodes(l, n);
  }

  lemma TimerRemove(l: T.Nodes, conns: map<int, Conn>, fd: int)
    requires TimerOk(l, conns)
    ensures TimerOk(T.Remove(l, fd), conns - {fd})
    ensures fd !in conns ==> T.Remove(l, fd) == l
  {
    T.RemoveSorted(l, fd);
    T.RemoveNodes(l, fd);
  }

  lemma TimerTouch(l: T.Nodes, conns: map<int, Conn>, fd: int, now: int, c: Conn)
    requires TimerOk(l, conns) && fd in conns && c.last == now
    ensures TimerOk(T.Adjust(l, fd, now), conns[fd := c])
  {
    TimerRemove(l, conns, fd);
    var n := T.AdjustIs(l, fd, now);
    TimerInsert(T.Remove(l, fd), conns - {fd}, n, c);
    PutBack(conns, fd, c);
  }

  lemma PutBack<V>(m: map<int, V>, fd: int, c: V)
    ensures (m - {fd})[fd := c] == m[fd := c]
  {
  }

  /** A step that changes a connection without counting as activity. */
  lemma TimerSame(l: T.Nodes, conns: map<int, Conn>, fd: int, c: Conn)
    requires TimerOk(l, conns) && fd in conns && c.last == conns[fd].last
    ensures TimerOk(l, conns[fd := c])
  {
  }

  function SetOf(fds: seq<int>): set<int> {
    set fd | fd in fds
  }

  lemma SizeAdd(conns: map<int, Conn>, fd: int, c: Conn)
    ensures |conns[fd := c]| == |conns| + if fd in conns then 0 else 1
  {
    assert conns[fd := c].Keys == conns.Keys + {fd};
  }

  lemma SizeRemove(conns: map<int, Conn>, fd: int)
    ensures |conns - {fd}| == |conns| - if fd in conns then 1 else 0
  {
    assert (conns - {fd}).Keys == conns.Keys - {fd};
  }

  lemma CloseAgrees(s: State, fd: int)
    requires Agreement(s)
    ensures Agreement(Close(s, fd))
  {
    TimerRemove(s.timer, s.conns, fd);
    SizeRemove(s.conns, fd);
    if fd !in s.conns {
      assert s.conns - {fd} == s.conns;
    }
  }

  lemma MinusTwice<V>(m: map<int, V>, fd: int, rest: seq<int>)
    ensures m - {fd} - SetOf(rest) == m - SetOf([fd] + rest)
  {
    assert SetOf([fd] + rest) == {fd} + SetOf(rest);
  }

  lemma MinusNone<V>(m: map<int, V>)
    ensures m - SetOf([]) == m
  {
  }

  /** What closing a list of descriptors does, when their timer nodes are gone already. */
  lemma {:induction false} CloseAllEffect(s: State, fds: seq<int>)
    requires T.NoRepeat(fds) && T.DistinctFds(s.timer)
    requires forall fd :: fd in fds ==> fd in s.conns && fd !in T.FdsOf(s.timer)
    ensures var t := CloseAll(s, fds);
            && t.conns == s.conns - SetOf(fds) && t.armed == s.armed - SetOf(fds)
            && t.userCount - |t.conns| == s.userCount - |s.conns|
            && t == s.(conns := t.conns, armed := t.armed, userCount := t.userCount, gone := t.gone)
    decreases |fds|
  {
    if fds == [] {
      MinusNone(s.conns);
      MinusNone(s.armed);
    } else {
      var rest := fds[1..];
      assert fds == [fds[0]] + rest;
      CloseOne(s, fds[0]);
      assert forall i :: 0 <= i < |rest| ==> rest[i] == fds[i + 1];
      CloseAllEffect(Close(s, fds[0]), rest);
      MinusTwice(s.conns, fds[0], rest);
      MinusTwice(s.armed, fds[0], rest);
    }
  }

  lemma CloseOne(s: State, fd: int)
    requires T.DistinctFds(s.timer) && fd in s.conns && fd !in T.FdsOf(s.timer)
    ensures var t := Close(s, fd);
            && t.conns == s.conns - {fd} && t.armed == s.armed - {fd}
            && t.userCount - |t.conns| == s.userCount - |s.conns|
            && t == s.(conns := t.conns, armed := t.armed, userCount := t.userCount, gone := t.gone)
  {
    T.RemoveNodes(s.timer, fd);
    SizeRemove(s.conns, fd);
  }

  /** The tick as one map operation: the descriptors that are due leave, and nothing else changes. */
  lemma TickEffect(s: State, now: int)
    requires Agreement(s)
    ensures var t := CloseAll(s.(main := None, timer := T.Kept(s.timer, now)), T.Expired(s.timer, now));
            var due := SetOf(T.Expired(s.timer, now));
            && t.conns == s.conns - due && t.armed == s.armed - due && t.timer == T.Kept(s.timer, now)
            && t.main == None && t.batch == s.batch && t.queue == s.queue && t.running == s.running
            && t.userCount - |t.conns| == s.userCount - |s.conns|
            && forall fd :: fd in due <==> fd in s.conns && s.conns[fd].last + T.IDLE_LIMIT <= now
  {
    var due := T.Expired(s.timer, now);
    T.ExpiredNodes(s.timer, now);
    T.ExpiredOnce(s.timer, now);
    forall fd ensures fd in due <==> fd in s.conns && s.conns[fd].last + T.IDLE_LIMIT <= now {
      if fd in s.conns {
        assert fd in T.FdsOf(s.timer);
      }
    }
    CloseAllEffect(s.(main := None, timer := T.Kept(s.timer, now)), due);
  }

  lemma TickAgrees(s: State, now: int)
    requires Agreement(s)
    ensures Agreement(CloseAll(s.(main := None, timer := T.Kept(s.timer, now)), T.Expired(s.timer, now)))
  {
    TickEffect(s, now);
    T.KeptSorted(s.timer, now);
    T.ExpiredNodes(s.timer, now);
    var t := CloseAll(s.(main := None, timer := T.Kept(s.timer, now)), T.Expired(s.timer, now));
    assert T.FdsOf(t.timer) == t.conns.Keys by {
      forall fd | fd in t.conns ensures fd in T.FdsOf(t.timer) {
        assert fd in T.FdsOf(s.timer);
      }
    }
  }

  /** Timer, open connections and user count agree after every step of every run, whatever the
      workers and stale events do. */
  lemma StepAgrees(s: State, op: Op)
    requires Agreement(s) && Can(s, op)
    ensures Agreement(Do(s, op))
  {
    match op
    case Wait(_) =>
    case Dispatch =>
    case Accept(fd, addr, now) =>
      AcceptAgrees(s, fd, addr, now);
    case AcceptDone =>
    case Tick(now) => TickAgrees(s, now);
    case CloseNow => CloseAgrees(s.(main := None), s.main.value.fd);
    case ReadNow(recvs, now) => ReadAgrees(s.(main := None), s.main.value.fd, recvs, now);
    case WriteNow(offers, now) => WriteAgrees(s.(main := None), s.main.value.fd, offers, now);
    case Take =>
    case Finish(fd, env) => FinishAgrees(s, fd, env);
  }

  lemma AcceptAgrees(s: State, fd: int, addr: int, now: int)
    requires Agreement(s) && fd !in s.conns
    ensures Agreement(DoAccept(s, fd, addr, now))
  {
    if fd < MAX_FD {
      AddAgrees(s, DoAccept(s, fd, addr, now), T.TimerNode(fd, now + T.IDLE_LIMIT, addr), NewConn(now));
    }
  }

  lemma AddAgrees(s: State, t: State, n: T.TimerNode, c: Conn)
    requires Agreement(s) && n.fd !in s.conns && n.expire == c.last + T.IDLE_LIMIT
    requires t.conns == s.conns[n.fd := c] && t.timer == T.Insert(s.timer, n) && t.userCount == s.userCount + 1
    ensures Agreement(t)
  {
    TimerInsert(s.timer, s.conns, n, c);
    SizeAdd(s.conns, n.fd, c);
  }

  /** Activity on an open connection keeps the agreement, whatever else it changes in it. */
  lemma TouchAgrees(s: State, t: State, fd: int, now: int, c: Conn)
    requires Agreement(s) && fd in s.conns && c.last == now
    requires t.conns == s.conns[fd := c] && t.timer == T.Adjust(s.timer, fd, now) && t.userCount == s.userCount
    ensures Agreement(t)
  {
    TimerTouch(s.timer, s.conns, fd, now, c);
    SizeAdd(s.conns, fd, c);
  }

  lemma SameAgrees(s: State, t: State, fd: int, c: Conn)
    requires Agreement(s) && fd in s.conns && c.last == s.conns[fd].last
    requires t.conns == s.conns[fd := c] && t.timer == s.timer && t.userCount == s.userCount
    ensures Agreement(t)
  {
    TimerSame(s.timer, s.conns, fd, c);
    SizeAdd(s.conns, fd, c);
  }

  lemma ReadAgrees(s: State, fd: int, recvs: seq<H.Recv>, now: int)
    requires Agreement(s)
    ensures Agreement(DoRead(s, fd, recvs, now))
  {
    if fd in s.conns {
      var c := s.conns[fd];
      var (ok, buf) := H.ReadCall(c.h.parser.readBuf, recvs);
      if ok {
        TouchAgrees(s, DoRead(s, fd, recvs, now), fd, now, AfterRead(c, buf, now));
      } else {
        CloseAgrees(s, fd);
      }
    }
  }

  lemma WriteAgrees(s: State, fd: int, offers: seq<O.Offer>, now: int)
    requires Agreement(s)
    ensures Agreement(DoWrite(s, fd, offers, now))
  {
    if fd in s.conns {
      var r := O.Write(s.conns[fd].h.out, offers);
      var c := AfterWrite(s.conns[fd], r, now);
      if r.done {
        FlushedAgrees(s, fd, c, now);
      } else {
        SameAgrees(s, DoWrite(s, fd, offers, now), fd, c);
      }
    }
  }

  lemma FlushedAgrees(s: State, fd: int, c: Conn, now: int)
    requires Agreement(s) && fd in s.conns && c.last == now
    ensures Agreement(DoFlushed(s, fd, c, now))
  {
    if c.h.parser.f.keepAlive {
      TouchAgrees(s, DoFlushed(s, fd, c, now), fd, now, c.(h := H.AfterReset(c.h)));
    } else {
      var t := s.(timer := T.Adjust(s.timer, fd, now), conns := s.conns[fd := c]);
      TouchAgrees(s, t, fd, now, c);
      CloseAgrees(t, fd);
    }
  }

  lemma FinishAgrees(s: State, fd: int, env: H.Env)
    requires Agreement(s)
    ensures Agreement(DoFinish(s, fd, env))
  {
    if fd in s.conns {
      SameAgrees(s, DoFinish(s, fd, env), fd, AfterFinish(s.conns[fd], H.Decide(s.conns[fd].h.parser, env), env));
    }
  }
}
