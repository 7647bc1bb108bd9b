/** When a connection ends, and in which order the main thread takes its events. */
module Lifetime {
  import opened Text
  import opened Reactor
  import opened Ownership
  import opened WireStream
  import H = HttpConn
  import O = Outgoing
  import R = Response
  import T = Timer

  // ---------------------------------------------------------------- the end of a connection

  /** The reasons for a step to close `fd`: the peer hung up; a tick comes 15 or more after the last
      activity; a read finds the peer gone, the socket broken or nothing to parse; the kernel has
      room for the rest of a response that told the client to leave. */
  predicate Ends(s: State, op: Op, fd: int)
    requires fd in s.conns
  {
    var c := s.conns[fd];
    match op
    case CloseNow => MainFd(s) == Some(fd)
    case Tick(now) => c.last + 15 <= now
    case ReadNow(recvs, _) => MainFd(s) == Some(fd) && !H.ReadCall(c.h.parser.readBuf, recvs).0
    case WriteNow(offers, _) =>
      && MainFd(s) == Some(fd)
      && c.current.Some? && !R.MessageOf(c.current.value).persists
      && O.SpaceIn(offers) >= |O.Pending(c.h.out)|
    case _ => false
  }

  lemma WriteEndsExactly(s: State, offers: seq<O.Offer>, now: int, fd: int)
    requires Inv(s) && Can(s, WriteNow(offers, now)) && O.NotBroken(offers) && fd in s.conns
    ensures fd in Do(s, WriteNow(offers, now)).conns <==> !Ends(s, WriteNow(offers, now), fd)
  {
    var on := s.main.value.fd;
    MainReleases(s);
    assert EventInPhase(s.conns, s.main.value);
    var c := s.conns[on];
    assert OpenOk(c) && Sending(c);
    O.WriteFillsRoom(c.h.out, offers);
  }

  lemma TickEndsExactly(s: State, now: int, fd: int)
    requires Inv(s) && Can(s, Tick(now)) && fd in s.conns
    ensures fd in Do(s, Tick(now)).conns <==> !Ends(s, Tick(now), fd)
  {
    TickEffect(s, now);
  }

  lemma ReadEndsExactly(s: State, recvs: seq<H.Recv>, now: int, fd: int)
    requires Can(s, ReadNow(recvs, now)) && fd in s.conns
    ensures fd in Do(s, ReadNow(recvs, now)).conns <==> !Ends(s, ReadNow(recvs, now), fd)
  {
  }

  lemma FinishKeeps(s: State, on: int, env: H.Env, fd: int)
    requires fd in s.conns
    ensures fd in DoFinish(s, on, env).conns
  {
    if on in s.conns {
      FinishIsProcess(s, on, env);
    }
  }

  lemma CloseEndsExactly(s: State, fd: int)
    requires Can(s, CloseNow) && fd in s.conns
    ensures fd in Do(s, CloseNow).conns <==> !Ends(s, CloseNow, fd)
  {
  }

  lemma AcceptKeeps(s: State, on: int, addr: int, now: int, fd: int)
    requires fd in s.conns
    ensures fd in DoAccept(s, on, addr, now).conns
  {
  }

  lemma StepEndsExactly(s: State, op: Op, fd: int)
    requires Inv(s) && Can(s, op) && Safe(s, op) && fd in s.conns
    ensures fd in Do(s, op).conns <==> !Ends(s, op, fd)
  {
    match op
    case Tick(now) => TickEndsExactly(s, now, fd);
    case ReadNow(recvs, now) => ReadEndsExactly(s, recvs, now, fd);
    case WriteNow(offers, now) => WriteEndsExactly(s, offers, now, fd);
    case Finish(on, env) => FinishKeeps(s, on, env, fd);
    case CloseNow => CloseEndsExactly(s, fd);
    case Accept(on, addr, now) => AcceptKeeps(s, on, addr, now, fd);
    case Wait(_) =>
    case Dispatch =>
    case AcceptDone =>
    case Take =>
  }

  /** In every reachable state of a safe run the next step closes an open connection if and only if
      there is such a reason. */
  lemma EndsExactly(ops: seq<Op>, op: Op, fd: int)
    requires SafeRun(Start(), ops)
    ensures Run(Start(), ops).Some?
    ensures var s := Run(Start(), ops).value;
            fd in s.conns && Can(s, op) && Safe(s, op) ==> (fd in Do(s, op).conns <==> !Ends(s, op, fd))
  {
    SafeReach(ops);
    var s := Run(Start(), ops).value;
    if fd in s.conns && Can(s, op) && Safe(s, op) {
      StepEndsExactly(s, op, fd);
    }
  }

  // ---------------------------------------------------------------- the order of events

  /** The events that `epoll_wait` returns in a step. */
  function FetchedBy(op: Op): seq<Event> {
    if op.Wait? then op.events else []
  }

  /** The event that the main thread takes up in a step. */
  function TakenBy(s: State, op: Op): seq<Event>
    requires Can(s, op)
  {
    var t := Do(s, op);
    if op.Dispatch? && t.main.Some? then [t.main.value] else []
  }

  function Fetched(ops: seq<Op>): seq<Event> {
    if ops == [] then [] else FetchedBy(ops[0]) + Fetched(ops[1..])
  }

  function Taken(s: State, ops: seq<Op>): seq<Event>
    requires Run(s, ops).Some?
    decreases |ops|
  {
    if ops == [] then [] else TakenBy(s, ops[0]) + Taken(Do(s, ops[0]), ops[1..])
  }

  lemma {:induction false} CloseAllKeepsBatch(s: State, fds: seq<int>)
    ensures CloseAll(s, fds).batch == s.batch
    decreases |fds|
  {
    if fds != [] {
      CloseAllKeepsBatch(Close(s, fds[0]), fds[1..]);
    }
  }

  lemma StepBatch(s: State, op: Op)
    requires Can(s, op)
    ensures s.batch + FetchedBy(op) == TakenBy(s, op) + Do(s, op).batch
  {
    match op
    case Tick(now) => CloseAllKeepsBatch(s.(main := None, timer := T.Kept(s.timer, now)), T.Expired(s.timer, now));
    case _ =>
  }

  lemma Chain(a: seq<Event>, b: seq<Event>, c: seq<Event>, d: seq<Event>, e: seq<Event>, f: seq<Event>, g: seq<Event>)
    requires a + b == c + d && d + e == f + g
    ensures a + (b + e) == (c + f) + g
  {
    assert a + (b + e) == (a + b) + e;
    assert (c + d) + e == c + (d + e);
  }

  lemma {:induction false} EventsFrom(s: State, ops: seq<Op>)
    requires Run(s, ops).Some?
    ensures s.batch + Fetched(ops) == Taken(s, ops) + Run(s, ops).value.batch
    decreases |ops|
  {
    if ops == [] {
      assert s.batch + [] == [] + s.batch;
    } else {
      var op, t := ops[0], Do(s, ops[0]);
      StepBatch(s, op);
      EventsFrom(t, ops[1..]);
      Chain(s.batch, FetchedBy(op), TakenBy(s, op), t.batch,
            Fetched(ops[1..]), Taken(t, ops[1..]), Run(t, ops[1..]).value.batch);
    }
  }

  /** Over every run, safe or not, the main thread takes each event that `epoll_wait` returned once,
      in the order in which they were returned; what is left of the batch comes next. */
  lemma EventsInOrder(ops: seq<Op>)
    requires Run(Start(), ops).Some?
    ensures Fetched(ops) == Taken(Start(), ops) + Run(Start(), ops).value.batch
  {
    EventsFrom(Start(), ops);
    assert [] + Fetched(ops) == Fetched(ops);
  }
}
