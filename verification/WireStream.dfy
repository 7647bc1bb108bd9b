/** What goes over the wire and what is mapped, over whole runs of the server. */
module WireStream {
  import opened Text
  import opened Reactor
  import opened Ownership
  import H = HttpConn
  import O = Outgoing
  import R = Response
  import T = Timer

  // ---------------------------------------------------------------- one connection

  /** Between responses: nothing is being sent or mapped, the bytes sent so far are exactly the
      finished responses in order, and every mapping made was released, once and with its length. */
  ghost predicate Receiving(c: Conn) {
    && c.current.None? && H.Idle(c.h.out)
    && c.wire == R.Wire(c.finished)
    && c.made == c.freed
  }

  /** While a response is being sent: bytes sent and bytes left make up the finished responses
      followed by this one; its mapping, if it has one, is the only one not yet released. */
  ghost predicate Sending(c: Conn) {
    && c.current.Some? && O.Valid(c.h.out) && c.h.out.haveSend < c.h.out.toSend
    && c.wire + O.Pending(c.h.out) == R.Wire(c.finished) + R.Bytes(c.current.value)
    && c.h.out.toSend == |R.Bytes(c.current.value)|
    && c.made == c.freed + (if c.h.out.mapped.Some? then [c.h.out.statSize] else [])
    && c.h.parser.f.keepAlive == R.KeepAlive(c.current.value)
    && R.Printable(c.current.value)
  }

  /** The lengths of the files among some responses. */
  function FileLengths(rs: seq<R.Response>): seq<nat> {
    if rs == [] then []
    else
      var k := |rs| - 1;
      FileLengths(rs[..k]) + LengthIfFile(rs[k])
  }

  function LengthIfFile(r: R.Response): seq<nat> {
    if r.File? then [|r.content|] else []
  }

  /** One mapping was made for every file response there was, with the length of the file. */
  ghost predicate MadeOk(c: Conn) {
    c.made == FileLengths(c.finished) + (match c.current case None => [] case Some(r) => LengthIfFile(r))
  }

  lemma FileLengthsSnoc(rs: seq<R.Response>, r: R.Response)
    ensures FileLengths(rs + [r]) == FileLengths(rs) + LengthIfFile(r)
  {
    assert (rs + [r])[..|rs|] == rs;
  }

  /** An open connection: everything finished so far asked the client to stay. */
  ghost predicate OpenOk(c: Conn) {
    && (Receiving(c) || Sending(c)) && MadeOk(c)
    && forall r :: r in c.finished ==> R.Printable(r) && R.KeepAlive(r)
  }

  /** Every response but the last asked the client to stay. */
  ghost predicate StayUntilLast(rs: seq<R.Response>) {
    forall i :: 0 <= i < |rs| - 1 ==> R.KeepAlive(rs[i])
  }

  /** A closed connection: no mapping is left, and the client got the finished responses and a
      prefix of at most one more. */
  ghost predicate ClosedOk(c: Conn) {
    && c.h.out.mapped.None? && c.made == c.freed && MadeOk(c)
    && (forall r :: r in c.finished ==> R.Printable(r)) && StayUntilLast(c.finished)
    && R.Wire(c.finished) <= c.wire
    && match c.current
       case None => c.wire == R.Wire(c.finished)
       case Some(r) => c.wire <= R.Wire(c.finished) + R.Bytes(r)
  }

  lemma NewOk(now: int)
    ensures OpenOk(NewConn(now)) && Receiving(NewConn(now))
  {
  }

  lemma WireCut(c: Conn)
    requires OpenOk(c)
    ensures match c.current
            case None => c.wire == R.Wire(c.finished)
            case Some(r) =>
              && c.h.out.haveSend < |R.Bytes(r)|
              && c.wire == R.Wire(c.finished) + R.Bytes(r)[..c.h.out.haveSend]
              && c.h.parser.f.keepAlive == R.KeepAlive(r)
  {
    if c.current.Some? {
      var r, done, left := R.Bytes(c.current.value), R.Wire(c.finished), O.Pending(c.h.out);
      assert |c.wire| == |done| + c.h.out.haveSend;
      assert c.wire == (c.wire + left)[..|c.wire|];
      assert (done + r)[..|done| + c.h.out.haveSend] == done + r[..c.h.out.haveSend];
    }
  }

  lemma ClosedIsOk(c: Conn)
    requires OpenOk(c)
    ensures ClosedOk(Closed(c))
  {
    WireCut(c);
  }

  lemma ReadOk(c: Conn, buf: string, now: int)
    requires OpenOk(c) && Receiving(c) && c.h.parser.readBuf <= buf
    ensures OpenOk(AfterRead(c, buf, now)) && Receiving(AfterRead(c, buf, now))
  {
  }

  lemma DecisionPrintable(c: Conn, env: H.Env)
    ensures var d := H.Decide(c.h.parser, env); d.Answer? ==> R.Printable(d.r)
  {
    assert '\r' !in "Bad Request" && '\r' !in "Not Found";
  }

  /** A response is built only when nothing is pending or mapped, so it drops nothing. */
  lemma FinishOk(c: Conn, d: H.Decision, env: H.Env)
    requires OpenOk(c) && Receiving(c) && (d.Answer? ==> R.Printable(d.r))
    ensures OpenOk(AfterFinish(c, d, env))
    ensures if d.Answer? then Sending(AfterFinish(c, d, env)) else Receiving(AfterFinish(c, d, env))
  {
    if d.Answer? {
      H.InstallPending(c.h.out, d.r);
    }
  }

  /** One call of `write()` on a response being sent. */
  lemma WriteOk(c: Conn, offers: seq<O.Offer>, now: int)
    requires OpenOk(c) && Sending(c) && O.NotBroken(offers)
    ensures var r := O.Write(c.h.out, offers);
            var d := AfterWrite(c, r, now);
            && d.h.parser == c.h.parser
            && (!r.done ==> OpenOk(d) && Sending(d))
            && (r.done ==> Flushed(d) && d.finished == c.finished + [c.current.value])
  {
    var r := O.Write(c.h.out, offers);
    O.WriteConserves(c.h.out, offers);
    assert r == O.WriteLoop(c.h.out, offers);
    if r.done {
      WriteEnds(c, r, now);
    } else {
      WriteStays(c, r, now);
    }
  }

  lemma WriteStays(c: Conn, r: O.WriteResult, now: int)
    requires OpenOk(c) && Sending(c) && O.Conserves(c.h.out, r) && !r.done
    ensures var d := AfterWrite(c, r, now); d.h.parser == c.h.parser && OpenOk(d) && Sending(d)
  {
    Regroup(c.wire, r.sent, O.Pending(r.o));
  }

  lemma WriteEnds(c: Conn, r: O.WriteResult, now: int)
    requires OpenOk(c) && Sending(c) && O.Conserves(c.h.out, r) && r.done
    ensures var d := AfterWrite(c, r, now);
            d.h.parser == c.h.parser && Flushed(d) && d.finished == c.finished + [c.current.value]
  {
    assert r.sent == r.sent + O.Pending(r.o);
    R.WireAppend(c.finished, c.current.value);
    FileLengthsSnoc(c.finished, c.current.value);
  }

  /** Everything sent, not yet reset or closed. */
  ghost predicate Flushed(c: Conn) {
    && c.current.None? && c.h.out.mapped.None? && c.made == c.freed && MadeOk(c)
    && c.wire == R.Wire(c.finished) && StayUntilLast(c.finished)
    && forall r :: r in c.finished ==> R.Printable(r)
  }

  lemma ResetOk(c: Conn)
    requires Flushed(c) && (forall r :: r in c.finished ==> R.KeepAlive(r))
    ensures var d := c.(h := H.AfterReset(c.h)); OpenOk(d) && Receiving(d)
  {
  }

  // ---------------------------------------------------------------- the server

  ghost predicate EventInPhase(conns: map<int, Conn>, e: Event) {
    e.Client? ==>
      && e.fd in conns
      && (e.kind == Readable ==> conns[e.fd].current.None?)
      && (e.kind == Writable ==> conns[e.fd].current.Some?)
  }

  /** What each place knows about the connections it owns: is a response being sent or not? */
  ghost predicate InPhase(s: State) {
    && (forall fd :: fd in s.armed ==> fd in s.conns && (s.armed[fd] == In <==> s.conns[fd].current.None?))
    && (forall i :: 0 <= i < |s.batch| ==> EventInPhase(s.conns, s.batch[i]))
    && (s.main.Some? ==> EventInPhase(s.conns, s.main.value))
    && (forall fd :: fd in s.queue ==> fd in s.conns && s.conns[fd].current.None?)
    && (forall fd :: fd in s.running ==> fd in s.conns && s.conns[fd].current.None?)
  }

  ghost predicate AllOk(s: State) {
    && (forall fd :: fd in s.conns ==> OpenOk(s.conns[fd]))
    && (forall i :: 0 <= i < |s.gone| ==> ClosedOk(s.gone[i]))
  }

  ghost predicate Inv(s: State) {
    Agreement(s) && OneOwner(s) && InPhase(s) && AllOk(s)
  }

  lemma {:induction false} NotInBatch(events: seq<Event>, fd: int)
    requires InBatch(events, fd) == 0
    ensures forall i :: 0 <= i < |events| ==> !(events[i].Client? && events[i].fd == fd)
  {
    if events != [] {
      NotInBatch(events[1..], fd);
      assert forall i :: 0 < i < |events| ==> events[i] == events[1..][i - 1];
    }
  }

  /** Nobody owns `fd`; everything else has one owner as usual. */
  ghost predicate Unowned(s: State, fd: int) {
    forall g :: Owners(s, g) == if g in s.conns && g != fd then 1 else 0
  }

  lemma UnownedNowhere(s: State, fd: int)
    requires Unowned(s, fd)
    ensures fd !in s.armed && fd !in s.queue && fd !in s.running && MainFd(s) != Some(fd)
    ensures forall i :: 0 <= i < |s.batch| ==> !(s.batch[i].Client? && s.batch[i].fd == fd)
  {
    assert Owners(s, fd) == 0;
    NotInBatch(s.batch, fd);
  }

  /** A connection nobody owns is replaced and handed to the task queue or to epoll. */
  lemma PhaseHandOver(s: State, t: State, fd: int, c: Conn)
    requires InPhase(s) && Unowned(s, fd)
    requires t.conns == s.conns[fd := c] && t.batch == s.batch && t.main == s.main && t.running == s.running
    requires || (t.queue == s.queue + [fd] && t.armed == s.armed && c.current.None?)
             || (t.queue == s.queue && t.armed == s.armed[fd := In] && c.current.None?)
             || (t.queue == s.queue && t.armed == s.armed[fd := Out] && c.current.Some?)
    ensures InPhase(t)
  {
    UnownedNowhere(s, fd);
    EventsStay(s.conns, t.conns, s.batch, s.main, fd);
  }

  /** Events of other connections are not affected. */
  lemma EventsStay(conns: map<int, Conn>, after: map<int, Conn>, batch: seq<Event>, main: Option<Event>, fd: int)
    requires forall g :: g in conns && g != fd ==> g in after && after[g] == conns[g]
    requires forall i :: 0 <= i < |batch| ==> EventInPhase(conns, batch[i]) && !(batch[i].Client? && batch[i].fd == fd)
    requires main.Some? ==> EventInPhase(conns, main.value) && !(main.value.Client? && main.value.fd == fd)
    ensures forall i :: 0 <= i < |batch| ==> EventInPhase(after, batch[i])
    ensures main.Some? ==> EventInPhase(after, main.value)
  {
  }

  lemma PhaseClose(s: State, fd: int)
    requires InPhase(s) && Unowned(s, fd)
    ensures InPhase(Close(s, fd))
  {
    UnownedNowhere(s, fd);
    EventsStay(s.conns, Close(s, fd).conns, s.batch, s.main, fd);
  }

  lemma AllOkUpdate(s: State, t: State, fd: int, c: Conn)
    requires AllOk(s) && OpenOk(c) && t.conns == s.conns[fd := c] && t.gone == s.gone
    ensures AllOk(t)
  {
  }

  lemma AllOkGone(s: State, t: State, fd: int, c: Conn)
    requires AllOk(s) && ClosedOk(c) && t.conns == s.conns - {fd} && t.gone == s.gone + [c]
    ensures AllOk(t)
  {
  }

  lemma CloseAllOk(s: State, fd: int)
    requires AllOk(s)
    ensures AllOk(Close(s, fd))
  {
    if fd in s.conns {
      ClosedIsOk(s.conns[fd]);
      AllOkGone(s, Close(s, fd), fd, Closed(s.conns[fd]));
    }
  }

  lemma {:induction false} ClosingAllOk(s: State, fds: seq<int>)
    requires AllOk(s)
    ensures AllOk(CloseAll(s, fds))
    decreases |fds|
  {
    if fds != [] {
      CloseAllOk(s, fds[0]);
      ClosingAllOk(Close(s, fds[0]), fds[1..]);
    }
  }

  lemma DueNowhereElse(s: State, now: int, fd: int)
    requires Inv(s) && Can(s, Tick(now)) && Safe(s, Tick(now)) && fd in T.Expired(s.timer, now)
    ensures fd !in s.queue && fd !in s.running
    ensures forall i :: 0 <= i < |s.batch| ==> !(s.batch[i].Client? && s.batch[i].fd == fd)
  {
    TickOwners(s, now, fd);
    assert Owners(s, fd) == 1;
    NotInBatch(s.batch, fd);
  }

  /** Connections that are only in epoll leave without anybody noticing. */
  lemma PhaseWithout(s: State, t: State, due: set<int>)
    requires InPhase(s)
    requires t.conns == s.conns - due && t.armed == s.armed - due && t.main == None
    requires t.batch == s.batch && t.queue == s.queue && t.running == s.running
    requires forall fd :: fd in due ==> fd !in s.queue && fd !in s.running
    requires forall i :: 0 <= i < |s.batch| && s.batch[i].Client? ==> s.batch[i].fd !in due
    ensures InPhase(t)
  {
  }

  lemma TickPhase(s: State, now: int)
    requires Inv(s) && Can(s, Tick(now)) && Safe(s, Tick(now))
    ensures InPhase(Do(s, Tick(now)))
  {
    TickEffect(s, now);
    var due := SetOf(T.Expired(s.timer, now));
    forall fd | fd in due
      ensures fd !in s.queue && fd !in s.running
      ensures forall i :: 0 <= i < |s.batch| && s.batch[i].Client? ==> s.batch[i].fd != fd
    {
      DueNowhereElse(s, now, fd);
    }
    PhaseWithout(s, Do(s, Tick(now)), due);
  }

  lemma TickInv(s: State, now: int)
    requires Inv(s) && Can(s, Tick(now)) && Safe(s, Tick(now))
    ensures InPhase(Do(s, Tick(now))) && AllOk(Do(s, Tick(now)))
  {
    TickPhase(s, now);
    ClosingAllOk(s.(main := None, timer := T.Kept(s.timer, now)), T.Expired(s.timer, now));
  }

  lemma WaitPhase(s: State, events: seq<Event>)
    requires Inv(s) && Can(s, Wait(events))
    ensures InPhase(Do(s, Wait(events)))
  {
    forall i | 0 <= i < |events| ensures EventInPhase(s.conns, events[i]) {
      assert Compatible(s.armed, events[i]);
    }
  }

  lemma ReadInv(s: State, recvs: seq<H.Recv>, now: int)
    requires Inv(s) && Can(s, ReadNow(recvs, now))
    ensures InPhase(Do(s, ReadNow(recvs, now))) && AllOk(Do(s, ReadNow(recvs, now)))
  {
    MainReleases(s);
    var fd := s.main.value.fd;
    var t := s.(main := None);
    assert EventInPhase(s.conns, s.main.value);
    var c := s.conns[fd];
    var (ok, buf) := H.ReadCall(c.h.parser.readBuf, recvs);
    if ok {
      var u := Do(s, ReadNow(recvs, now));
      assert OpenOk(c);
      ReadOk(c, buf, now);
      PhaseHandOver(t, u, fd, AfterRead(c, buf, now));
      AllOkUpdate(s, u, fd, AfterRead(c, buf, now));
    } else {
      PhaseClose(t, fd);
      CloseAllOk(t, fd);
    }
  }

  lemma CloseInv(s: State)
    requires Inv(s) && Can(s, CloseNow)
    ensures InPhase(Do(s, CloseNow)) && AllOk(Do(s, CloseNow))
  {
    MainReleases(s);
    PhaseClose(s.(main := None), s.main.value.fd);
    CloseAllOk(s.(main := None), s.main.value.fd);
  }

  lemma FinishInv(s: State, fd: int, env: H.Env)
    requires Inv(s) && Can(s, Finish(fd, env)) && Safe(s, Finish(fd, env))
    ensures InPhase(Do(s, Finish(fd, env))) && AllOk(Do(s, Finish(fd, env)))
  {
    RunningReleases(s, fd);
    var c := s.conns[fd];
    var d := H.Decide(c.h.parser, env);
    var t := s.(running := s.running - multiset{fd});
    var u := Do(s, Finish(fd, env));
    assert OpenOk(c);
    H.DecideThrows(c.h.parser, env);
    DecisionPrintable(c, env);
    FinishOk(c, d, env);
    PhaseHandOver(t, u, fd, AfterFinish(c, d, env));
    AllOkUpdate(s, u, fd, AfterFinish(c, d, env));
  }

  lemma WriteInv(s: State, offers: seq<O.Offer>, now: int)
    requires Inv(s) && Can(s, WriteNow(offers, now)) && Safe(s, WriteNow(offers, now))
    ensures InPhase(Do(s, WriteNow(offers, now))) && AllOk(Do(s, WriteNow(offers, now)))
  {
    MainReleases(s);
    assert EventInPhase(s.conns, s.main.value);
    WriteAt(s.(main := None), s.main.value.fd, offers, now);
  }

  lemma WriteAt(s: State, fd: int, offers: seq<O.Offer>, now: int)
    requires InPhase(s) && AllOk(s) && Unowned(s, fd) && fd in s.conns && s.conns[fd].current.Some?
    requires s.main.None? && O.NotBroken(offers)
    ensures InPhase(DoWrite(s, fd, offers, now)) && AllOk(DoWrite(s, fd, offers, now))
  {
    var c0 := s.conns[fd];
    var r := O.Write(c0.h.out, offers);
    var c := AfterWrite(c0, r, now);
    assert OpenOk(c0);
    WriteOk(c0, offers, now);
    var t := DoWrite(s, fd, offers, now);
    if !r.done {
      PhaseHandOver(s, t, fd, c);
      AllOkUpdate(s, t, fd, c);
    } else if c.h.parser.f.keepAlive {
      ResetOk(c);
      var d := c.(h := H.AfterReset(c.h));
      PhaseHandOver(s, t, fd, d);
      AllOkUpdate(s, t, fd, d);
    } else {
      LastWrite(s, fd, c, now);
    }
  }

  /** The response asked the client to leave: the connection is closed behind it. */
  lemma LastWrite(s: State, fd: int, c: Conn, now: int)
    requires InPhase(s) && AllOk(s) && Unowned(s, fd) && fd in s.conns && s.main.None? && Flushed(c)
    ensures var t := Close(s.(timer := T.Adjust(s.timer, fd, now), conns := s.conns[fd := c]), fd);
            InPhase(t) && AllOk(t)
  {
    var u := s.(timer := T.Adjust(s.timer, fd, now), conns := s.conns[fd := c]);
    var t := Close(u, fd);
    UnownedNowhere(s, fd);
    GoneAndSame(s.conns, s.armed, fd, c);
    PhaseWithout(s, t, {fd});
    FlushedClosed(c);
    AllOkGone(s, t, fd, Closed(c));
  }

  lemma GoneAndSame(conns: map<int, Conn>, armed: map<int, Interest>, fd: int, c: Conn)
    requires fd !in armed
    ensures conns[fd := c] - {fd} == conns - {fd} && armed - {fd} == armed
  {
  }

  lemma FlushedClosed(c: Conn)
    requires Flushed(c)
    ensures ClosedOk(Closed(c))
  {
  }

  lemma TakePhase(s: State)
    requires InPhase(s) && Can(s, Take)
    ensures InPhase(Do(s, Take))
  {
    assert s.queue == [s.queue[0]] + s.queue[1..];
  }

  lemma AcceptInv(s: State, fd: int, addr: int, now: int)
    requires Inv(s) && Can(s, Accept(fd, addr, now))
    ensures InPhase(Do(s, Accept(fd, addr, now))) && AllOk(Do(s, Accept(fd, addr, now)))
  {
    if fd < MAX_FD {
      NewOk(now);
      assert Owners(s, fd) == 0;
      PhaseHandOver(s, DoAccept(s, fd, addr, now), fd, NewConn(now));
      AllOkUpdate(s, DoAccept(s, fd, addr, now), fd, NewConn(now));
    }
  }

  lemma StepKeepsInv(s: State, op: Op)
    requires Inv(s) && Can(s, op) && Safe(s, op)
    ensures Inv(Do(s, op))
  {
    StepAgrees(s, op);
    StepOwns(s, op);
    match op
    case Wait(events) => WaitPhase(s, events);
    case Dispatch =>
    case Accept(fd, addr, now) => AcceptInv(s, fd, addr, now);
    case AcceptDone =>
    case Tick(now) => TickInv(s, now);
    case CloseNow => CloseInv(s);
    case ReadNow(recvs, now) => ReadInv(s, recvs, now);
    case WriteNow(offers, now) => WriteInv(s, offers, now);
    case Take => TakePhase(s);
    case Finish(fd, env) => FinishInv(s, fd, env);
  }

  // ---------------------------------------------------------------- whole runs

  predicate SafeRun(s: State, ops: seq<Op>)
    decreases |ops|
  {
    ops == [] || (Can(s, ops[0]) && Safe(s, ops[0]) && SafeRun(Do(s, ops[0]), ops[1..]))
  }

  lemma {:induction false} RunAgrees(s: State, ops: seq<Op>)
    requires Agreement(s)
    ensures Run(s, ops).Some? ==> Agreement(Run(s, ops).value)
    decreases |ops|
  {
    if ops != [] && Can(s, ops[0]) {
      StepAgrees(s, ops[0]);
      RunAgrees(Do(s, ops[0]), ops[1..]);
    }
  }

  lemma {:induction false} RunKeepsInv(s: State, ops: seq<Op>)
    requires Inv(s) && SafeRun(s, ops)
    ensures Run(s, ops).Some? && Inv(Run(s, ops).value)
    decreases |ops|
  {
    if ops != [] {
      StepKeepsInv(s, ops[0]);
      RunKeepsInv(Do(s, ops[0]), ops[1..]);
    }
  }

  lemma SafeReach(ops: seq<Op>)
    requires SafeRun(Start(), ops)
    ensures Run(Start(), ops).Some? && Inv(Run(Start(), ops).value)
  {
    RunKeepsInv(Start(), ops);
  }

  /** In every reachable state, safe or not, the timer has exactly one node for each open
      connection, due IDLE_LIMIT after its last activity, and the user count is their number. */
  lemma TimerAgreesAlways(ops: seq<Op>)
    requires Run(Start(), ops).Some?
    ensures var s := Run(Start(), ops).value;
            && s.userCount == |s.conns| && T.FdsOf(s.timer) == s.conns.Keys
            && T.DistinctFds(s.timer) && T.Sorted(s.timer)
            && forall n :: n in s.timer ==> n.fd in s.conns && n.expire == s.conns[n.fd].last + T.IDLE_LIMIT
  {
    RunAgrees(Start(), ops);
  }

  /** In every reachable state of a safe run each open descriptor is in exactly one place. So no
      two threads touch the same connection, and none is left where nothing can wake it. */
  lemma OneOwnerAlways(ops: seq<Op>, fd: int)
    requires SafeRun(Start(), ops)
    ensures Run(Start(), ops).Some?
    ensures var s := Run(Start(), ops).value;
            && Owners(s, fd) == (if fd in s.conns then 1 else 0)
            && s.running[fd] <= 1
            && (fd in s.running ==> MainFd(s) != Some(fd) && fd !in s.queue && fd !in s.armed)
  {
    SafeReach(ops);
    OnePlace(Run(Start(), ops).value, fd);
  }

  lemma OnePlace(s: State, fd: int)
    requires OneOwner(s)
    ensures Owners(s, fd) == (if fd in s.conns then 1 else 0)
    ensures s.running[fd] <= 1
    ensures fd in s.running ==> MainFd(s) != Some(fd) && fd !in s.queue && fd !in s.armed
  {
  }

  /** In every reachable state of a safe run the bytes on the wire are the finished responses, in
      the order their requests were answered, followed by the first `haveSend` bytes of the one
      being sent; and the server will keep the connection exactly if that one announces it. */
  lemma WireAlways(ops: seq<Op>, fd: int)
    requires SafeRun(Start(), ops)
    ensures Run(Start(), ops).Some?
    ensures var s := Run(Start(), ops).value;
            fd in s.conns ==>
              var c := s.conns[fd];
              match c.current
              case None => c.wire == R.Wire(c.finished)
              case Some(r) =>
                && c.h.out.haveSend < |R.Bytes(r)|
                && c.wire == R.Wire(c.finished) + R.Bytes(r)[..c.h.out.haveSend]
                && c.h.parser.f.keepAlive == R.KeepAlive(r)
  {
    SafeReach(ops);
    var s := Run(Start(), ops).value;
    if fd in s.conns {
      assert OpenOk(s.conns[fd]);
      WireCut(s.conns[fd]);
    }
  }

  /** What the client of a connection has got: the responses finished on it in full, which it reads
      by Content-Length, and a prefix of at most one more. */
  ghost predicate ClientSees(c: Conn) {
    && R.Wire(c.finished) <= c.wire && R.ClientRead(R.Wire(c.finished)) == Some(R.Messages(c.finished))
    && match c.current
       case None => c.wire == R.Wire(c.finished)
       case Some(r) => c.wire <= R.Wire(c.finished) + R.Bytes(r)
  }

  /** End to end, on every connection, open or closed: a client that frames by Content-Length has read
      exactly the bodies of the responses the server finished on it, and behind them a prefix of the
      one being sent when there is one. On an open connection each of them asked the client to stay,
      on a closed one each but the last. */
  lemma ClientSeesResponses(ops: seq<Op>)
    requires SafeRun(Start(), ops)
    ensures Run(Start(), ops).Some?
    ensures var s := Run(Start(), ops).value;
            && (forall fd :: fd in s.conns ==>
                  ClientSees(s.conns[fd]) && forall r :: r in s.conns[fd].finished ==> R.KeepAlive(r))
            && (forall k :: 0 <= k < |s.gone| ==> ClientSees(s.gone[k]) && StayUntilLast(s.gone[k].finished))
  {
    SafeReach(ops);
    var s := Run(Start(), ops).value;
    forall fd | fd in s.conns
      ensures ClientSees(s.conns[fd]) && forall r :: r in s.conns[fd].finished ==> R.KeepAlive(r)
    {
      OpenSees(s.conns[fd]);
    }
    forall k | 0 <= k < |s.gone| ensures ClientSees(s.gone[k]) && StayUntilLast(s.gone[k].finished) {
      assert ClosedOk(s.gone[k]);
      R.FramingRoundTrip(s.gone[k].finished);
    }
  }

  lemma OpenSees(c: Conn)
    requires OpenOk(c)
    ensures ClientSees(c)
  {
    R.FramingRoundTrip(c.finished);
    if c.current.Some? {
      WireCut(c);
    }
  }

  /** Mapping balance: when a task runs, nothing is mapped and no response is pending, so building
      one overwrites nothing; and over the life of a connection one mapping is made for every file
      response, with the length of the file, and released exactly once, in order, with that length. */
  lemma MappingsBalance(ops: seq<Op>)
    requires SafeRun(Start(), ops)
    ensures Run(Start(), ops).Some?
    ensures var s := Run(Start(), ops).value;
            && (forall fd :: fd in s.running ==>
                  fd in s.conns && s.conns[fd].current.None? && s.conns[fd].h.out.mapped.None?
                  && s.conns[fd].made == s.conns[fd].freed)
            && (forall fd :: fd in s.conns ==> MadeOk(s.conns[fd]) && s.conns[fd].freed <= s.conns[fd].made)
            && (forall i :: 0 <= i < |s.gone| ==>
                  MadeOk(s.gone[i]) && s.gone[i].made == s.gone[i].freed && s.gone[i].h.out.mapped.None?)
  {
    SafeReach(ops);
    BalancedNow(Run(Start(), ops).value);
  }

  lemma BalancedNow(s: State)
    requires InPhase(s) && AllOk(s)
    ensures forall fd :: fd in s.running ==>
              fd in s.conns && s.conns[fd].current.None? && s.conns[fd].h.out.mapped.None?
              && s.conns[fd].made == s.conns[fd].freed
    ensures forall fd :: fd in s.conns ==> MadeOk(s.conns[fd]) && s.conns[fd].freed <= s.conns[fd].made
    ensures forall i :: 0 <= i < |s.gone| ==>
              MadeOk(s.gone[i]) && s.gone[i].made == s.gone[i].freed && s.gone[i].h.out.mapped.None?
  {
    forall fd | fd in s.conns
      ensures MadeOk(s.conns[fd]) && s.conns[fd].freed <= s.conns[fd].made
      ensures s.conns[fd].current.None? ==> s.conns[fd].h.out.mapped.None? && s.conns[fd].made == s.conns[fd].freed
    {
      assert OpenOk(s.conns[fd]);
    }
    forall i | 0 <= i < |s.gone|
      ensures MadeOk(s.gone[i]) && s.gone[i].made == s.gone[i].freed && s.gone[i].h.out.mapped.None?
    {
      assert ClosedOk(s.gone[i]);
    }
  }

  // ---------------------------------------------------------------- nobody is forgotten

  /** How many connections a run accepts. */
  function Accepted(ops: seq<Op>): nat {
    if ops == [] then 0 else (if ops[0].Accept? && ops[0].fd < 65536 then 1 else 0) + Accepted(ops[1..])
  }

  lemma CloseKeepsCount(s: State, fd: int)
    ensures |Close(s, fd).conns| + |Close(s, fd).gone| == |s.conns| + |s.gone|
  {
    SizeRemove(s.conns, fd);
  }

  lemma {:induction false} CloseAllKeepsCount(s: State, fds: seq<int>)
    ensures |CloseAll(s, fds).conns| + |CloseAll(s, fds).gone| == |s.conns| + |s.gone|
    decreases |fds|
  {
    if fds != [] {
      CloseKeepsCount(s, fds[0]);
      CloseAllKeepsCount(Close(s, fds[0]), fds[1..]);
    }
  }

  lemma UpdateKeepsCount(s: State, t: State, fd: int, c: Conn)
    requires fd in s.conns && t.conns == s.conns[fd := c] && t.gone == s.gone
    ensures |t.conns| + |t.gone| == |s.conns| + |s.gone|
  {
    SizeAdd(s.conns, fd, c);
  }

  lemma ReadKeepsCount(s: State, fd: int, recvs: seq<H.Recv>, now: int)
    ensures var t := DoRead(s, fd, recvs, now); |t.conns| + |t.gone| == |s.conns| + |s.gone|
  {
    if fd in s.conns {
      var (ok, buf) := H.ReadCall(s.conns[fd].h.parser.readBuf, recvs);
      if ok {
        UpdateKeepsCount(s, DoRead(s, fd, recvs, now), fd, AfterRead(s.conns[fd], buf, now));
      } else {
        CloseKeepsCount(s, fd);
      }
    }
  }

  lemma WriteKeepsCount(s: State, fd: int, offers: seq<O.Offer>, now: int)
    ensures var t := DoWrite(s, fd, offers, now); |t.conns| + |t.gone| == |s.conns| + |s.gone|
  {
    if fd in s.conns {
      var r := O.Write(s.conns[fd].h.out, offers);
      var c := AfterWrite(s.conns[fd], r, now);
      if r.done && !c.h.parser.f.keepAlive {
        var u := s.(timer := T.Adjust(s.timer, fd, now), conns := s.conns[fd := c]);
        UpdateKeepsCount(s, u, fd, c);
        CloseKeepsCount(u, fd);
      } else {
        UpdateKeepsCount(s, DoWrite(s, fd, offers, now), fd, if r.done then c.(h := H.AfterReset(c.h)) else c);
      }
    }
  }

  lemma StepCounts(s: State, op: Op)
    requires Can(s, op)
    ensures |Do(s, op).conns| + |Do(s, op).gone| ==
            |s.conns| + |s.gone| + if op.Accept? && op.fd < 65536 then 1 else 0
  {
    match op
    case Accept(fd, _, now) => SizeAdd(s.conns, fd, NewConn(now));
    case Tick(now) => CloseAllKeepsCount(s.(main := None, timer := T.Kept(s.timer, now)), T.Expired(s.timer, now));
    case CloseNow => CloseKeepsCount(s.(main := None), s.main.value.fd);
    case ReadNow(recvs, now) => ReadKeepsCount(s.(main := None), s.main.value.fd, recvs, now);
    case WriteNow(offers, now) => WriteKeepsCount(s.(main := None), s.main.value.fd, offers, now);
    case Finish(fd, env) =>
      if fd in s.conns {
        FinishIsProcess(s, fd, env);
        UpdateKeepsCount(s, DoFinish(s, fd, env), fd, DoFinish(s, fd, env).conns[fd]);
      }
    case _ =>
  }

  lemma {:induction false} CountFrom(s: State, ops: seq<Op>)
    requires Run(s, ops).Some?
    ensures |Run(s, ops).value.conns| + |Run(s, ops).value.gone| == |s.conns| + |s.gone| + Accepted(ops)
    decreases |ops|
  {
    if ops != [] {
      StepCounts(s, ops[0]);
      CountFrom(Do(s, ops[0]), ops[1..]);
    }
  }

  /** Over every run, safe or not, each connection with a descriptor below 65536 that was accepted is
      open or among the closed ones, and nothing else is. */
  lemma NobodyForgotten(ops: seq<Op>)
    requires Run(Start(), ops).Some?
    ensures |Run(Start(), ops).value.conns| + |Run(Start(), ops).value.gone| == Accepted(ops)
  {
    CountFrom(Start(), ops);
  }
}
