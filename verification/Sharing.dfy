/** When two threads take the same descriptor: over every run, safe or not, exactly if `accept` hands
    out a descriptor that still has an event in the batch or a task. */
module Sharing {
  import opened Text
  import opened Reactor
  import opened Ownership
  import H = HttpConn
  import O = Outgoing
  import T = Timer

  /** Every descriptor is in at most one place. */
  ghost predicate AtMostOneOwner(s: State) {
    forall fd :: Owners(s, fd) <= 1
  }

  /** Only open descriptors are armed: `close` takes them out of the epoll set. */
  ghost predicate ArmedOpen(s: State) {
    forall fd :: fd in s.armed ==> fd in s.conns
  }

  /** No event in the batch and no task is left over for `fd`. */
  predicate Unclaimed(s: State, fd: int) {
    InBatch(s.batch, fd) == 0 && fd !in s.queue && fd !in s.running
  }

  /** The guard: a descriptor that is accepted is not claimed. */
  predicate CleanAccept(s: State, op: Op) {
    op.Accept? && op.fd < MAX_FD ==> Unclaimed(s, op.fd)
  }

  // ---------------------------------------------------------------- closing

  lemma CloseOwners(s: State, fd: int, g: int)
    requires ArmedOpen(s)
    ensures Owners(Close(s, fd), g) <= Owners(s, g) && ArmedOpen(Close(s, fd))
  {
  }

  lemma {:induction false} CloseAllOwners(s: State, fds: seq<int>, g: int)
    requires ArmedOpen(s)
    ensures Owners(CloseAll(s, fds), g) <= Owners(s, g) && ArmedOpen(CloseAll(s, fds))
    decreases |fds|
  {
    if fds != [] {
      CloseOwners(s, fds[0], g);
      CloseAllOwners(Close(s, fds[0]), fds[1..], g);
    }
  }

  // ---------------------------------------------------------------- steps

  /** A descriptor that left the hands of the main thread or of a worker is given to at most one place. */
  lemma Released(s: State, fd: int)
    requires AtMostOneOwner(s) && MainFd(s) == Some(fd)
    ensures forall g :: Owners(s.(main := None), g) <= if g == fd then 0 else 1
  {
    forall g ensures Owners(s.(main := None), g) <= if g == fd then 0 else 1 {
      assert Owners(s, g) <= 1;
    }
  }

  lemma TaskReleased(s: State, fd: int)
    requires AtMostOneOwner(s) && fd in s.running
    ensures forall g :: Owners(s.(running := s.running - multiset{fd}), g) <= if g == fd then 0 else 1
  {
    forall g ensures Owners(s.(running := s.running - multiset{fd}), g) <= if g == fd then 0 else 1 {
      assert Owners(s, g) <= 1;
    }
  }

  lemma GivenOut(s: State, t: State, fd: int)
    requires forall g :: Owners(s, g) <= if g == fd then 0 else 1
    requires ArmedOpen(s) && fd in t.conns && t.conns.Keys == s.conns.Keys
    requires t.batch == s.batch && t.main == s.main && t.running == s.running
    requires || (t.queue == s.queue && t.armed.Keys == s.armed.Keys + {fd})
             || (t.queue == s.queue + [fd] && t.armed == s.armed)
             || (t.queue == s.queue && t.armed == s.armed)
    ensures AtMostOneOwner(t) && ArmedOpen(t)
  {
    forall g ensures Owners(t, g) <= 1 {
      assert Owners(s, g) <= if g == fd then 0 else 1;
    }
  }

  lemma ClosedOut(s: State, fd: int)
    requires (forall g :: Owners(s, g) <= 1) && ArmedOpen(s)
    ensures AtMostOneOwner(Close(s, fd)) && ArmedOpen(Close(s, fd))
  {
    forall g ensures Owners(Close(s, fd), g) <= 1 {
      CloseOwners(s, fd, g);
    }
    CloseOwners(s, fd, fd);
  }

  lemma ReadShares(s: State, fd: int, recvs: seq<H.Recv>, now: int)
    requires (forall g :: Owners(s, g) <= if g == fd then 0 else 1) && ArmedOpen(s)
    ensures AtMostOneOwner(DoRead(s, fd, recvs, now)) && ArmedOpen(DoRead(s, fd, recvs, now))
  {
    if fd in s.conns {
      if H.ReadCall(s.conns[fd].h.parser.readBuf, recvs).0 {
        GivenOut(s, DoRead(s, fd, recvs, now), fd);
      } else {
        ClosedOut(s, fd);
      }
    }
  }

  lemma WriteShares(s: State, fd: int, offers: seq<O.Offer>, now: int)
    requires (forall g :: Owners(s, g) <= if g == fd then 0 else 1) && ArmedOpen(s)
    ensures AtMostOneOwner(DoWrite(s, fd, offers, now)) && ArmedOpen(DoWrite(s, fd, offers, now))
  {
    if fd in s.conns {
      var r := O.Write(s.conns[fd].h.out, offers);
      var c := AfterWrite(s.conns[fd], r, now);
      if r.done && !c.h.parser.f.keepAlive {
        var u := s.(timer := T.Adjust(s.timer, fd, now), conns := s.conns[fd := c]);
        forall g ensures Owners(u, g) <= 1 {
          assert Owners(u, g) == Owners(s, g);
        }
        ClosedOut(u, fd);
      } else {
        GivenOut(s, DoWrite(s, fd, offers, now), fd);
      }
    }
  }

  lemma FinishShares(s: State, fd: int, env: H.Env)
    requires AtMostOneOwner(s) && ArmedOpen(s) && Can(s, Finish(fd, env))
    ensures AtMostOneOwner(Do(s, Finish(fd, env))) && ArmedOpen(Do(s, Finish(fd, env)))
  {
    TaskReleased(s, fd);
    var t := s.(running := s.running - multiset{fd});
    if fd in s.conns {
      FinishIsProcess(s, fd, env);
      GivenOut(t, Do(s, Finish(fd, env)), fd);
    }
  }

  lemma AcceptAdds(s: State, fd: int, addr: int, now: int, g: int)
    requires ArmedOpen(s) && Can(s, Accept(fd, addr, now))
    ensures var t := Do(s, Accept(fd, addr, now));
            && ArmedOpen(t)
            && Owners(t, g) == Owners(s, g) + if g == fd && fd < MAX_FD then 1 else 0
  {
  }

  lemma Claims(s: State, fd: int)
    requires ArmedOpen(s) && s.main == Some(Listen) && fd !in s.conns
    ensures Owners(s, fd) == 0 <==> Unclaimed(s, fd)
  {
  }

  /** An accepted descriptor gets one more owner than it had; it is the only one if and only if no
      event in the batch and no task was left over for it. */
  lemma AcceptOwnsExactly(s: State, fd: int, addr: int, now: int)
    requires ArmedOpen(s) && Can(s, Accept(fd, addr, now)) && fd < MAX_FD
    ensures var t := Do(s, Accept(fd, addr, now));
            && Owners(t, fd) == Owners(s, fd) + 1
            && (Owners(t, fd) == 1 <==> Unclaimed(s, fd))
  {
    AcceptAdds(s, fd, addr, now, fd);
    Claims(s, fd);
  }

  lemma AcceptShares(s: State, fd: int, addr: int, now: int)
    requires AtMostOneOwner(s) && ArmedOpen(s) && Can(s, Accept(fd, addr, now))
    ensures AtMostOneOwner(Do(s, Accept(fd, addr, now))) <==> CleanAccept(s, Accept(fd, addr, now))
    ensures ArmedOpen(Do(s, Accept(fd, addr, now)))
  {
    var t := Do(s, Accept(fd, addr, now));
    AcceptAdds(s, fd, addr, now, fd);
    if fd < MAX_FD {
      Claims(s, fd);
    }
    if CleanAccept(s, Accept(fd, addr, now)) {
      forall g ensures Owners(t, g) <= 1 {
        AcceptAdds(s, fd, addr, now, g);
        assert Owners(s, g) <= 1;
      }
    } else {
      assert Owners(t, fd) > 1;
    }
  }

  lemma WaitShares(s: State, events: seq<Event>)
    requires AtMostOneOwner(s) && Can(s, Wait(events))
    ensures AtMostOneOwner(Do(s, Wait(events)))
  {
    var t := Do(s, Wait(events));
    forall fd ensures Owners(t, fd) <= 1 {
      InBatchOnce(events, fd);
      assert Owners(s, fd) <= 1;
    }
  }

  lemma MoveShares(s: State, op: Op)
    requires AtMostOneOwner(s) && Can(s, op) && (op.Dispatch? || op.AcceptDone? || op.Take?)
    ensures AtMostOneOwner(Do(s, op))
  {
    var t := Do(s, op);
    if op.Take? {
      assert s.queue == [s.queue[0]] + t.queue;
    }
    forall fd ensures Owners(t, fd) <= 1 {
      assert Owners(s, fd) <= 1;
    }
  }

  lemma TickShares(s: State, now: int)
    requires AtMostOneOwner(s) && ArmedOpen(s) && Can(s, Tick(now))
    ensures AtMostOneOwner(Do(s, Tick(now))) && ArmedOpen(Do(s, Tick(now)))
  {
    var u := s.(main := None, timer := T.Kept(s.timer, now));
    forall g ensures Owners(Do(s, Tick(now)), g) <= 1 {
      assert Owners(s, g) <= 1;
      CloseAllOwners(u, T.Expired(s.timer, now), g);
    }
    CloseAllOwners(u, T.Expired(s.timer, now), 0);
  }

  /** Of all steps, safe or not, the accept of a claimed descriptor is the only one that gives a
      descriptor a second owner. */
  lemma StepShares(s: State, op: Op)
    requires AtMostOneOwner(s) && ArmedOpen(s) && Can(s, op)
    ensures AtMostOneOwner(Do(s, op)) <==> CleanAccept(s, op)
    ensures ArmedOpen(Do(s, op))
  {
    match op
    case Wait(events) => WaitShares(s, events);
    case Dispatch => MoveShares(s, op);
    case Accept(fd, addr, now) => AcceptShares(s, fd, addr, now);
    case AcceptDone => MoveShares(s, op);
    case Tick(now) => TickShares(s, now);
    case CloseNow =>
      Released(s, s.main.value.fd);
      ClosedOut(s.(main := None), s.main.value.fd);
    case ReadNow(recvs, now) =>
      Released(s, s.main.value.fd);
      ReadShares(s.(main := None), s.main.value.fd, recvs, now);
    case WriteNow(offers, now) =>
      Released(s, s.main.value.fd);
      WriteShares(s.(main := None), s.main.value.fd, offers, now);
    case Take => MoveShares(s, op);
    case Finish(fd, env) => FinishShares(s, fd, env);
  }

  // ---------------------------------------------------------------- whole runs

  /** Every state of the run, the last one included, has at most one owner for each descriptor. */
  ghost predicate NeverTwo(s: State, ops: seq<Op>)
    requires Run(s, ops).Some?
    decreases |ops|
  {
    AtMostOneOwner(s) && (ops == [] || NeverTwo(Do(s, ops[0]), ops[1..]))
  }

  predicate CleanAccepts(s: State, ops: seq<Op>)
    requires Run(s, ops).Some?
    decreases |ops|
  {
    ops == [] || (CleanAccept(s, ops[0]) && CleanAccepts(Do(s, ops[0]), ops[1..]))
  }

  lemma {:induction false} NeverTwoFrom(s: State, ops: seq<Op>)
    requires Run(s, ops).Some? && AtMostOneOwner(s) && ArmedOpen(s)
    ensures NeverTwo(s, ops) <==> CleanAccepts(s, ops)
    decreases |ops|
  {
    if ops != [] {
      StepShares(s, ops[0]);
      if CleanAccept(s, ops[0]) {
        NeverTwoFrom(Do(s, ops[0]), ops[1..]);
      }
    }
  }

  /** Over every run, whatever tasks throw, ticks close and `writev` answers: no descriptor ever has
      two owners if and only if `accept` never hands out one that still has an event in the batch or a
      task. */
  lemma NeverTwoExactly(ops: seq<Op>)
    requires Run(Start(), ops).Some?
    ensures NeverTwo(Start(), ops) <==> CleanAccepts(Start(), ops)
  {
    NeverTwoFrom(Start(), ops);
  }
}
