/** EPOLLONESHOT as ownership: every open descriptor is in exactly one place, so no two threads
    touch the same connection and none is left without a way to be woken. */
module Ownership {
  import opened Text
  import opened Reactor
  import H = HttpConn
  import O = Outgoing
  import T = Timer
  import Q = Request

  /** In how many places a descriptor is: armed in epoll, in the batch, with the main thread, in
      the task queue, on a worker. */
  ghost function Owners(s: State, fd: int): nat {
    (if fd in s.armed then 1 else 0) + InBatch(s.batch, fd) + (if MainFd(s) == Some(fd) then 1 else 0)
    + multiset(s.queue)[fd] + s.running[fd]
  }

  ghost predicate OneOwner(s: State) {
    forall fd :: Owners(s, fd) == if fd in s.conns then 1 else 0
  }

  /** The steps under which ownership is kept: a tick closes only descriptors that are armed, no task
      meets a length that `stoi` rejects, and `writev` fails only with EAGAIN. */
  predicate Safe(s: State, op: Op) {
    match op
    case Tick(now) => forall fd :: fd in T.Expired(s.timer, now) ==> fd in s.armed
    case Finish(fd, _) => fd in s.conns ==> !Q.LengthRejected(s.conns[fd].h.parser)
    case WriteNow(offers, _) => O.NotBroken(offers)
    case _ => true
  }

  lemma {:induction false} InBatchOnce(events: seq<Event>, fd: int)
    requires AtMostOnce(events)
    ensures InBatch(events, fd) <= 1
    ensures InBatch(events, fd) > 0 <==> exists i :: 0 <= i < |events| && events[i].Client? && events[i].fd == fd
  {
    if events != [] {
      InBatchOnce(events[1..], fd);
      if InBatch(events[1..], fd) > 0 {
        var i :| 0 <= i < |events[1..]| && events[1..][i].Client? && events[1..][i].fd == fd;
        assert events[i + 1] == events[1..][i];
      }
      if i :| 0 < i < |events| && events[i].Client? && events[i].fd == fd {
        assert events[1..][i - 1] == events[i];
      }
    }
  }

  lemma WaitOwns(s: State, events: seq<Event>)
    requires OneOwner(s) && Can(s, Wait(events))
    ensures OneOwner(Do(s, Wait(events)))
  {
    var t := Do(s, Wait(events));
    forall fd ensures Owners(t, fd) == Owners(s, fd) {
      InBatchOnce(events, fd);
    }
  }

  lemma DispatchOwns(s: State)
    requires OneOwner(s) && Can(s, Dispatch)
    ensures OneOwner(Do(s, Dispatch))
  {
    var t := Do(s, Dispatch);
    forall fd ensures Owners(t, fd) == Owners(s, fd) {
    }
  }

  lemma CloseOwns(s: State, fd: int)
    requires forall g :: Owners(s, g) == if g in s.conns && g != fd then 1 else 0
    requires fd in s.conns
    ensures OneOwner(Close(s, fd))
  {
    var t := Close(s, fd);
    forall g ensures Owners(t, g) == if g in t.conns then 1 else 0 {
      assert Owners(s, g) == if g in s.conns && g != fd then 1 else 0;
    }
  }

  lemma TakeOwns(s: State)
    requires OneOwner(s) && Can(s, Take)
    ensures OneOwner(Do(s, Take))
  {
    var t := Do(s, Take);
    assert s.queue == [s.queue[0]] + t.queue;
    forall fd ensures Owners(t, fd) == Owners(s, fd) {
    }
  }

  /** What the main thread handles it owns: it is open and nowhere else. */
  lemma MainReleases(s: State)
    requires OneOwner(s) && MainFd(s).Some?
    ensures var fd := MainFd(s).value;
            && fd in s.conns && fd !in s.armed
            && forall g :: Owners(s.(main := None), g) == if g in s.conns && g != fd then 1 else 0
  {
    var fd := MainFd(s).value;
    assert Owners(s, fd) == if fd in s.conns then 1 else 0;
    forall g ensures Owners(s.(main := None), g) == if g in s.conns && g != fd then 1 else 0 {
      assert Owners(s, g) == if g in s.conns then 1 else 0;
    }
  }

  /** Handing a descriptor that nobody owns to epoll or to the task queue. */
  lemma HandOver(s: State, t: State, fd: int)
    requires forall g :: Owners(s, g) == if g in s.conns && g != fd then 1 else 0
    requires t.conns.Keys == s.conns.Keys && fd in s.conns
    requires t.batch == s.batch && t.main == s.main && t.running == s.running
    requires || (t.queue == s.queue && t.armed.Keys == s.armed.Keys + {fd})
             || (t.queue == s.queue + [fd] && t.armed == s.armed)
    ensures OneOwner(t)
  {
    forall g ensures Owners(t, g) == if g in t.conns then 1 else 0 {
      assert Owners(s, g) == if g in s.conns && g != fd then 1 else 0;
    }
  }

  lemma ReadOwns(s: State, recvs: seq<H.Recv>, now: int)
    requires OneOwner(s) && Can(s, ReadNow(recvs, now))
    ensures OneOwner(Do(s, ReadNow(recvs, now)))
  {
    MainReleases(s);
    var fd := s.main.value.fd;
    var t := s.(main := None);
    if H.ReadCall(s.conns[fd].h.parser.readBuf, recvs).0 {
      HandOver(t, Do(s, ReadNow(recvs, now)), fd);
    } else {
      CloseOwns(t, fd);
    }
  }

  lemma WriteOwns(s: State, offers: seq<O.Offer>, now: int)
    requires OneOwner(s) && Can(s, WriteNow(offers, now))
    ensures OneOwner(Do(s, WriteNow(offers, now)))
  {
    MainReleases(s);
    var fd := s.main.value.fd;
    var t := s.(main := None);
    var r := O.Write(s.conns[fd].h.out, offers);
    var c := AfterWrite(s.conns[fd], r, now);
    if r.done && !c.h.parser.f.keepAlive {
      var u := t.(timer := T.Adjust(s.timer, fd, now), conns := s.conns[fd := c]);
      forall g ensures Owners(u, g) == if g in u.conns && g != fd then 1 else 0 {
        assert Owners(u, g) == Owners(t, g);
      }
      CloseOwns(u, fd);
    } else {
      HandOver(t, Do(s, WriteNow(offers, now)), fd);
    }
  }

  lemma RunningReleases(s: State, fd: int)
    requires OneOwner(s) && fd in s.running
    ensures fd in s.conns && fd !in s.armed
    ensures forall g :: Owners(s.(running := s.running - multiset{fd}), g) == if g in s.conns && g != fd then 1 else 0
  {
    assert Owners(s, fd) == if fd in s.conns then 1 else 0;
    var t := s.(running := s.running - multiset{fd});
    forall g ensures Owners(t, g) == if g in s.conns && g != fd then 1 else 0 {
      assert Owners(s, g) == if g in s.conns then 1 else 0;
    }
  }

  /** A task that ends keeps ownership intact if and only if the bytes it parses hold no length that
      `stoi` rejects: the descriptor of such a request is in no place at all afterwards, and only the
      timer can still reach it. */
  lemma FinishOwnsExactly(s: State, fd: int, env: H.Env)
    requires OneOwner(s) && Can(s, Finish(fd, env))
    ensures fd in s.conns
    ensures OneOwner(Do(s, Finish(fd, env))) <==> !Q.LengthRejected(s.conns[fd].h.parser)
    ensures Q.LengthRejected(s.conns[fd].h.parser) ==> Owners(Do(s, Finish(fd, env)), fd) == 0
  {
    RunningReleases(s, fd);
    H.DecideThrows(s.conns[fd].h.parser, env);
    var t := s.(running := s.running - multiset{fd});
    var u := Do(s, Finish(fd, env));
    if H.Decide(s.conns[fd].h.parser, env).Throws? {
      assert Owners(u, fd) == Owners(t, fd) == 0;
    } else {
      HandOver(t, u, fd);
    }
  }

  /** A tick takes a token away only from descriptors that were armed and due. */
  lemma TickOwners(s: State, now: int, fd: int)
    requires Agreement(s) && Can(s, Tick(now))
    ensures var t := Do(s, Tick(now));
            var due := fd in T.Expired(s.timer, now);
            && Owners(t, fd) == Owners(s, fd) - (if fd in s.armed && due then 1 else 0)
            && (fd in t.conns <==> fd in s.conns && !due)
            && (due ==> fd in s.conns)
  {
    TickEffect(s, now);
    assert fd in T.Expired(s.timer, now) <==> fd in SetOf(T.Expired(s.timer, now));
  }

  /** A tick keeps ownership intact if and only if every descriptor it closes is armed. */
  lemma TickOwnsExactly(s: State, now: int)
    requires Agreement(s) && OneOwner(s) && Can(s, Tick(now))
    ensures OneOwner(Do(s, Tick(now))) <==> Safe(s, Tick(now))
  {
    var t := Do(s, Tick(now));
    if Safe(s, Tick(now)) {
      forall fd ensures Owners(t, fd) == if fd in t.conns then 1 else 0 {
        TickOwners(s, now, fd);
        assert Owners(s, fd) == if fd in s.conns then 1 else 0;
      }
    } else {
      var fd :| fd in T.Expired(s.timer, now) && fd !in s.armed;
      TickOwners(s, now, fd);
      assert Owners(s, fd) == 1;
    }
  }

  lemma ArmedOrBusy(s: State, fd: int)
    requires OneOwner(s) && fd in s.conns && MainFd(s) != Some(fd)
    ensures fd !in s.armed <==> fd in s.queue || fd in s.running || InBatch(s.batch, fd) > 0
  {
    assert Owners(s, fd) == 1;
  }

  /** The deadline: a tick is safe if and only if every descriptor whose task waits or runs, or
      whose event is fetched but not dispatched, was active less than IDLE_LIMIT ago. */
  lemma DeadlineExactly(s: State, now: int)
    requires Agreement(s) && OneOwner(s) && Can(s, Tick(now))
    ensures Safe(s, Tick(now)) <==>
            forall fd :: fd in s.conns && (fd in s.queue || fd in s.running || InBatch(s.batch, fd) > 0) ==>
              now < s.conns[fd].last + T.IDLE_LIMIT
  {
    TickEffect(s, now);
    forall fd | fd in s.conns
      ensures fd !in s.armed <==> fd in s.queue || fd in s.running || InBatch(s.batch, fd) > 0
    {
      ArmedOrBusy(s, fd);
    }
    assert forall fd :: fd in T.Expired(s.timer, now) <==> fd in SetOf(T.Expired(s.timer, now));
  }

  /** Whatever happened to its token, an open descriptor is closed by the first tick that comes
      IDLE_LIMIT after its last activity, and by no earlier one. */
  lemma TickCollects(s: State, now: int, fd: int)
    requires Agreement(s) && Can(s, Tick(now)) && fd in s.conns
    ensures fd in Do(s, Tick(now)).conns <==> now < s.conns[fd].last + T.IDLE_LIMIT
  {
    TickEffect(s, now);
  }

  lemma AcceptOwns(s: State, fd: int, addr: int, now: int)
    requires OneOwner(s) && Can(s, Accept(fd, addr, now))
    ensures OneOwner(Do(s, Accept(fd, addr, now)))
  {
    var t := Do(s, Accept(fd, addr, now));
    forall g ensures Owners(t, g) == if g in t.conns then 1 else 0 {
      assert Owners(s, g) == if g in s.conns then 1 else 0;
    }
  }

  lemma StepOwns(s: State, op: Op)
    requires Agreement(s) && OneOwner(s) && Can(s, op) && Safe(s, op)
    ensures OneOwner(Do(s, op))
  {
    match op
    case Wait(events) => WaitOwns(s, events);
    case Dispatch => DispatchOwns(s);
    case Accept(fd, addr, now) => AcceptOwns(s, fd, addr, now);
    case AcceptDone => SameOwners(s, s.(main := None));
    case Tick(now) => TickOwnsExactly(s, now);
    case CloseNow =>
      MainReleases(s);
      CloseOwns(s.(main := None), s.main.value.fd);
    case ReadNow(recvs, now) => ReadOwns(s, recvs, now);
    case WriteNow(offers, now) => WriteOwns(s, offers, now);
    case Take => TakeOwns(s);
    case Finish(fd, env) => FinishOwnsExactly(s, fd, env);
  }

  lemma SameOwners(s: State, t: State)
    requires OneOwner(s) && s.main == Some(Listen) && t == s.(main := None)
    ensures OneOwner(t)
  {
    forall fd ensures Owners(t, fd) == Owners(s, fd) {
    }
  }
}
