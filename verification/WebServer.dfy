/** The main thread's handlers and the worker's task, on the connection objects themselves, each
    proved to be the step of the transition system it stands for. */
module WebServer {
  import opened Text
  import opened Reactor
  import H = HttpConn
  import O = Outgoing
  import T = Timer

  lemma CloseNext(s: State, fds: seq<int>, i: nat)
    requires i < |fds|
    ensures CloseAll(s, fds[i..]) == CloseAll(Close(s, fds[i]), fds[i + 1..])
  {
    assert fds[i..][1..] == fds[i + 1..];
  }

  const SIGTERM := 15
  const PIPE_BUFFER := 64

  lemma TermNext(piece: seq<int>, j: nat)
    requires j < |piece| && j < PIPE_BUFFER
    ensures NoTerm(piece[..j + 1]) <==> NoTerm(piece[..j]) && piece[j] != SIGTERM
  {
    assert forall k :: 0 <= k < j ==> piece[..j + 1][k] == piece[..j][k];
    assert piece[..j + 1][j] == piece[j];
  }

  /** No SIGTERM among the bytes of one `recv` that the loop looks at. */
  predicate NoTerm(piece: seq<int>) {
    forall j :: 0 <= j < |piece| && j < PIPE_BUFFER ==> piece[j] != SIGTERM
  }

  /** `users` holds the connection object of every descriptor whose `m_sockfd` is not -1; `armed` is
      the epoll set, `tasks` the queue of the thread pool. `log` adds to the state of each object the
      history of its connection. */
  class WebServer {
    const timer: T.Timer
    var users: map<int, H.HttpConn>
    var armed: map<int, Interest>
    var tasks: seq<int>
    var userCount: int
    var isRunning: bool
    ghost var log: map<int, Conn>
    ghost var batch: seq<Event>
    ghost var running: multiset<int>
    ghost var gone: seq<Conn>

    ghost function Abs(): State
      reads this, timer
    {
      State(log, armed, batch, None, tasks, running, timer.list, userCount, gone)
    }

    /** The connection objects and their iovecs. */
    ghost function Objects(): set<object>
      reads this
    {
      (set fd | fd in users :: users[fd] as object) + (set fd | fd in users :: users[fd].iv as object)
    }

    /** No two descriptors share an object, and the log describes each object, except that of `but`. */
    ghost predicate LinkedBut(but: Option<int>)
      reads this, Objects()
    {
      && users.Keys == log.Keys
      && (forall fd :: fd in users && but != Some(fd) ==> users[fd].Valid() && log[fd].h == users[fd].Abs())
      && (forall fd, g :: fd in users && g in users && fd != g ==>
            users[fd] != users[g] && users[fd].iv != users[g].iv)
    }

    ghost predicate Linked()
      reads this, Objects()
    {
      LinkedBut(None)
    }

    ghost predicate Valid()
      reads this, timer, Objects()
    {
      Linked() && Agreement(Abs())
    }

    constructor ()
      ensures Valid() && Abs() == Start() && fresh(timer)
    {
      timer := new T.Timer();
      users, armed, tasks, userCount, log := map[], map[], [], 0, map[];
      isRunning := true;
      batch, running, gone := [], multiset{}, [];
    }

    method AddClient(fd: int, addr: int, now: int)
      requires Valid() && fd !in users
      modifies this`users, this`log, this`armed, this`userCount, timer
      ensures Valid() && Abs() == DoAccept(old(Abs()), fd, addr, now)
      ensures users.Keys == if fd < 65536 then old(users).Keys + {fd} else old(users).Keys
      ensures fresh(Objects() - old(Objects()))
    {
      AcceptAgrees(Abs(), fd, addr, now);
      AcceptStep(fd, addr, now);
    }

    method AcceptStep(fd: int, addr: int, now: int)
      requires Linked() && timer.Valid() && fd !in users
      modifies this`users, this`log, this`armed, this`userCount, timer
      ensures Linked() && Abs() == DoAccept(old(Abs()), fd, addr, now)
      ensures users.Keys == if fd < 65536 then old(users).Keys + {fd} else old(users).Keys
      ensures fresh(Objects() - old(Objects()))
    {
      if fd >= MAX_FD {
        return;
      }
      RegisterConn(fd, now);
      timer.AddTimer(fd, addr, now);
    }

    /** The connection object, the epoll registration and the user count. */
    method RegisterConn(fd: int, now: int)
      requires Linked() && fd !in users
      modifies this`users, this`log, this`armed, this`userCount
      ensures Linked() && log == old(log)[fd := NewConn(now)] && fresh(Objects() - old(Objects()))
      ensures users.Keys == old(users).Keys + {fd}
      ensures armed == old(armed)[fd := In] && userCount == old(userCount) + 1
    {
      OpenConn(fd, now);
      armed := armed[fd := In];
      userCount := userCount + 1;
    }

    /** `users_[fd].init(fd, addr)`. */
    method OpenConn(fd: int, now: int)
      requires Linked() && fd !in users
      modifies this`users, this`log
      ensures Linked() && log == old(log)[fd := NewConn(now)] && fresh(Objects() - old(Objects()))
    {
      var conn := new H.HttpConn();
      users := users[fd := conn];
      log := log[fd := NewConn(now)];
    }

    method HandleClose(fd: int)
      requires timer.Valid() && LinkedBut(Some(fd))
      requires fd in users ==> users[fd].Valid()
      modifies this`users, this`log, this`armed, this`userCount, this`gone, timer, Objects()
      ensures timer.Valid() && Linked() && Abs() == Close(old(Abs()), fd)
      ensures Objects() <= old(Objects())
    {
      timer.DelTimer(fd);
      if fd in users {
        CloseConn(fd);
        armed := armed - {fd};
        userCount := userCount - 1;
      }
    }

    /** `users_[fd].close_conn(true)`, up to the user count. */
    method CloseConn(fd: int)
      requires LinkedBut(Some(fd)) && fd in users && users[fd].Valid()
      modifies this`users, this`log, this`gone, users[fd]
      ensures Linked() && log == old(log) - {fd} && gone == old(gone) + [Closed(old(log)[fd])]
      ensures Objects() <= old(Objects())
    {
      users[fd].ReleaseMapping();
      gone := gone + [Closed(log[fd])];
      users := users - {fd};
      log := log - {fd};
    }

    /** Drains the pipe, `pipe` being what the successive `recv` calls return, and stops the loop if
        SIGTERM was in it; then closes whatever `tick` reports, whose nodes are out of the list already. */
    method HandleTimer(pipe: seq<seq<int>>, now: int)
      requires Valid()
      modifies this`users, this`log, this`armed, this`userCount, this`gone, this`isRunning, timer, Objects()
      ensures Valid()
      ensures isRunning == (old(isRunning) &&
                forall i, j :: 0 <= i < |pipe| && 0 <= j < |pipe[i]| && j < 64 ==> pipe[i][j] != 15)
      ensures var s := old(Abs()); Abs() == CloseAll(s.(timer := T.Kept(s.timer, now)), T.Expired(s.timer, now))
    {
      DrainPipe(pipe);
      CloseExpired(now);
    }

    method CloseExpired(now: int)
      requires Valid()
      modifies this`users, this`log, this`armed, this`userCount, this`gone, timer, Objects()
      ensures Valid()
      ensures var s := old(Abs()); Abs() == CloseAll(s.(timer := T.Kept(s.timer, now)), T.Expired(s.timer, now))
    {
      TickAgrees(Abs(), now);
      TimerStep(now);
    }

    method DrainPipe(pipe: seq<seq<int>>)
      requires Linked()
      modifies this`isRunning
      ensures Linked() && Abs() == old(Abs()) && Objects() == old(Objects())
      ensures isRunning == (old(isRunning) && forall i :: 0 <= i < |pipe| ==> NoTerm(pipe[i]))
    {
      for k := 0 to |pipe|
        invariant isRunning == (old(isRunning) && forall i :: 0 <= i < k ==> NoTerm(pipe[i]))
      {
        LookAt(pipe[k]);
      }
    }

    method LookAt(piece: seq<int>)
      modifies this`isRunning
      ensures isRunning == (old(isRunning) && NoTerm(piece))
    {
      var j := 0;
      while j < |piece| && j < PIPE_BUFFER
        invariant 0 <= j <= |piece| && j <= PIPE_BUFFER
        invariant isRunning == (old(isRunning) && NoTerm(piece[..j]))
      {
        TermNext(piece, j);
        if piece[j] == SIGTERM {
          isRunning := false;
        }
        j := j + 1;
      }
    }

    method TimerStep(now: int)
      requires timer.Valid() && Linked()
      modifies this`users, this`log, this`armed, this`userCount, this`gone, timer, Objects()
      ensures Linked()
      ensures var s := old(Abs()); Abs() == CloseAll(s.(timer := T.Kept(s.timer, now)), T.Expired(s.timer, now))
    {
      var expired := timer.Tick(now);
      CloseEach(expired);
    }

    method CloseEach(fds: seq<int>)
      requires timer.Valid() && Linked()
      modifies this`users, this`log, this`armed, this`userCount, this`gone, timer, Objects()
      ensures timer.Valid() && Linked() && Abs() == CloseAll(old(Abs()), fds)
    {
      var i := 0;
      while i < |fds|
        invariant 0 <= i <= |fds| && timer.Valid() && Linked() && Objects() <= old(Objects())
        invariant CloseAll(Abs(), fds[i..]) == CloseAll(old(Abs()), fds)
      {
        CloseNext(Abs(), fds, i);
        HandleClose(fds[i]);
        i := i + 1;
      }
      assert fds[i..] == [];
    }

    method HandleRead(fd: int, recvs: seq<H.Recv>, now: int)
      requires Valid()
      modifies this`users, this`log, this`armed, this`userCount, this`gone, this`tasks, timer, Objects()
      ensures Valid() && Abs() == DoRead(old(Abs()), fd, recvs, now)
    {
      ReadAgrees(Abs(), fd, recvs, now);
      if fd in users {
        ReadStep(fd, recvs, now);
      }
    }

    method ReadStep(fd: int, recvs: seq<H.Recv>, now: int)
      requires Linked() && timer.Valid() && fd in users
      modifies this`users, this`log, this`armed, this`userCount, this`gone, this`tasks, timer, Objects()
      ensures Linked() && Abs() == DoRead(old(Abs()), fd, recvs, now)
    {
      var ok := ReadConn(fd, recvs, now);
      if !ok {
        HandleClose(fd);
        return;
      }
      timer.AdjustTimer(fd, now);
      tasks := tasks + [fd];
    }

    /** `users_[fd].read()`; what a failed read left in the buffer is not logged. */
    method ReadConn(fd: int, recvs: seq<H.Recv>, now: int) returns (ok: bool)
      requires Linked() && fd in users
      modifies this`log, users[fd]
      ensures users[fd].Valid() && LinkedBut(Some(fd)) && (ok ==> Linked())
      ensures var r := H.ReadCall(old(log)[fd].h.parser.readBuf, recvs);
              ok == r.0 && log == if ok then old(log)[fd := AfterRead(old(log)[fd], r.1, now)] else old(log)
    {
      var conn := users[fd];
      ok := conn.Read(recvs);
      if ok {
        log := log[fd := AfterRead(log[fd], conn.readBuf, now)];
      }
    }

    method HandleWrite(fd: int, offers: seq<O.Offer>, now: int)
      requires Valid()
      modifies this`users, this`log, this`armed, this`userCount, this`gone, timer, Objects()
      ensures Valid() && Abs() == DoWrite(old(Abs()), fd, offers, now)
    {
      WriteAgrees(Abs(), fd, offers, now);
      if fd in users {
        WriteStep(fd, offers, now);
      }
    }

    method WriteStep(fd: int, offers: seq<O.Offer>, now: int)
      requires Linked() && timer.Valid() && fd in users
      modifies this`users, this`log, this`armed, this`userCount, this`gone, timer, Objects()
      ensures Linked() && Abs() == DoWrite(old(Abs()), fd, offers, now)
    {
      ghost var s := Abs();
      var done := WriteConn(fd, offers, now);
      if done {
        FlushedTwice(s, fd, log[fd], now);
        OnFlushed(fd, now);
      } else {
        armed := armed[fd := Out];
      }
    }

    /** `users_[fd].write()`. */
    method WriteConn(fd: int, offers: seq<O.Offer>, now: int) returns (done: bool)
      requires Linked() && fd in users
      modifies this`log, users[fd], users[fd].iv
      ensures Linked()
      ensures var r := O.Write(old(log)[fd].h.out, offers);
              done == r.done && log == old(log)[fd := AfterWrite(old(log)[fd], r, now)]
    {
      var conn := users[fd];
      ghost var before := conn.Abs();
      var sent: string;
      done, sent := conn.Write(offers);
      log := log[fd := AfterWrite(log[fd], O.WriteResult(done, conn.OutPart(), sent), now)];
      assert conn.Abs() == before.(out := conn.OutPart());
    }

    method OnFlushed(fd: int, now: int)
      requires timer.Valid() && Linked() && fd in users
      modifies this`users, this`log, this`armed, this`userCount, this`gone, timer, Objects()
      ensures Linked()
      ensures Abs() == DoFlushed(old(Abs()), fd, old(log)[fd], now)
    {
      timer.AdjustTimer(fd, now);
      if users[fd].keepAlive {
        ResetConn(fd);
        armed := armed[fd := In];
      } else {
        assert log[fd := log[fd]] == log;
        HandleClose(fd);
      }
    }

    method ResetConn(fd: int)
      requires Linked() && fd in users
      modifies this`log, users[fd], users[fd].iv
      ensures Linked() && log == old(log)[fd := old(log)[fd].(h := H.AfterReset(old(log)[fd].h))]
    {
      users[fd].Reset();
      log := log[fd := log[fd].(h := H.AfterReset(log[fd].h))];
    }

    /** The task a worker runs for `fd`: `users_[fd].process()`. */
    method RunTask(fd: int, env: H.Env)
      requires Valid() && fd in running
      modifies this`log, this`armed, this`running, Objects()
      ensures Valid() && Abs() == DoFinish(old(Abs()), fd, env)
    {
      FinishAgrees(Abs(), fd, env);
      FinishStep(fd, env);
    }

    method FinishStep(fd: int, env: H.Env)
      requires Linked() && fd in running
      modifies this`log, this`armed, this`running, Objects()
      ensures Linked() && Abs() == DoFinish(old(Abs()), fd, env)
    {
      if fd in users {
        FinishIsProcess(Abs(), fd, env);
        FinishOpen(fd, env);
      }
      running := running - multiset{fd};
    }

    method FinishOpen(fd: int, env: H.Env)
      requires Linked() && fd in users
      modifies this`log, this`armed, users[fd], users[fd].iv
      ensures Linked()
      ensures var c := old(log)[fd];
              && log == old(log)[fd := AfterFinish(c, H.Decide(c.h.parser, env), env)]
              && armed == Rearmed(old(armed), fd, H.AfterProcess(c.h, env).0)
    {
      var rearm := ProcessConn(fd, env);
      armed := Rearmed(armed, fd, rearm);
    }

    method ProcessConn(fd: int, env: H.Env) returns (rearm: H.Rearm)
      requires Linked() && fd in users
      modifies this`log, users[fd], users[fd].iv
      ensures Linked()
      ensures var c := old(log)[fd];
              && log == old(log)[fd := AfterFinish(c, H.Decide(c.h.parser, env), env)]
              && rearm == H.AfterProcess(c.h, env).0
    {
      var conn := users[fd];
      rearm := conn.Process(env);
      log := log[fd := AfterFinish(log[fd], H.Decide(log[fd].h.parser, env), env)];
    }
  }
}
