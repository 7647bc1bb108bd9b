/** Requests and responses over whole runs: what a client gets back is the list of answers to what it
    asked, in order, however its requests were cut up and whatever else the server was doing. */
module Answers {
  import opened Text
  import opened Reactor
  import opened Ownership
  import opened WireStream
  import H = HttpConn
  import O = Outgoing
  import R = Response
  import Q = Request
  import L = LoginForm
  import T = Timer

  // ---------------------------------------------------------------- one connection

  /** The answer to a parsed request. */
  function Reply(r: Q.Report, env: H.Env): R.Response {
    if r.outcome == Q.Code(Q.BadRequest) then R.Error(400, "Bad Request") else H.MakeResponse(r.f, env).0
  }

  predicate Complete(o: Q.Outcome) {
    o != Q.Code(Q.NoRequest) && o != Q.Threw
  }

  /** What the parser reports of the bytes of `chunks`, one call after each. */
  function Parsed(chunks: seq<string>): (Q.Outcome, Q.Parser) {
    Q.Feed(Q.Fresh(), chunks)
  }

  /** The bytes read since the last response are parsed, and make no complete request. */
  ghost predicate Waiting(c: Conn) {
    Parsed(c.chunks) == (Q.Code(Q.NoRequest), c.h.parser)
  }

  /** The last read is still to be parsed. */
  ghost predicate Unparsed(c: Conn) {
    c.chunks != [] &&
    var k := |c.chunks| - 1;
    var (o, q) := Parsed(c.chunks[..k]);
    o == Q.Code(Q.NoRequest) && c.h.parser == Q.Add(q, c.chunks[k])
  }

  ghost predicate Answering(c: Conn) {
    && Complete(Parsed(c.chunks).0) && c.view.Some?
    && c.current == Some(Reply(Q.ReportOf(Parsed(c.chunks)), c.view.value))
  }

  /** Every response sent in full is the answer to what was read for it, with the files and users that
      its own task found. */
  ghost predicate Answered(c: Conn) {
    && |c.asked| == |c.finished| == |c.views|
    && forall i :: 0 <= i < |c.asked| ==>
         Complete(Parsed(c.asked[i]).0) && c.finished[i] == Reply(Q.ReportOf(Parsed(c.asked[i])), c.views[i])
  }

  ghost predicate Talking(c: Conn, busy: bool) {
    && Answered(c)
    && if c.current.Some? then Answering(c) else if busy then Unparsed(c) else Waiting(c)
  }

  lemma NewTalks(now: int)
    ensures Talking(NewConn(now), false)
  {
  }

  lemma ReadTalks(c: Conn, buf: string, now: int)
    requires Talking(c, false) && c.current.None? && c.h.parser.readBuf <= buf
    ensures Talking(AfterRead(c, buf, now), true)
  {
    var d := AfterRead(c, buf, now);
    var k := |d.chunks| - 1;
    assert d.chunks[..k] == c.chunks;
    assert c.h.parser.readBuf + d.chunks[k] == buf;
  }

  lemma {:induction false} FeedLast(p: Q.Parser, chunks: seq<string>, last: string)
    requires Q.Feed(p, chunks).0 == Q.Code(Q.NoRequest)
    ensures Q.Feed(p, chunks + [last]) == Q.Parse(Q.Add(Q.Feed(p, chunks).1, last))
    decreases |chunks|
  {
    if chunks == [] {
      FeedSingle(p, last);
      assert chunks + [last] == [last];
    } else {
      var (o, q) := Q.Parse(Q.Add(p, chunks[0]));
      assert (chunks + [last])[1..] == chunks[1..] + [last];
      FeedLast(q, chunks[1..], last);
    }
  }

  lemma FeedSingle(p: Q.Parser, last: string)
    ensures Q.Feed(p, [last]) == Q.Parse(Q.Add(p, last))
  {
    var (o, q) := Q.Parse(Q.Add(p, last));
    assert [last][1..] == [];
    assert Q.Feed(q, []) == (Q.Code(Q.NoRequest), q);
  }

  lemma DecideReplies(p: Q.Parser, env: H.Env)
    ensures match H.Decide(p, env)
            case NeedMore(q) => Q.Parse(p) == (Q.Code(Q.NoRequest), q)
            case Throws(_) => Q.Parse(p).0 == Q.Threw
            case Answer(_, _, r) => Complete(Q.Parse(p).0) && r == Reply(Q.ReportOf(Q.Parse(p)), env)
  {
  }

  lemma FinishTalks(c: Conn, env: H.Env)
    requires Talking(c, true) && c.current.None? && !H.Decide(c.h.parser, env).Throws?
    ensures Talking(AfterFinish(c, H.Decide(c.h.parser, env), env), false)
  {
    var k := |c.chunks| - 1;
    assert c.chunks == c.chunks[..k] + [c.chunks[k]];
    FeedLast(Q.Fresh(), c.chunks[..k], c.chunks[k]);
    DecideReplies(c.h.parser, env);
  }

  lemma WriteTalks(c: Conn, r: O.WriteResult, now: int)
    requires Talking(c, false) && c.current.Some?
    ensures var d := AfterWrite(c, r, now);
            if r.done then Answered(d) && d.current.None? && d.chunks == [] else Talking(d, false)
  {
  }

  lemma ResetTalks(c: Conn)
    requires Answered(c) && c.current.None? && c.chunks == []
    ensures Talking(c.(h := H.AfterReset(c.h)), false)
  {
  }

  // ---------------------------------------------------------------- the server

  predicate Busy(s: State, fd: int) {
    fd in s.queue || fd in s.running
  }

  ghost predicate AllTalk(s: State) {
    && (forall fd :: fd in s.conns ==> Talking(s.conns[fd], Busy(s, fd)))
    && (forall i :: 0 <= i < |s.gone| ==> Answered(s.gone[i]))
  }

  /** One connection changes, the others keep their task or keep having none. */
  lemma TalkUpdate(s: State, t: State, fd: int, c: Conn)
    requires AllTalk(s) && t.conns == s.conns[fd := c] && t.gone == s.gone
    requires Talking(c, Busy(t, fd))
    requires forall g :: g in s.conns && g != fd ==> Busy(t, g) == Busy(s, g)
    ensures AllTalk(t)
  {
  }

  lemma TalkSame(s: State, t: State)
    requires AllTalk(s) && t.conns == s.conns && t.gone == s.gone
    requires forall g :: g in s.conns ==> Busy(t, g) == Busy(s, g)
    ensures AllTalk(t)
  {
  }

  lemma TalkClose(s: State, fd: int)
    requires forall g :: g in s.conns && g != fd ==> Talking(s.conns[g], Busy(s, g))
    requires forall i :: 0 <= i < |s.gone| ==> Answered(s.gone[i])
    requires fd in s.conns ==> Answered(s.conns[fd])
    ensures AllTalk(Close(s, fd))
  {
  }

  lemma {:induction false} TalkCloseAll(s: State, fds: seq<int>)
    requires AllTalk(s)
    ensures AllTalk(CloseAll(s, fds))
    decreases |fds|
  {
    if fds != [] {
      TalkClose(s, fds[0]);
      TalkCloseAll(Close(s, fds[0]), fds[1..]);
    }
  }

  lemma ReadAllTalk(s: State, recvs: seq<H.Recv>, now: int)
    requires Inv(s) && AllTalk(s) && Can(s, ReadNow(recvs, now))
    ensures AllTalk(Do(s, ReadNow(recvs, now)))
  {
    MainReleases(s);
    var fd := s.main.value.fd;
    assert EventInPhase(s.conns, s.main.value);
    OnePlace(s, fd);
    MainIsIdle(s, fd);
    var c := s.conns[fd];
    var (ok, buf) := H.ReadCall(c.h.parser.readBuf, recvs);
    if ok {
      ReadTalks(c, buf, now);
      QueuedTalk(s, Do(s, ReadNow(recvs, now)), fd, AfterRead(c, buf, now));
    } else {
      TalkClose(s.(main := None), fd);
    }
  }

  /** A task for `fd` is queued. */
  lemma QueuedTalk(s: State, t: State, fd: int, c: Conn)
    requires AllTalk(s) && t.conns == s.conns[fd := c] && t.gone == s.gone && Talking(c, true)
    requires t.queue == s.queue + [fd] && t.running == s.running
    ensures AllTalk(t)
  {
    TalkUpdate(s, t, fd, c);
  }

  /** What a read adds to the chunks of its connection is what `recv` delivered, each piece up to its
      first NUL. */
  lemma ChunkIsReceived(c: Conn, pieces: seq<string>, now: int)
    requires "" !in pieces
    ensures var (ok, buf) := H.ReadCall(c.h.parser.readBuf, H.Datas(pieces) + [H.Again]);
            AfterRead(c, buf, now).chunks == c.chunks + [Q.Received(pieces)]
  {
    H.ReadDelivers(c.h.parser.readBuf, pieces, H.Again);
    var before, more := c.h.parser.readBuf, Q.Received(pieces);
    assert (before + more)[|before|..] == more;
  }

  lemma MainIsIdle(s: State, fd: int)
    requires OneOwner(s) && MainFd(s) == Some(fd)
    ensures !Busy(s, fd)
  {
    assert Owners(s, fd) <= 1;
  }

  lemma WriteAllTalk(s: State, offers: seq<O.Offer>, now: int)
    requires Inv(s) && AllTalk(s) && Can(s, WriteNow(offers, now))
    ensures AllTalk(Do(s, WriteNow(offers, now)))
  {
    MainReleases(s);
    var fd := s.main.value.fd;
    assert EventInPhase(s.conns, s.main.value);
    MainIsIdle(s, fd);
    var r := O.Write(s.conns[fd].h.out, offers);
    var c := AfterWrite(s.conns[fd], r, now);
    WriteTalks(s.conns[fd], r, now);
    if r.done {
      FlushedTalk(s.(main := None), fd, c, now);
    } else {
      TalkUpdate(s, Do(s, WriteNow(offers, now)), fd, c);
    }
  }

  lemma FlushedTalk(s: State, fd: int, c: Conn, now: int)
    requires AllTalk(s) && fd in s.conns && !Busy(s, fd)
    requires Answered(c) && c.current.None? && c.chunks == []
    ensures AllTalk(DoFlushed(s, fd, c, now))
  {
    if c.h.parser.f.keepAlive {
      ResetTalks(c);
      TalkUpdate(s, DoFlushed(s, fd, c, now), fd, c.(h := H.AfterReset(c.h)));
    } else {
      TalkClose(s.(timer := T.Adjust(s.timer, fd, now), conns := s.conns[fd := c]), fd);
    }
  }

  lemma FinishAllTalk(s: State, fd: int, env: H.Env)
    requires Inv(s) && AllTalk(s) && Can(s, Finish(fd, env)) && Safe(s, Finish(fd, env))
    ensures AllTalk(Do(s, Finish(fd, env)))
  {
    TaskAlone(s, fd);
    var c := s.conns[fd];
    H.DecideThrows(c.h.parser, env);
    FinishTalks(c, env);
    FinishedTalk(s, Do(s, Finish(fd, env)), fd, AfterFinish(c, H.Decide(c.h.parser, env), env));
  }

  lemma TaskAlone(s: State, fd: int)
    requires OneOwner(s) && InPhase(s) && fd in s.running
    ensures fd in s.conns && s.conns[fd].current.None?
    ensures fd !in s.queue && fd !in s.running - multiset{fd}
  {
    RunningReleases(s, fd);
    UnownedNowhere(s.(running := s.running - multiset{fd}), fd);
  }

  /** The task of `fd` is over. */
  lemma FinishedTalk(s: State, t: State, fd: int, c: Conn)
    requires AllTalk(s) && t.conns == s.conns[fd := c] && t.gone == s.gone && Talking(c, false)
    requires t.queue == s.queue && t.running == s.running - multiset{fd} && !Busy(t, fd)
    ensures AllTalk(t)
  {
    forall g | g in s.conns && g != fd ensures Busy(t, g) == Busy(s, g) {
      assert t.running[g] == s.running[g];
    }
    TalkUpdate(s, t, fd, c);
  }

  lemma AcceptAllTalk(s: State, fd: int, addr: int, now: int)
    requires Inv(s) && AllTalk(s) && Can(s, Accept(fd, addr, now))
    ensures AllTalk(Do(s, Accept(fd, addr, now)))
  {
    if fd < MAX_FD {
      NewTalks(now);
      assert Owners(s, fd) == 0;
      TalkUpdate(s, DoAccept(s, fd, addr, now), fd, NewConn(now));
    }
  }

  lemma TakeAllTalk(s: State)
    requires AllTalk(s) && Can(s, Take)
    ensures AllTalk(Do(s, Take))
  {
    assert s.queue == [s.queue[0]] + s.queue[1..];
    TalkSame(s, Do(s, Take));
  }

  lemma StepKeepsTalk(s: State, op: Op)
    requires Inv(s) && AllTalk(s) && Can(s, op) && Safe(s, op)
    ensures AllTalk(Do(s, op))
  {
    match op
    case Wait(_) => TalkSame(s, Do(s, op));
    case Dispatch => TalkSame(s, Do(s, op));
    case Accept(fd, addr, now) => AcceptAllTalk(s, fd, addr, now);
    case AcceptDone => TalkSame(s, Do(s, op));
    case Tick(now) =>
      TalkSame(s, s.(main := None, timer := T.Kept(s.timer, now)));
      TalkCloseAll(s.(main := None, timer := T.Kept(s.timer, now)), T.Expired(s.timer, now));
    case CloseNow =>
      TalkSame(s, s.(main := None));
      TalkClose(s.(main := None), s.main.value.fd);
    case ReadNow(recvs, now) => ReadAllTalk(s, recvs, now);
    case WriteNow(offers, now) => WriteAllTalk(s, offers, now);
    case Take => TakeAllTalk(s);
    case Finish(fd, env) => FinishAllTalk(s, fd, env);
  }

  // ---------------------------------------------------------------- whole runs

  lemma {:induction false} RunKeepsTalk(s: State, ops: seq<Op>)
    requires Inv(s) && AllTalk(s) && SafeRun(s, ops)
    ensures Run(s, ops).Some? && AllTalk(Run(s, ops).value)
    decreases |ops|
  {
    if ops != [] {
      StepKeepsInv(s, ops[0]);
      StepKeepsTalk(s, ops[0]);
      RunKeepsTalk(Do(s, ops[0]), ops[1..]);
    }
  }

  /** In every reachable state of a safe run, on every connection, open or closed, the responses sent
      in full are the answers to what was read before each of them, in order. The files and users may
      change between any two tasks: each answer is the one for what its own task found. */
  lemma AnswersInOrder(ops: seq<Op>)
    requires SafeRun(Start(), ops)
    ensures Run(Start(), ops).Some?
    ensures var s := Run(Start(), ops).value;
            && (forall fd :: fd in s.conns ==> Answered(s.conns[fd]))
            && (forall i :: 0 <= i < |s.gone| ==> Answered(s.gone[i]))
  {
    RunKeepsTalk(Start(), ops);
  }

  // ---------------------------------------------------------------- a client that asks properly

  /** A request a client prints, with any headers: without a body, with a body that holds no login, or
      a login; or a first line that names no url, and anything behind it. */
  datatype Ask =
    | Get(target: L.Target, headers: seq<string>, rest: string)
    | Post(target: L.Target, before: seq<string>, behind: seq<string>, body: string)
    | Login(version: string, before: seq<string>, behind: seq<string>, user: string, password: string)
    | Short(pre: string, token: string, post: string, rest: string)

  function LoginTarget(version: string): L.Target {
    L.Target("POST", "/login", version)
  }

  function TextOf(a: Ask): string {
    match a
    case Get(t, hs, rest) => L.PrintBare(t, hs, rest)
    case Post(t, before, behind, body) => L.Print(t, before, behind, body)
    case Login(version, before, behind, user, password) =>
      L.Print(LoginTarget(version), before, behind, L.Form(user, password))
    case Short(pre, token, post, rest) => pre + token + post + CRLF + rest
  }

  predicate Proper(a: Ask) {
    match a
    case Get(t, hs, _) => L.Proper(t) && L.HeaderLines(hs)
    case Post(t, before, behind, body) =>
      && L.Proper(t) && L.HeaderLines(before) && L.HeaderLines(behind)
      && 0 < |body| <= INT_MAX && !Contains(body, CRLF)
      && (H.IsLogin(t) ==> !Contains(body, L.USER) || !Contains(body, L.PASSWORD))
    case Login(version, before, behind, user, password) =>
      L.Token(version) && L.HeaderLines(before) && L.HeaderLines(behind) && L.Sayable(user, password)
    case Short(pre, token, post, _) =>
      AllSpace(pre) && NoSpace(token) && AllSpace(post) && !Contains(pre + token + post, CRLF)
  }

  /** What the client is to read: the file it named, the page that tells whether the login is right, or
      an error page. */
  function Expected(a: Ask, env: H.Env): R.Message {
    match a
    case Get(t, hs, _) =>
      if H.IsLogin(t) then H.PageMessage(env.failPage) else H.PathMessage(t.url, L.Stays(hs), env)
    case Post(t, before, behind, _) =>
      if H.IsLogin(t) then H.PageMessage(env.failPage) else H.PathMessage(t.url, L.Stays(before + behind), env)
    case Login(_, _, _, user, password) =>
      H.PageMessage(if env.check(user, password) then env.okPage else env.failPage)
    case Short(_, _, _, _) => H.ErrorMessage("400 Bad Request")
  }

  /** The message of the answer to a complete request. */
  lemma ReplySays(r: Q.Report, env: H.Env)
    requires r.outcome == Q.Code(Q.GetRequest)
    ensures R.MessageOf(Reply(r, env)) ==
            if r.f.verb == "POST" && r.f.url == "/login" then
              match L.ParsePostData(r.f.postData)
              case None => H.PageMessage(env.failPage)
              case Some((user, password)) =>
                H.PageMessage(if env.check(user, password) then env.okPage else env.failPage)
            else H.PathMessage(r.f.url, r.f.keepAlive, env)
  {
    if r.f.verb == "POST" && r.f.url == "/login" {
      H.LoginSays(r.f, env);
    } else {
      H.StaticSays(r.f, env);
    }
  }

  lemma GetIsAnswered(p: Q.Parser, a: Ask, chunks: seq<string>, env: H.Env)
    requires p == Q.Fresh() && a.Get? && Proper(a) && Concat(chunks) == TextOf(a)
    ensures R.MessageOf(Reply(Q.ReportOf(Q.Feed(p, chunks)), env)) == Expected(a, env)
  {
    L.BareAnyChunks(p, a.target, a.headers, a.rest, chunks);
    var f := Q.Feed(p, chunks).1.f;
    NothingPosted(f.postData);
    ReplySays(Q.ReportOf(Q.Feed(p, chunks)), env);
  }

  lemma NothingPosted(post: string)
    requires post == ""
    ensures L.ParsePostData(post).None?
  {
  }

  lemma PostIsAnswered(p: Q.Parser, a: Ask, chunks: seq<string>, env: H.Env)
    requires p == Q.Fresh() && a.Post? && Proper(a) && Concat(chunks) == TextOf(a)
    ensures R.MessageOf(Reply(Q.ReportOf(Q.Feed(p, chunks)), env)) == Expected(a, env)
  {
    L.BodyAnyChunks(p, a.target, a.before, a.behind, a.body, chunks);
    L.NoForm(a.body);
    ReplySays(Q.ReportOf(Q.Feed(p, chunks)), env);
  }

  lemma LoginIsAnswered(p: Q.Parser, a: Ask, chunks: seq<string>, env: H.Env)
    requires p == Q.Fresh() && a.Login? && Proper(a) && Concat(chunks) == TextOf(a)
    ensures R.MessageOf(Reply(Q.ReportOf(Q.Feed(p, chunks)), env)) == Expected(a, env)
  {
    var t := LoginTarget(a.version);
    H.LoginIsProper(t);
    L.LoginAnyChunks(p, t, a.before, a.behind, a.user, a.password, chunks);
    ReplySays(Q.ReportOf(Q.Feed(p, chunks)), env);
  }

  lemma ShortIsAnswered(p: Q.Parser, a: Ask, chunks: seq<string>, env: H.Env)
    requires p == Q.Fresh() && a.Short? && Proper(a) && Concat(chunks) == TextOf(a)
    ensures R.MessageOf(Reply(Q.ReportOf(Q.Feed(p, chunks)), env)) == Expected(a, env)
  {
    L.ShortAnyChunks(p, a.pre, a.token, a.post, a.rest, chunks);
    H.ErrorIs400();
  }

  lemma AskIsAnswered(p: Q.Parser, a: Ask, chunks: seq<string>, env: H.Env)
    requires p == Q.Fresh() && Proper(a) && Concat(chunks) == TextOf(a)
    ensures R.MessageOf(Reply(Q.ReportOf(Q.Feed(p, chunks)), env)) == Expected(a, env)
  {
    match a
    case Get(_, _, _) => GetIsAnswered(p, a, chunks, env);
    case Post(_, _, _, _) => PostIsAnswered(p, a, chunks, env);
    case Login(_, _, _, _, _) => LoginIsAnswered(p, a, chunks, env);
    case Short(_, _, _, _) => ShortIsAnswered(p, a, chunks, env);
  }

  /** The client's requests behind what was read for each response. */
  ghost predicate AskedFor(asked: seq<seq<string>>, asks: seq<Ask>) {
    && |asked| == |asks|
    && forall i :: 0 <= i < |asks| ==> Proper(asks[i]) && Concat(asked[i]) == TextOf(asks[i])
  }

  /** What the client is to read for a list of requests, with the files and users found for each. */
  function ExpectedOf(asks: seq<Ask>, views: seq<H.Env>): seq<R.Message>
    requires |asks| == |views|
  {
    if asks == [] then [] else [Expected(asks[0], views[0])] + ExpectedOf(asks[1..], views[1..])
  }

  lemma {:induction false} MessagesAre(asks: seq<Ask>, views: seq<H.Env>, finished: seq<R.Response>)
    requires |finished| == |asks| == |views|
    requires forall i :: 0 <= i < |asks| ==> R.MessageOf(finished[i]) == Expected(asks[i], views[i])
    ensures R.Messages(finished) == ExpectedOf(asks, views)
  {
    if asks != [] {
      assert forall i :: 0 <= i < |asks[1..]| ==>
          R.MessageOf(finished[1..][i]) == Expected(asks[1..][i], views[1..][i]);
      MessagesAre(asks[1..], views[1..], finished[1..]);
    }
  }

  lemma ConnAnswers(c: Conn, asks: seq<Ask>)
    requires Answered(c) && AskedFor(c.asked, asks)
    ensures R.Messages(c.finished) == ExpectedOf(asks, c.views)
  {
    forall i | 0 <= i < |asks| ensures R.MessageOf(c.finished[i]) == Expected(asks[i], c.views[i]) {
      AskIsAnswered(Q.Fresh(), asks[i], c.asked[i], c.views[i]);
    }
    MessagesAre(asks, c.views, c.finished);
  }

  /** A connection of this state, open or closed. */
  ghost predicate Served(s: State, c: Conn) {
    (exists fd :: fd in s.conns && s.conns[fd] == c) || (exists k :: 0 <= k < |s.gone| && s.gone[k] == c)
  }

  /** End to end: a client that sent these requests, one for each response, has read from its
      connection exactly what it is to read for them, in order, and at most a prefix of one more
      response; however the requests were cut up, in any safe interleaving with everything else,
      whether the connection is still open or was closed behind a response or in the middle of one. */
  lemma ClientGetsAnswers(ops: seq<Op>, c: Conn, asks: seq<Ask>)
    requires SafeRun(Start(), ops) && Run(Start(), ops).Some? && Served(Run(Start(), ops).value, c)
    requires AskedFor(c.asked, asks)
    ensures |c.views| == |asks|
    ensures var done := R.Wire(c.finished);
            && done <= c.wire && R.ClientRead(done) == Some(ExpectedOf(asks, c.views))
            && (c.current.None? ==> c.wire == done)
            && (c.current.Some? ==> c.wire <= done + R.Bytes(c.current.value))
  {
    AnswersInOrder(ops);
    ClientSeesResponses(ops);
    assert Answered(c) && ClientSees(c);
    ConnAnswers(c, asks);
  }

  // ---------------------------------------------------------------- what the tasks found

  /** Every task of the run finds files and users that are in `found`. */
  ghost predicate AllFind(ops: seq<Op>, found: iset<H.Env>) {
    forall i :: 0 <= i < |ops| && ops[i].Finish? ==> ops[i].env in found
  }

  ghost predicate ViewsIn(c: Conn, found: iset<H.Env>) {
    && (c.view.Some? ==> c.view.value in found)
    && forall i :: 0 <= i < |c.views| ==> c.views[i] in found
  }

  ghost predicate AllViews(s: State, found: iset<H.Env>) {
    && (forall fd :: fd in s.conns ==> ViewsIn(s.conns[fd], found))
    && (forall k :: 0 <= k < |s.gone| ==> ViewsIn(s.gone[k], found))
  }

  lemma {:induction false} CloseViews(s: State, fds: seq<int>, found: iset<H.Env>)
    requires AllViews(s, found)
    ensures AllViews(CloseAll(s, fds), found)
    decreases |fds|
  {
    if fds != [] {
      CloseViews(Close(s, fds[0]), fds[1..], found);
    }
  }

  lemma WriteViews(s: State, fd: int, offers: seq<O.Offer>, now: int, found: iset<H.Env>)
    requires AllViews(s, found)
    ensures AllViews(DoWrite(s, fd, offers, now), found)
  {
    if fd in s.conns {
      var c := AfterWrite(s.conns[fd], O.Write(s.conns[fd].h.out, offers), now);
      assert ViewsIn(c, found) && ViewsIn(c.(h := H.AfterReset(c.h)), found);
    }
  }

  lemma StepViews(s: State, op: Op, found: iset<H.Env>)
    requires AllViews(s, found) && Can(s, op) && (op.Finish? ==> op.env in found)
    ensures AllViews(Do(s, op), found)
  {
    match op
    case Tick(now) => CloseViews(s.(main := None, timer := T.Kept(s.timer, now)), T.Expired(s.timer, now), found);
    case WriteNow(offers, now) => WriteViews(s.(main := None), s.main.value.fd, offers, now, found);
    case _ =>
  }

  lemma {:induction false} RunViews(s: State, ops: seq<Op>, found: iset<H.Env>)
    requires AllViews(s, found) && AllFind(ops, found)
    ensures Run(s, ops).Some? ==> AllViews(Run(s, ops).value, found)
    decreases |ops|
  {
    if ops != [] && Can(s, ops[0]) {
      StepViews(s, ops[0], found);
      RunViews(Do(s, ops[0]), ops[1..], found);
    }
  }

  /** The files and users behind every answer are some that a task of the run found. So if they never
      change, neither does what the answers are taken from. */
  lemma ViewsAreFound(ops: seq<Op>, c: Conn, found: iset<H.Env>)
    requires Run(Start(), ops).Some? && Served(Run(Start(), ops).value, c) && AllFind(ops, found)
    ensures ViewsIn(c, found)
    ensures forall env :: found == iset{env} ==> forall i :: 0 <= i < |c.views| ==> c.views[i] == env
  {
    RunViews(Start(), ops, found);
  }
}
