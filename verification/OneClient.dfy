/** Two runs that are not safe, each with one client that sends one request: a length that is no
    number, and a hard error while a file is sent. */
module OneClient {
  import opened Text
  import opened Reactor
  import opened Ownership
  import opened StaleEvent
  import T = Timer
  import H = HttpConn
  import O = Outgoing
  import R = Response
  import Q = Request
  import L = LoginForm

  // ---------------------------------------------------------------- up to the running task

  /** The client of `Quiet` has sent `request`, all of it has been read, and its task is running. */
  function Asked(request: string): State {
    var c := AfterRead(NewConn(0), request, 0);
    State(map[7 := c], map[], [], None, [], multiset{7}, T.Adjust(Quiet().timer, 7, 0), 1, [])
  }

  lemma TakeEvent(s: State, e: Event)
    requires s.main.None? && s.batch == [] && e.Client? && Compatible(s.armed, e)
    ensures Can(s, Wait([e])) && Can(Do(s, Wait([e])), Dispatch)
    ensures Do(Do(s, Wait([e])), Dispatch) == s.(armed := s.armed - {e.fd}, main := Some(e))
  {
    var a := Do(s, Wait([e]));
    assert [e][1..] == [];
    forall fd ensures InBatch([e], fd) == if fd == e.fd then 1 else 0 {
      assert InBatch([e], fd) == (if fd == e.fd then 1 else 0) + InBatch([e][1..], fd);
    }
    assert a.armed == s.armed - {e.fd};
  }

  lemma ReadAll(request: string)
    requires request != "" && NUL !in request
    ensures H.ReadCall("", [H.Data(request)]) == (true, request)
  {
    assert Q.CString(request) == request;
    assert H.ReadCall("", [H.Data(request)]) == H.ReadCall("" + request, [H.Data(request)][1..]);
    assert "" + request == request;
  }

  /** One event of a client is fetched, dispatched and handled. */
  function Handle(e: Event, op: Op, rest: seq<Op>): seq<Op> {
    [Wait([e])] + ([Dispatch] + ([op] + rest))
  }

  lemma RunHandle(s: State, e: Event, op: Op, rest: seq<Op>)
    requires s.main.None? && s.batch == [] && e.Client? && Compatible(s.armed, e)
    requires Can(s.(armed := s.armed - {e.fd}, main := Some(e)), op)
    ensures Run(s, Handle(e, op, rest)) == Run(Do(s.(armed := s.armed - {e.fd}, main := Some(e)), op), rest)
  {
    TakeEvent(s, e);
    Step(s, Wait([e]), [Dispatch] + ([op] + rest));
    Step(Do(s, Wait([e])), Dispatch, [op] + rest);
    Step(s.(armed := s.armed - {e.fd}, main := Some(e)), op, rest);
  }

  function Opening(more: seq<Op>): seq<Op> {
    [Wait([Listen])] + ([Dispatch] + ([Accept(7, 0, 0)] + ([AcceptDone] + more)))
  }

  lemma ReadRequest(s: State, request: string)
    requires s == Quiet().(armed := map[], main := Some(Client(7, Readable)))
    requires request != "" && NUL !in request
    ensures Can(s, ReadNow([H.Data(request)], 0))
    ensures Do(s, ReadNow([H.Data(request)], 0)) == Asked(request).(queue := [7], running := multiset{})
  {
    ReadAll(request);
    assert [] + [7] == [7];
  }

  lemma TakeTask(s: State, request: string)
    requires s == Asked(request).(queue := [7], running := multiset{})
    ensures Can(s, Take) && Do(s, Take) == Asked(request)
  {
    assert [7][1..] == [];
  }

  lemma RunAsked(request: string, rest: seq<Op>)
    requires request != "" && NUL !in request
    ensures Run(Start(), Opening(Handle(Client(7, Readable), ReadNow([H.Data(request)], 0), [Take] + rest)))
            == Run(Asked(request), rest)
  {
    var op := ReadNow([H.Data(request)], 0);
    ReachQuiet(Handle(Client(7, Readable), op, [Take] + rest));
    var q := Quiet();
    assert q.armed - {7} == map[];
    ReadRequest(q.(armed := map[], main := Some(Client(7, Readable))), request);
    RunHandle(q, Client(7, Readable), op, [Take] + rest);
    TakeTask(Asked(request).(queue := [7], running := multiset{}), request);
    Step(Asked(request).(queue := [7], running := multiset{}), Take, rest);
  }

  // ---------------------------------------------------------------- a rejected length

  /** After any request with a length `stoi` rejects the client's descriptor is open and in no place
      at all. */
  lemma RejectedIsOrphan(request: string, env: H.Env) returns (ops: seq<Op>)
    requires request != "" && NUL !in request && Q.LengthRejected(Asked(request).conns[7].h.parser)
    ensures Run(Start(), ops).Some?
    ensures var s := Run(Start(), ops).value; 7 in s.conns && Owners(s, 7) == 0
  {
    ops := Opening(Handle(Client(7, Readable), ReadNow([H.Data(request)], 0), [Take] + ([Finish(7, env)] + [])));
    var s := Asked(request);
    RunAsked(request, [Finish(7, env)] + []);
    Step(s, Finish(7, env), []);
    H.DecideThrows(s.conns[7].h.parser, env);
  }

  /** A short request of that kind. */
  lemma BadLengthOrphans(request: string, env: H.Env) returns (ops: seq<Op>)
    requires request == "GET / HTTP/1.1" + CRLF + ("Content-Length: none" + CRLF + CRLF)
    ensures Run(Start(), ops).Some?
    ensures var s := Run(Start(), ops).value; 7 in s.conns && Owners(s, 7) == 0
  {
    assert L.Line("GET", "/", "HTTP/1.1") == "GET / HTTP/1.1";
    assert "Content-Length: " + "none" == "Content-Length: none";
    NoNul("GET / HTTP/1.1", CRLF, "Content-Length: none");
    NoHeaders("none", CRLF);
    ops := WordOrphans(request, L.Target("GET", "/", "HTTP/1.1"), [], "none", CRLF, env);
  }

  lemma NoHeaders(word: string, rest: string)
    ensures L.HeaderText([]) + ("Content-Length: " + word + CRLF + rest) == "Content-Length: " + word + CRLF + rest
  {
  }

  lemma NoNul(first: string, end: string, header: string)
    requires NUL !in first && NUL !in end && NUL !in header
    ensures NUL !in first + end + (header + end + end)
  {
  }

  lemma WordOrphans(
      request: string, t: L.Target, before: seq<string>, word: string, rest: string, env: H.Env)
    returns (ops: seq<Op>)
    requires request == L.PrintLength(t, before, word, rest) && NUL !in request
    requires L.Proper(t) && L.HeaderLines(before) && L.Token(word)
    requires !IsDigit(word[0]) && word[0] != '-' && word[0] != '+'
    ensures Run(Start(), ops).Some?
    ensures var s := Run(Start(), ops).value; 7 in s.conns && Owners(s, 7) == 0
  {
    WordIsRejected(request, t, before, word, rest);
    ops := RejectedIsOrphan(request, env);
  }

  lemma NoCrlfInToken(word: string)
    requires L.Token(word)
    ensures !Contains(word, CRLF)
  {
    assert '\r' !in word;
    NoCarriageReturn(word);
  }

  lemma WordIsRejected(request: string, t: L.Target, before: seq<string>, word: string, rest: string)
    requires request == L.PrintLength(t, before, word, rest)
    requires L.Proper(t) && L.HeaderLines(before) && L.Token(word)
    requires !IsDigit(word[0]) && word[0] != '-' && word[0] != '+'
    ensures Q.LengthRejected(Asked(request).conns[7].h.parser)
  {
    L.StoiOfWord(word);
    NoCrlfInToken(word);
    L.WordThrows(Q.Fresh(), t, before, word, rest);
    assert "" + request == request;
  }

  // ---------------------------------------------------------------- a hard error

  /** For any request that is answered with a file that has content there is a run in which `writev`
      fails for good at its first attempt and leaves the connection open, armed for output, with an
      iovec that points into the released mapping. */
  lemma FileDangles(request: string, env: H.Env, d: H.Decision) returns (ops: seq<Op>)
    requires request != "" && NUL !in request && d == H.Decide(Asked(request).conns[7].h.parser, env)
    requires d.Answer? && d.r.File? && d.r.content != ""
    ensures Run(Start(), ops).Some?
    ensures var s := Run(Start(), ops).value;
            7 in s.conns && 7 in s.armed && s.armed[7] == Out && !O.ValidIov(s.conns[7].h.out)
  {
    var write := WriteNow([O.Broken], 0);
    var tail := Handle(Client(7, Writable), write, []);
    ops := Opening(Handle(Client(7, Readable), ReadNow([H.Data(request)], 0), [Take] + ([Finish(7, env)] + tail)));
    var s := Asked(request);
    RunAsked(request, [Finish(7, env)] + tail);
    Step(s, Finish(7, env), tail);
    var t := Do(s, Finish(7, env));
    var c := t.conns[7];
    assert c.h.out == H.Install(s.conns[7].h.out, d.r);
    RunHandle(t, Client(7, Writable), write, []);
    BrokenInstall(s.conns[7].h.out, d.r);
  }

  lemma BrokenInstall(o: O.Out, r: R.Response)
    requires r.File? && r.content != ""
    ensures var b := O.Write(H.Install(o, r), [O.Broken]); !b.done && !O.ValidIov(b.o)
  {
    H.InstallPending(o, r);
    assert O.Write(H.Install(o, r), [O.Broken]) == O.WriteLoop(H.Install(o, r), [O.Broken]);
  }

  /** Every request for a file with content is one: a printed request without a length. */
  lemma RequestedFileDangles(t: L.Target, hs: seq<string>, rest: string, request: string, env: H.Env)
    returns (ops: seq<Op>)
    requires request == L.PrintBare(t, hs, rest) && NUL !in request
    requires L.Proper(t) && L.HeaderLines(hs) && !H.IsLogin(t)
    requires var file := env.files("./resources" + if t.url == "/" then "/index.html" else t.url);
             file.Some? && file.value != ""
    ensures Run(Start(), ops).Some?
    ensures var s := Run(Start(), ops).value;
            7 in s.conns && 7 in s.armed && s.armed[7] == Out && !O.ValidIov(s.conns[7].h.out)
  {
    H.BareDecides(Q.Fresh(), t, hs, rest, env);
    assert "" + request == request;
    ops := FileDangles(request, env, H.Decide(Asked(request).conns[7].h.parser, env));
  }
}
