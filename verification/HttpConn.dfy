/** One connection: the class `HttpConn` with its fields and methods, each proved against a
    function on a snapshot of those fields. */
module HttpConn {
  import opened Text
  import opened Request
  import opened Outgoing
  import LoginForm
  import R = Response

  datatype Snapshot = Snapshot(parser: Parser, out: Out)

  /** The file system, the user table and the two login pages. `files` is what `stat`, `open` and
      `mmap` find at a path; `check` is `check_login`. */
  datatype Env = Env(
    files: string -> Option<string>, check: (string, string) -> bool, okPage: string, failPage: string)

  // ---------------------------------------------------------------- specification

  /** `recv` as `read()` sees it. */
  datatype Recv = Data(bytes: string) | Again | Closed | Failed

  /** `read()` on the read buffer; when the answers run out the socket is drained. */
  function ReadCall(buf: string, recvs: seq<Recv>): (r: (bool, string))
    ensures buf <= r.1
    decreases |recvs|
  {
    if recvs == [] || recvs[0].Again? then (buf != "", buf)
    else if recvs[0].Data? && recvs[0].bytes != "" then ReadCall(buf + CString(recvs[0].bytes), recvs[1..])
    else (false, buf)
  }

  function Datas(pieces: seq<string>): seq<Recv> {
    if pieces == [] then [] else [Data(pieces[0])] + Datas(pieces[1..])
  }

  /** How `read()` ends on the buffer it has filled. */
  function ReadEnd(buf: string, end: Recv): (bool, string)
    requires !end.Data?
  {
    (end.Again? && buf != "", buf)
  }

  /** A drained socket: everything that came before EAGAIN is in the buffer, in order, each piece
      up to its first NUL; a closed or failed socket is reported as such. */
  lemma {:induction false} ReadDelivers(buf: string, pieces: seq<string>, end: Recv)
    requires "" !in pieces && !end.Data?
    ensures ReadCall(buf, Datas(pieces) + [end]) == ReadEnd(buf + Received(pieces), end)
    decreases |pieces|
  {
    if pieces == [] {
      ReadNothing(buf, end);
    } else {
      var head, tail := pieces[0], pieces[1..];
      assert head in pieces;
      assert Datas(pieces) + [end] == [Data(head)] + (Datas(tail) + [end]);
      ReadStep(buf, head, Datas(tail) + [end]);
      ReadDelivers(buf + CString(head), tail, end);
      Regroup(buf, CString(head), Received(tail));
    }
  }

  lemma ReadNothing(buf: string, end: Recv)
    requires !end.Data?
    ensures ReadCall(buf, Datas([]) + [end]) == ReadEnd(buf + Received([]), end)
  {
    assert Datas([]) + [end] == [end];
    assert buf + Received([]) == buf;
  }

  lemma ReadStep(buf: string, head: string, rest: seq<Recv>)
    requires head != ""
    ensures ReadCall(buf, [Data(head)] + rest) == ReadCall(buf + CString(head), rest)
  {
    assert ([Data(head)] + rest)[1..] == rest;
  }

  /** The response `make_response` builds, and the url it leaves behind. */
  function MakeResponse(f: Fields, env: Env): (r: (R.Response, Fields))
    ensures r.1 == f.(url := r.1.url)
  {
    if f.verb == "POST" && f.url == "/login" then
      var form := LoginForm.ParsePostData(f.postData);
      var ok := form.Some? && env.check(form.value.0, form.value.1);
      (R.Login(if ok then env.okPage else env.failPage), f)
    else
      var g := f.(url := HomePage(f.url));
      (StaticFile(g.url, g.keepAlive, env), g)
  }

  function HomePage(url: string): string {
    if url == "/" then "/index.html" else url
  }

  /** `serve_static_file` for an url that is not `/`. */
  function StaticFile(url: string, keepAlive: bool, env: Env): R.Response {
    match env.files("./resources" + url)
    case None => R.Error(404, "Not Found")
    case Some(content) => R.File(Contains(url, ".jpg") || Contains(url, ".png"), keepAlive, content)
  }

  /** The sending half after the response functions have set it up. */
  function Install(o: Out, r: R.Response): Out {
    if r.File? then
      var h := R.Header(r);
      o.(writeBuf := h, mapped := Some(r.content), statSize := |r.content|,
         iv0 := IoVec(WriteBuf, 0, |h|), iv1 := IoVec(Mapping, 0, |r.content|), ivCount := 2,
         toSend := |h| + |r.content|, haveSend := 0)
    else
      var b := R.Bytes(r);
      o.(writeBuf := b, mapped := None, iv0 := IoVec(WriteBuf, 0, |b|), ivCount := 1,
         toSend := |b|, haveSend := 0)
  }

  /** What a parse leads to: more bytes are needed, an exception leaves `process`, or a response. */
  datatype Decision =
    | NeedMore(q: Parser)
    | Throws(q: Parser)
    | Answer(q: Parser, f: Fields, r: R.Response)

  function Decide(p: Parser, env: Env): Decision {
    var (o, q) := Parse(p);
    match o
    case Threw => Throws(q)
    case Code(NoRequest) => NeedMore(q)
    case Code(BadRequest) => Answer(q, q.f, R.Error(400, "Bad Request"))
    case Code(_) =>
      var (r, f) := MakeResponse(q.f, env);
      Answer(q, f, r)
  }

  /** An exception leaves `process` exactly when the unread bytes hold a length `stoi` rejects. */
  lemma DecideThrows(p: Parser, env: Env)
    ensures Decide(p, env).Throws? <==> LengthRejected(p)
  {
    ParseThrows(p);
  }

  datatype Rearm = RearmIn | RearmOut | NoRearm

  /** `process()`, and the event it arms the descriptor for. An exception leaves it unarmed. */
  function AfterProcess(s: Snapshot, env: Env): (Rearm, Snapshot) {
    match Decide(s.parser, env)
    case NeedMore(q) => (RearmIn, s.(parser := q))
    case Throws(q) => (NoRearm, s.(parser := q))
    case Answer(q, f, r) => (RearmOut, Respond(s.out, q, f, r))
  }

  function Respond(o: Out, q: Parser, f: Fields, r: R.Response): Snapshot {
    Snapshot(q.(f := f.(keepAlive := R.KeepAlive(r))), Install(o, r))
  }

  /** `reset()`; the mapping is left to `unmap()`. */
  function AfterReset(s: Snapshot): Snapshot {
    Snapshot(Fresh(), Emptied(s.out))
  }

  function Emptied(o: Out): Out {
    o.(writeBuf := "", iv0 := NO_IOVEC, iv1 := NO_IOVEC, ivCount := 0, toSend := 0, haveSend := 0)
  }

  /** Nothing is being sent and nothing is mapped: the state in which a request is read. */
  predicate Idle(o: Out) {
    o.toSend == 0 && o.haveSend == 0 && o.ivCount == 0 && o.mapped.None?
  }

  /** A freshly built response is offered to `writev` whole, header first. */
  lemma InstallPending(o: Out, r: R.Response)
    ensures var i := Install(o, r);
            && Pending(i) == R.Bytes(r) && Valid(i)
            && i.haveSend == 0 < i.toSend == |R.Bytes(r)|
            && (i.mapped.Some? <==> r.File?)
            && (i.mapped.Some? ==> i.statSize == |i.mapped.value|)
  {
    var i := Install(o, r);
    assert Segment(i, i.iv0) == i.writeBuf;
    if r.File? {
      assert Segment(i, i.iv1) == r.content;
    }
  }

  /** Several calls of `write()`, until one of them finishes. */
  function WriteCalls(o: Out, calls: seq<seq<Offer>>): WriteResult
    decreases |calls|
  {
    if calls == [] then WriteResult(false, o, "")
    else
      var w := Outgoing.Write(o, calls[0]);
      if w.done then w else Prepend(w.sent, WriteCalls(w.o, calls[1..]))
  }

  predicate NeverBroken(calls: seq<seq<Offer>>) {
    forall i :: 0 <= i < |calls| ==> NotBroken(calls[i])
  }

  lemma {:induction false} CallsKeep(o: Out, r: R.Response, calls: seq<seq<Offer>>)
    requires Valid(o) && o.haveSend < o.toSend && NeverBroken(calls) && !WriteCalls(o, calls).done
    requires if r.File? then FileLeft(o, r.content) else o.mapped.None?
    ensures var u := WriteCalls(o, calls).o;
            && Valid(u) && u.haveSend < u.toSend
            && if r.File? then FileLeft(u, r.content) else u.mapped.None?
    decreases |calls|
  {
    if calls != [] {
      var w := WriteLoop(o, calls[0]);
      WriteConserves(o, calls[0]);
      if r.File? {
        WriteKeepsFile(o, r.content, calls[0]);
      }
      CallsKeep(w.o, r, calls[1..]);
    }
  }

  /** A hard error of `writev`, at any point before a response is sent completely: the mapping is
      released and the iovec kept, so the next call would read memory that is gone if and only if
      the response is a file with content. */
  lemma HardErrorDangles(o: Out, r: R.Response, calls: seq<seq<Offer>>, last: seq<Offer>)
    requires NeverBroken(calls) && !WriteCalls(Install(o, r), calls).done
    requires AllRoom(last) && !WriteLoop(WriteCalls(Install(o, r), calls).o, last).done
    ensures var b := Outgoing.Write(WriteCalls(Install(o, r), calls).o, last + [Broken]);
            !b.done && (Valid(b.o) <==> (r.File? ==> r.content == ""))
  {
    InstallPending(o, r);
    CallsKeep(Install(o, r), r, calls);
    var u := WriteCalls(Install(o, r), calls).o;
    CallsKeepOne(u, r, last);
    ThenBroken(u, last);
    var v := WriteLoop(u, last).o;
    if r.File? {
      UnmappedFile(v, r.content);
    } else {
      assert Unmap(v) == v;
    }
  }

  lemma CallsKeepOne(u: Out, r: R.Response, last: seq<Offer>)
    requires Valid(u) && u.haveSend < u.toSend && NotBroken(last) && !WriteLoop(u, last).done
    requires if r.File? then FileLeft(u, r.content) else u.mapped.None?
    ensures var v := WriteLoop(u, last).o;
            Valid(v) && if r.File? then FileLeft(v, r.content) else v.mapped.None?
  {
    WriteConserves(u, last);
    if r.File? {
      WriteKeepsFile(u, r.content, last);
    }
  }

  // ---------------------------------------------------------------- what a client reads

  /** The client reads this message, and nothing else, from the bytes of the answer. */
  ghost predicate Says(d: Decision, m: R.Message) {
    d.Answer? && R.ClientRead(R.Bytes(d.r)) == Some([m])
  }

  /** A page of the server. */
  function PageMessage(page: string): R.Message {
    R.Message("HTTP/1.1 200 OK", "text/html; charset=utf-8", page, true)
  }

  /** The file at a path, with the media type its name asks for. */
  function FileMessage(path: string, content: string, keepAlive: bool): R.Message {
    R.Message("HTTP/1.1 200 OK",
              if Contains(path, ".jpg") || Contains(path, ".png") then "image/jpeg" else "text/html; charset=utf-8",
              content, keepAlive)
  }

  /** An error page, after which the server closes. */
  function ErrorMessage(text: string): R.Message {
    R.Message("HTTP/1.1 " + text, "text/html; charset=utf-8",
              "<html><body><h1>" + text + "</h1></body></html>", false)
  }

  /** What the client gets for a path: `/` is the home page; a file that is not there is a 404. */
  function PathMessage(url: string, keepAlive: bool, env: Env): R.Message {
    var path := if url == "/" then "/index.html" else url;
    match env.files("./resources" + path)
    case None => ErrorMessage("404 Not Found")
    case Some(content) => FileMessage(path, content, keepAlive)
  }

  predicate IsLogin(t: LoginForm.Target) {
    t.verb == "POST" && t.url == "/login"
  }

  lemma NumberOf404()
    ensures ToDecimal(404) + " " + "Not Found" == "404 Not Found"
  {
    ThreeDigits(404);
  }

  lemma NumberOf400()
    ensures ToDecimal(400) + " " + "Bad Request" == "400 Bad Request"
  {
    ThreeDigits(400);
  }

  lemma ThreeDigits(n: nat)
    requires 100 <= n < 1000
    ensures ToDecimal(n) == [(n / 100 + 48) as char, (n / 10 % 10 + 48) as char, (n % 10 + 48) as char]
  {
    var tens := n / 10;
    assert ToDecimal(tens / 10) == [(tens / 10 + 48) as char];
    assert ToDecimal(tens) == ToDecimal(tens / 10) + [(tens % 10 + 48) as char];
    assert ToDecimal(n) == ToDecimal(tens) + [(n % 10 + 48) as char];
  }

  lemma ErrorIs404()
    ensures R.MessageOf(R.Error(404, "Not Found")) == ErrorMessage("404 Not Found")
    ensures R.Printable(R.Error(404, "Not Found"))
  {
    NumberOf404();
  }

  lemma ErrorIs400()
    ensures R.MessageOf(R.Error(400, "Bad Request")) == ErrorMessage("400 Bad Request")
    ensures R.Printable(R.Error(400, "Bad Request"))
  {
    NumberOf400();
  }

  /** The answer for a static path. */
  lemma StaticSays(f: Fields, env: Env)
    requires !(f.verb == "POST" && f.url == "/login")
    ensures var r := MakeResponse(f, env).0;
            R.Printable(r) && R.MessageOf(r) == PathMessage(f.url, f.keepAlive, env)
  {
    ErrorIs404();
  }

  /** The answer to a login is the page for what `check_login` says about the user and the password,
      and the failure page when the form has none. */
  lemma LoginSays(f: Fields, env: Env)
    requires f.verb == "POST" && f.url == "/login"
    ensures var r := MakeResponse(f, env).0;
            && R.Printable(r)
            && match LoginForm.ParsePostData(f.postData)
               case None => R.MessageOf(r) == PageMessage(env.failPage)
               case Some((user, password)) =>
                 R.MessageOf(r) == PageMessage(if env.check(user, password) then env.okPage else env.failPage)
  {
  }

  lemma DecideSays(p: Parser, env: Env)
    requires Parse(p).0 == Code(GetRequest)
    ensures Decide(p, env).Answer? && Decide(p, env).r == MakeResponse(Parse(p).1.f, env).0
  {
  }

  /** A login with any other headers: the client reads the page for what `check_login` says about
      exactly the user name and password it typed. */
  lemma LoginAnswered(
      p: Parser, t: LoginForm.Target, before: seq<string>, behind: seq<string>, user: string, password: string,
      env: Env)
    requires p == Fresh() && IsLogin(t) && LoginForm.Token(t.version)
    requires LoginForm.HeaderLines(before) && LoginForm.HeaderLines(behind) && LoginForm.Sayable(user, password)
    ensures Says(Decide(Add(p, LoginForm.Print(t, before, behind, LoginForm.Form(user, password))), env),
                 PageMessage(if env.check(user, password) then env.okPage else env.failPage))
  {
    var whole := Add(p, LoginForm.Print(t, before, behind, LoginForm.Form(user, password)));
    LoginIsProper(t);
    LoginForm.LoginRoundTrip(p, t, before, behind, user, password);
    DecideSays(whole, env);
    LoginSays(Parse(whole).1.f, env);
    R.ReadAlone(Decide(whole, env).r);
  }

  lemma LoginIsProper(t: LoginForm.Target)
    requires IsLogin(t) && LoginForm.Token(t.version)
    ensures LoginForm.Proper(t)
  {
  }

  lemma BareDecides(p: Parser, t: LoginForm.Target, hs: seq<string>, rest: string, env: Env)
    requires p == Fresh() && LoginForm.Proper(t) && !IsLogin(t) && LoginForm.HeaderLines(hs)
    ensures var d := Decide(Add(p, LoginForm.PrintBare(t, hs, rest)), env);
            d.Answer? && d.r == StaticFile(HomePage(t.url), LoginForm.Stays(hs), env)
  {
    LoginForm.BareRoundTrip(p, t, hs, rest);
    DecideSays(Add(p, LoginForm.PrintBare(t, hs, rest)), env);
  }

  /** Any other request without a body: the client reads exactly the bytes of the file it names (or of
      the home page) with the connection type it asked for; or a 404. */
  lemma FileAnswered(p: Parser, t: LoginForm.Target, hs: seq<string>, rest: string, env: Env)
    requires p == Fresh() && LoginForm.Proper(t) && !IsLogin(t) && LoginForm.HeaderLines(hs)
    ensures Says(Decide(Add(p, LoginForm.PrintBare(t, hs, rest)), env), PathMessage(t.url, LoginForm.Stays(hs), env))
  {
    var whole := Add(p, LoginForm.PrintBare(t, hs, rest));
    LoginForm.BareRoundTrip(p, t, hs, rest);
    DecideSays(whole, env);
    StaticSays(Parse(whole).1.f, env);
    R.ReadAlone(Decide(whole, env).r);
  }

  lemma ParseInBody(p: Parser)
    requires p.f.checkState.Content?
    ensures Parse(p) == TakeBody(SkipLine(p))
  {
  }

  lemma ParseNoLine(p: Parser)
    requires !p.f.checkState.Content? && Find(p.readBuf, CRLF, p.checkedIdx).None?
    ensures Parse(p) == (Code(NoRequest), p)
  {
  }

  lemma ParseOneLine(p: Parser)
    requires !p.f.checkState.Content? && Find(p.readBuf, CRLF, p.checkedIdx).Some?
    ensures var at := Find(p.readBuf, CRLF, p.checkedIdx).value;
            match OnLine(p.f, p.readBuf[p.checkedIdx..at])
            case Stop(o, f) => Parse(p) == (o, PastLine(p, at, f))
            case Next(f) => Parse(p) == Parse(PastLine(p, at, f))
  {
  }

  lemma LoopUnfold(o: Out, offer: Offer, rest: seq<Offer>)
    ensures WriteLoop(o, [offer] + rest) ==
            match offer
            case WouldBlock => WriteResult(false, o, "")
            case Broken => WriteResult(false, Unmap(o), "")
            case Room(bytes) =>
              var n := Min(bytes, |Pending(o)|);
              if n == 0 then Prepend(Pending(o)[..n], WriteLoop(o, rest))
              else
                var w := Written(o, n);
                if w.done then w else Prepend(w.sent, WriteLoop(w.o, rest))
  {
    assert ([offer] + rest)[1..] == rest;
    var r := WriteLoop(o, rest);
    assert Pending(o)[..0] + r.sent == r.sent;
  }

  lemma PrependTwice(a: string, b: string, r: WriteResult)
    ensures Prepend(a, Prepend(b, r)) == Prepend(a + b, r)
    ensures Prepend(a, WriteResult(r.done, r.o, "")) == WriteResult(r.done, r.o, a)
  {
    assert a + (b + r.sent) == a + b + r.sent;
    assert a + "" == a;
  }

  // ---------------------------------------------------------------- the class

  class HttpConn {
    var readBuf: string
    var writeBuf: string
    var checkState: CheckState
    var checkedIdx: nat
    var contentLength: nat
    var verb: string
    var url: string
    var version: string
    var postData: string
    var keepAlive: bool
    var mapped: Option<string>
    var statSize: nat
    const iv: array<IoVec>
    var ivCount: nat
    var toSend: nat
    var haveSend: nat

    ghost predicate Valid()
      reads this
    {
      iv.Length == 2 && checkedIdx <= |readBuf|
    }

    ghost function ParserPart(): Parser
      reads this
      requires Valid()
    {
      ParserState(readBuf, checkedIdx, Fields(checkState, contentLength, verb, url, version, postData, keepAlive))
    }

    function OutPart(): Out
      reads this, iv
      requires Valid()
    {
      Out(writeBuf, mapped, statSize, iv[0], iv[1], ivCount, toSend, haveSend)
    }

    ghost function Abs(): Snapshot
      reads this, iv
      requires Valid()
    {
      Snapshot(ParserPart(), OutPart())
    }

    constructor ()
      ensures Valid() && fresh(iv)
      ensures Abs() == Snapshot(Fresh(), Out("", None, 0, NO_IOVEC, NO_IOVEC, 0, 0, 0))
    {
      readBuf, writeBuf := "", "";
      checkState, checkedIdx, contentLength := RequestLine, 0, 0;
      verb, url, version, postData, keepAlive := "", "", "", "", false;
      mapped, statSize := None, 0;
      iv := new IoVec[2](_ => NO_IOVEC);
      ivCount, toSend, haveSend := 0, 0, 0;
    }

    method Reset()
      requires Valid()
      modifies this, iv
      ensures Valid() && ParserPart() == Fresh() && OutPart() == Emptied(old(OutPart()))
      ensures readBuf == "" && checkState.RequestLine? && checkedIdx == 0 && contentLength == 0 && !keepAlive
      ensures verb == "" && url == "" && version == "" && postData == ""
      ensures writeBuf == "" && toSend == 0 && haveSend == 0 && ivCount == 0 && iv[0] == iv[1] == NO_IOVEC
      ensures mapped == old(mapped)
    {
      ResetParser();
      ResetOut();
    }

    method ResetParser()
      requires Valid()
      modifies this`readBuf, this`checkState, this`checkedIdx, this`contentLength, this`keepAlive,
               this`verb, this`url, this`version, this`postData
      ensures Valid() && ParserPart() == Fresh()
    {
      readBuf, checkState, checkedIdx, contentLength, keepAlive := "", RequestLine, 0, 0, false;
      verb, url, version, postData := "", "", "", "";
    }

    method ResetOut()
      requires Valid()
      modifies this`writeBuf, this`toSend, this`haveSend, this`ivCount, iv
      ensures Valid() && OutPart() == Emptied(old(OutPart()))
    {
      writeBuf, toSend, haveSend, ivCount := "", 0, 0, 0;
      iv[0], iv[1] := NO_IOVEC, NO_IOVEC;
    }

    method ReleaseMapping()
      requires Valid()
      modifies this`mapped
      ensures Valid() && Abs() == old(Abs()).(out := Unmap(old(OutPart())))
    {
      if mapped.Some? {
        mapped := None;
      }
    }

    /** `read()`: drain the socket, then say whether there is anything to parse. */
    method Read(recvs: seq<Recv>) returns (ok: bool)
      requires Valid()
      modifies this`readBuf
      ensures Valid()
      ensures (ok, readBuf) == ReadCall(old(readBuf), recvs)
    {
      var i := 0;
      while i < |recvs|
        invariant 0 <= i <= |recvs| && Valid()
        invariant ReadCall(readBuf, recvs[i..]) == ReadCall(old(readBuf), recvs)
      {
        if recvs[i].Data? && recvs[i].bytes != "" {
          readBuf := readBuf + CString(recvs[i].bytes);
        } else if recvs[i].Again? {
          break;
        } else {
          return false;
        }
        i := i + 1;
      }
      return readBuf != "";
    }

    method GetLine() returns (ok: bool, line: string)
      requires Valid()
      modifies this`checkedIdx
      ensures Valid()
      ensures match Find(readBuf, CRLF, old(checkedIdx))
              case None => !ok && checkedIdx == old(checkedIdx)
              case Some(at) => ok && line == readBuf[old(checkedIdx)..at] && checkedIdx == at + 2
      ensures ParserPart() == SkipLine(old(ParserPart()))
    {
      var pos := Find(readBuf, CRLF, checkedIdx);
      if pos.None? {
        return false, "";
      }
      line := readBuf[checkedIdx..pos.value];
      checkedIdx := pos.value + 2;
      ok := true;
    }

    /** The request line: three extractions, each leaving its field alone when it fails. */
    method OnFirstLine(line: string) returns (bad: bool)
      requires Valid() && checkState.RequestLine?
      modifies this`verb, this`url, this`version, this`checkState
      ensures Valid()
      ensures OnLine(old(ParserPart()).f, line) ==
              if bad then Stop(Code(BadRequest), ParserPart().f) else Next(ParserPart().f)
    {
      var e1 := Extract(line, 0, verb);
      verb := e1.0;
      var e2 := Extract(line, e1.1, url);
      url := e2.0;
      var e3 := Extract(line, e2.1, version);
      version := e3.0;
      if verb == "" || url == "" {
        return true;
      }
      checkState := Header;
      bad := false;
    }

    method OnHeader(line: string) returns (stop: Option<Outcome>)
      requires Valid() && checkState.Header?
      modifies this`checkState, this`keepAlive, this`contentLength
      ensures Valid()
      ensures OnLine(old(ParserPart()).f, line) ==
              if stop.Some? then Stop(stop.value, ParserPart().f) else Next(ParserPart().f)
    {
      if line == "" {
        if contentLength == 0 {
          return Some(Code(GetRequest));
        }
        checkState := Content;
        return None;
      }
      if Contains(line, "Connection:") {
        if Contains(line, "keep-alive") {
          keepAlive := true;
        }
      }
      if Contains(line, "Content-Length:") {
        var v := Stoi(line[15..]);
        if v.None? {
          return Some(Threw);
        }
        contentLength := ToSize(v.value);
      }
      return None;
    }

    /** The switch on `m_check_state` for one line outside the body. */
    method OnOneLine(line: string) returns (stop: Option<Outcome>)
      requires Valid() && !checkState.Content?
      modifies this`checkState, this`contentLength, this`verb, this`url, this`version, this`keepAlive
      ensures Valid()
      ensures OnLine(old(ParserPart()).f, line) ==
              if stop.Some? then Stop(stop.value, ParserPart().f) else Next(ParserPart().f)
    {
      match checkState
      case RequestLine =>
        var bad := OnFirstLine(line);
        stop := if bad then Some(Code(BadRequest)) else None;
      case Header =>
        stop := OnHeader(line);
    }

    method OnBody() returns (o: Outcome)
      requires Valid()
      modifies this`postData
      ensures Valid() && (o, ParserPart()) == TakeBody(old(ParserPart()))
    {
      if |readBuf| - checkedIdx >= contentLength {
        postData := readBuf[checkedIdx..checkedIdx + contentLength];
        return Code(GetRequest);
      }
      return Code(NoRequest);
    }

    /** One turn of the loop of `parse_request()`. */
    method OneTurn() returns (o: Option<Outcome>)
      requires Valid()
      modifies this`checkState, this`checkedIdx, this`contentLength, this`verb, this`url, this`version,
               this`postData, this`keepAlive
      ensures Valid()
      ensures o.Some? ==> (o.value, ParserPart()) == Parse(old(ParserPart()))
      ensures o.None? ==> Parse(ParserPart()) == Parse(old(ParserPart())) && checkedIdx > old(checkedIdx)
    {
      ghost var p := ParserPart();
      var got, line := GetLine();
      if checkState.Content? {
        ParseInBody(p);
        var code := OnBody();
        return Some(code);
      }
      if !got {
        ParseNoLine(p);
        return Some(Code(NoRequest));
      }
      ParseOneLine(p);
      o := OnOneLine(line);
    }

    /** `parse_request()`: the loop over `get_line`. */
    method ParseRequest() returns (o: Outcome)
      requires Valid()
      modifies this`checkState, this`checkedIdx, this`contentLength, this`verb, this`url, this`version,
               this`postData, this`keepAlive
      ensures Valid()
      ensures (o, ParserPart()) == Parse(old(ParserPart()))
    {
      while true
        invariant Valid() && Parse(ParserPart()) == Parse(old(ParserPart()))
        decreases |readBuf| - checkedIdx
      {
        var stop := OneTurn();
        if stop.Some? {
          return stop.value;
        }
      }
    }

    /** The inner loop of `write()`: drop what was written from the iovec. */
    method AdvanceIov(n: nat)
      requires Valid()
      modifies this`ivCount, iv
      ensures Valid() && OutPart() == Advance(old(OutPart()), n)
    {
      var left: nat := n;
      while ivCount > 0 && left >= iv[0].len
        invariant Valid() && Advance(OutPart(), left) == Advance(old(OutPart()), n)
        decreases ivCount
      {
        left := left - iv[0].len;
        ivCount := ivCount - 1;
        if ivCount > 0 {
          iv[0] := iv[1];
        }
      }
      if ivCount > 0 && left > 0 {
        iv[0] := iv[0].(off := iv[0].off + left, len := iv[0].len - left);
      }
    }

    /** The bookkeeping for one `writev` that took `n` bytes. */
    method OnWritten(n: nat) returns (done: bool)
      requires Valid() && n <= |Pending(OutPart())|
      modifies this`mapped, this`ivCount, this`toSend, this`haveSend, iv
      ensures Valid()
      ensures var w := Written(old(OutPart()), n); done == w.done && OutPart() == w.o
    {
      haveSend := haveSend + n;
      AdvanceIov(n);
      done := haveSend >= toSend;
      if done {
        ReleaseMapping();
        toSend, haveSend := 0, 0;
      }
    }

    /** One turn of the loop of `write()`; `now` is what the kernel took. */
    method OneOffer(offer: Offer, ghost rest: seq<Offer>) returns (stop: Option<bool>, now: string)
      requires Valid()
      modifies this`mapped, this`ivCount, this`toSend, this`haveSend, iv
      ensures Valid()
      ensures WriteLoop(old(OutPart()), [offer] + rest) ==
              if stop.Some? then WriteResult(stop.value, OutPart(), now)
              else Prepend(now, WriteLoop(OutPart(), rest))
    {
      LoopUnfold(OutPart(), offer, rest);
      match offer
      case WouldBlock =>
        stop, now := Some(false), "";
      case Broken =>
        ReleaseMapping();
        stop, now := Some(false), "";
      case Room(bytes) =>
        var pending := Pending(OutPart());
        var written := Min(bytes, |pending|);
        now := pending[..written];
        stop := None;
        if written > 0 {
          var done := OnWritten(written);
          stop := if done then Some(true) else None;
        }
    }

    /** `write()`; `sent` is what the kernel took from the iovec. */
    method Write(offers: seq<Offer>) returns (done: bool, sent: string)
      requires Valid()
      modifies this`mapped, this`ivCount, this`toSend, this`haveSend, iv
      ensures Valid()
      ensures WriteResult(done, OutPart(), sent) == Outgoing.Write(old(OutPart()), offers)
    {
      if toSend == 0 {
        return true, "";
      }
      ghost var whole := WriteLoop(OutPart(), offers);
      sent := "";
      var i := 0;
      while i < |offers|
        invariant 0 <= i <= |offers| && Valid()
        invariant whole == Prepend(sent, WriteLoop(OutPart(), offers[i..]))
      {
        assert offers[i..] == [offers[i]] + offers[i + 1..];
        var stop, now := OneOffer(offers[i], offers[i + 1..]);
        PrependTwice(sent, now, WriteLoop(OutPart(), offers[i + 1..]));
        sent := sent + now;
        if stop.Some? {
          return stop.value, sent;
        }
        i := i + 1;
      }
      return false, sent;
    }

    /** The tail of `serve_static_file`: header in one entry, mapped file in the other. */
    method SendFile(image: bool, content: string)
      requires Valid()
      modifies this`writeBuf, this`statSize, this`mapped, this`ivCount, this`toSend, this`haveSend, iv
      ensures Valid()
      ensures OutPart() == Install(old(OutPart()), R.File(image, keepAlive, content))
    {
      writeBuf := R.Header(R.File(image, keepAlive, content));
      statSize := |content|;
      mapped := Some(content);
      iv[0] := IoVec(WriteBuf, 0, |writeBuf|);
      iv[1] := IoVec(Mapping, 0, statSize);
      ivCount := 2;
      toSend := |writeBuf| + statSize;
      haveSend := 0;
    }

    /** `send_error` and `send_login_response`: header and body share one iovec entry, and the
        mapping address is overwritten without being released. */
    method SendBuffer(r: R.Response)
      requires Valid() && !r.File?
      modifies this`writeBuf, this`ivCount, this`toSend, this`haveSend, this`mapped, this`keepAlive, iv
      ensures Valid()
      ensures OutPart() == Install(old(OutPart()), r) && keepAlive == R.KeepAlive(r)
    {
      writeBuf := R.Bytes(r);
      iv[0] := IoVec(WriteBuf, 0, |writeBuf|);
      ivCount := 1;
      toSend := |writeBuf|;
      haveSend := 0;
      mapped := None;
      keepAlive := R.KeepAlive(r);
    }

    method ServeStaticFile(env: Env)
      requires Valid()
      modifies this`url, this`writeBuf, this`statSize, this`mapped, this`ivCount, this`toSend, this`haveSend,
               this`keepAlive, iv
      ensures Valid() && url == HomePage(old(url))
      ensures var r := StaticFile(url, old(keepAlive), env);
              OutPart() == Install(old(OutPart()), r) && keepAlive == R.KeepAlive(r)
    {
      if url == "/" {
        url := "/index.html";
      }
      var content := env.files("./resources" + url);
      if content.None? {
        SendBuffer(R.Error(404, "Not Found"));
      } else {
        var image := Contains(url, ".jpg") || Contains(url, ".png");
        SendFile(image, content.value);
      }
    }

    /** `make_response()`. */
    method BuildResponse(env: Env)
      requires Valid()
      modifies this`url, this`writeBuf, this`statSize, this`mapped, this`ivCount, this`toSend, this`haveSend,
               this`keepAlive, iv
      ensures Valid()
      ensures var (r, f) := MakeResponse(old(ParserPart()).f, env);
              && url == f.url && keepAlive == R.KeepAlive(r)
              && OutPart() == Install(old(OutPart()), r)
    {
      if verb == "POST" && url == "/login" {
        var form := LoginForm.ParsePostData(postData);
        var ok := form.Some? && env.check(form.value.0, form.value.1);
        SendBuffer(R.Login(if ok then env.okPage else env.failPage));
      } else {
        ServeStaticFile(env);
      }
    }

    /** `process()`, up to the `epoll_ctl` it ends with. */
    method Process(env: Env) returns (rearm: Rearm)
      requires Valid()
      modifies this, iv
      ensures Valid() && (rearm, Abs()) == AfterProcess(old(Abs()), env)
    {
      ghost var p := ParserPart();
      var o := ParseRequest();
      if o == Threw {
        return NoRearm;
      }
      if o == Code(NoRequest) {
        return RearmIn;
      }
      Answer(o, env, p);
      return RearmOut;
    }

    /** What `process()` does with a verdict: the 400 page, or `make_response()`. */
    method Answer(o: Outcome, env: Env, ghost p: Parser)
      requires Valid() && (o, ParserPart()) == Parse(p)
      requires o != Threw && o != Code(NoRequest)
      modifies this`url, this`writeBuf, this`statSize, this`mapped, this`ivCount, this`toSend, this`haveSend,
               this`keepAlive, iv
      ensures Valid()
      ensures var d := Decide(p, env); d.Answer? && Abs() == Respond(old(OutPart()), d.q, d.f, d.r)
    {
      if o == Code(BadRequest) {
        AnswerBad();
      } else {
        AnswerGood(env);
      }
    }

    method AnswerBad()
      requires Valid()
      modifies this`writeBuf, this`ivCount, this`toSend, this`haveSend, this`mapped, this`keepAlive, iv
      ensures Valid()
      ensures Abs() == Respond(old(OutPart()), old(ParserPart()), old(ParserPart()).f, R.Error(400, "Bad Request"))
    {
      SendBuffer(R.Error(400, "Bad Request"));
    }

    method AnswerGood(env: Env)
      requires Valid()
      modifies this`url, this`writeBuf, this`statSize, this`mapped, this`ivCount, this`toSend, this`haveSend,
               this`keepAlive, iv
      ensures Valid()
      ensures var (r, f) := MakeResponse(old(ParserPart()).f, env);
              Abs() == Respond(old(OutPart()), old(ParserPart()), f, r)
    {
      BuildResponse(env);
    }
  }
}
