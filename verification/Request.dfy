/** The incremental request parser of `HttpConn`: what one call of `parse_request` does to the
    fields it owns, and what a whole sequence of calls does to a stream cut up by TCP. */
module Request {
  import opened Text

  datatype CheckState = RequestLine | Header | Content
  datatype HttpCode = NoRequest | GetRequest | BadRequest | InternalError

  /** `Threw` is an exception of `std::stoi` leaving `parse_request`. */
  datatype Outcome = Code(code: HttpCode) | Threw

  /** The fields of `HttpConn` that the parser fills in. */
  datatype Fields = Fields(
    checkState: CheckState, contentLength: nat,
    verb: string, url: string, version: string, postData: string, keepAlive: bool)

  datatype ParserState = ParserState(readBuf: string, checkedIdx: nat, f: Fields)

  const NO_FIELDS := Fields(RequestLine, 0, "", "", "", "", false)

  /** `m_checked_idx <= m_read_buf.size()`, so `size() - m_checked_idx` never wraps. Every
      function below has to prove it of its result. */
  type Parser = p: ParserState | p.checkedIdx <= |p.readBuf|
    witness ParserState("", 0, NO_FIELDS)

  /** The state after `reset`. */
  function Fresh(): Parser {
    ParserState("", 0, NO_FIELDS)
  }

  /** `m_read_buf += more`. */
  function Add(p: Parser, more: string): Parser {
    p.(readBuf := p.readBuf + more)
  }

  // ---------------------------------------------------------------- one line

  datatype LineResult = Next(f: Fields) | Stop(outcome: Outcome, f: Fields)

  /** `ss >> m_method >> m_url >> m_version`. */
  function OnRequestLine(f: Fields, line: string): LineResult {
    var (m, i) := Extract(line, 0, f.verb);
    var (u, j) := Extract(line, i, f.url);
    var (v, _) := Extract(line, j, f.version);
    var g := f.(verb := m, url := u, version := v);
    if m == "" || u == "" then Stop(Code(BadRequest), g) else Next(g.(checkState := Header))
  }

  /** An `int` stored into the `size_t` field: a negative length wraps around. */
  function ToSize(v: int): nat
    requires -INT_MAX - 1 <= v <= INT_MAX
  {
    if v < 0 then v + SIZE_MODULUS else v
  }

  function OnHeaderLine(f: Fields, line: string): LineResult {
    if line == "" then
      if f.contentLength == 0 then Stop(Code(GetRequest), f) else Next(f.(checkState := Content))
    else
      var g := if Contains(line, "Connection:") && Contains(line, "keep-alive")
               then f.(keepAlive := true) else f;
      if Contains(line, "Content-Length:") then
        match Stoi(line[15..])
        case None => Stop(Threw, g)
        case Some(v) => Next(g.(contentLength := ToSize(v)))
      else Next(g)
  }

  function OnLine(f: Fields, line: string): (r: LineResult)
    requires !f.checkState.Content?
    ensures r.Next? && r.f.checkState.Content? ==> r.f.contentLength != 0
    ensures r.Stop? ==> r.outcome != Code(NoRequest)
  {
    match f.checkState
    case RequestLine => OnRequestLine(f, line)
    case Header => OnHeaderLine(f, line)
  }

  // ---------------------------------------------------------------- one call

  /** Past the CRLF that `get_line` found at `at`, with the fields the line left behind. */
  function PastLine(p: Parser, at: nat, f: Fields): Parser
    requires p.checkedIdx <= at && at + 2 <= |p.readBuf|
  {
    ParserState(p.readBuf, at + 2, f)
  }

  /** How the lines available now end: a verdict, an incomplete line, or the body. */
  datatype HeadResult = Done(outcome: Outcome, p: Parser) | More(p: Parser) | Body(p: Parser)

  function Head(p: Parser): (r: HeadResult)
    requires !p.f.checkState.Content?
    ensures r.Body? <==> r.p.f.checkState.Content? && !r.Done?
    decreases |p.readBuf| - p.checkedIdx
  {
    match Find(p.readBuf, CRLF, p.checkedIdx)
    case None => More(p)
    case Some(at) =>
      match OnLine(p.f, p.readBuf[p.checkedIdx..at])
      case Stop(o, f) => Done(o, PastLine(p, at, f))
      case Next(f) => var q := PastLine(p, at, f);
                      if f.checkState.Content? then Body(q) else Head(q)
  }

  /** The head, once its next line has been read. */
  function AfterLine(p: Parser, at: nat, r: LineResult): HeadResult
    requires p.checkedIdx <= at && at + 2 <= |p.readBuf|
  {
    match r
    case Stop(o, f) => Done(o, PastLine(p, at, f))
    case Next(f) => if f.checkState.Content? then Body(PastLine(p, at, f)) else Head(PastLine(p, at, f))
  }

  lemma HeadUnfold(p: Parser, at: nat, line: string)
    requires !p.f.checkState.Content? && Find(p.readBuf, CRLF, p.checkedIdx) == Some(at)
    requires p.readBuf[p.checkedIdx..at] == line
    ensures Head(p) == AfterLine(p, at, OnLine(p.f, line))
  {
  }

  lemma {:induction false} HeadFacts(p: Parser)
    requires !p.f.checkState.Content?
    ensures var r := Head(p);
            && r.p.readBuf == p.readBuf && r.p.checkedIdx >= p.checkedIdx
            && (r.More? ==> Find(p.readBuf, CRLF, r.p.checkedIdx).None?)
            && (r.Body? ==>
                  && r.p.f.contentLength != 0
                  && Find(p.readBuf, CRLF, p.checkedIdx).Some?
                  && r.p.checkedIdx >= Find(p.readBuf, CRLF, p.checkedIdx).value + 2)
            && (r.Done? ==> r.outcome != Code(NoRequest))
    decreases |p.readBuf| - p.checkedIdx
  {
    match Find(p.readBuf, CRLF, p.checkedIdx)
    case None =>
    case Some(at) =>
      var r := OnLine(p.f, p.readBuf[p.checkedIdx..at]);
      if r.Next? && !r.f.checkState.Content? {
        HeadFacts(PastLine(p, at, r.f));
      }
  }

  /** The parser after one `get_line`. In the CONTENT state too it runs before the length is
      compared, so a CRLF after the header block moves `m_checked_idx`. */
  function SkipLine(p: Parser): Parser {
    match Find(p.readBuf, CRLF, p.checkedIdx)
    case Some(at) => PastLine(p, at, p.f)
    case None => p
  }

  function TakeBody(q: Parser): (Outcome, Parser) {
    var n := q.f.contentLength;
    if |q.readBuf| - q.checkedIdx >= n then
      (Code(GetRequest), q.(f := q.f.(postData := q.readBuf[q.checkedIdx..q.checkedIdx + n])))
    else (Code(NoRequest), q)
  }

  /** The loop body in the CONTENT state, which always returns. */
  function BodyCall(p: Parser): (Outcome, Parser)
    requires p.f.checkState.Content?
  {
    TakeBody(SkipLine(p))
  }

  function AfterHead(h: HeadResult): (Outcome, Parser)
    requires h.Body? ==> h.p.f.checkState.Content?
  {
    match h
    case Done(o, q) => (o, q)
    case More(q) => (Code(NoRequest), q)
    case Body(q) => BodyCall(q)
  }

  /** One call of `parse_request`. */
  function Parse(p: Parser): (Outcome, Parser) {
    if p.f.checkState.Content? then BodyCall(p) else AfterHead(Head(p))
  }

  // ---------------------------------------------------------------- many calls

  /** `parse_request` after each append, until it stops answering NO_REQUEST. */
  function Feed(p: Parser, chunks: seq<string>): (Outcome, Parser)
    decreases |chunks|
  {
    if chunks == [] then (Code(NoRequest), p)
    else
      var (o, q) := Parse(Add(p, chunks[0]));
      if o == Code(NoRequest) then Feed(q, chunks[1..]) else (o, q)
  }

  /** What the rest of the server sees of a parse: the verdict and every field it filled in. */
  datatype Report = Report(outcome: Outcome, f: Fields)

  function ReportOf(r: (Outcome, Parser)): Report {
    Report(r.0, r.1.f)
  }

  // ---------------------------------------------------------------- appending and the head

  lemma {:induction false} HeadAppend(p: Parser, t: string)
    requires !p.f.checkState.Content?
    ensures match Head(p)
            case Done(o, q) => Head(Add(p, t)) == Done(o, Add(q, t))
            case Body(q) => Head(Add(p, t)) == Body(Add(q, t))
            case More(q) => Head(Add(p, t)) == Head(Add(q, t))
    decreases |p.readBuf| - p.checkedIdx
  {
    match Find(p.readBuf, CRLF, p.checkedIdx)
    case None =>
    case Some(at) =>
      FindAppend(p.readBuf, t, CRLF, p.checkedIdx);
      var line := p.readBuf[p.checkedIdx..at];
      assert Add(p, t).readBuf[p.checkedIdx..at] == line;
      var r := OnLine(p.f, line);
      if r.Next? && !r.f.checkState.Content? {
        HeadAppend(PastLine(p, at, r.f), t);
      }
  }

  lemma AddAdd(p: Parser, a: string, b: string)
    ensures Add(Add(p, a), b) == Add(p, a + b)
  {
    assert p.readBuf + a + b == p.readBuf + (a + b);
  }

  /** Once all bytes up to the body have arrived the head is over, not earlier and not later. */
  lemma HeadCut(p: Parser, a: string, b: string)
    requires !p.f.checkState.Content? && Head(Add(p, a + b)).Body?
    requires Head(Add(p, a + b)).p.checkedIdx <= |p.readBuf| + |a|
    ensures Head(Add(p, a)).Body? && Add(Head(Add(p, a)).p, b) == Head(Add(p, a + b)).p
  {
    AddAdd(p, a, b);
    HeadAppend(Add(p, a), b);
    HeadFacts(Add(p, a));
    var r := Head(Add(p, a));
    if r.More? {
      HeadFacts(Add(r.p, b));
      FindAppendNew(r.p.readBuf, b, CRLF, r.p.checkedIdx);
    }
  }

  // ---------------------------------------------------------------- the body

  /** Can a call take the body before it has seen the next line end completely? */
  predicate TakesHere(q: Parser) {
    match Find(q.readBuf, CRLF, q.checkedIdx)
    case None => true
    case Some(at) => q.checkedIdx + q.f.contentLength <= at + 1
  }

  /** Behind every later line end the body reads as `r`. */
  predicate SameBehind(q: Parser, r: Report)
    decreases |q.readBuf| - q.checkedIdx
  {
    match Find(q.readBuf, CRLF, q.checkedIdx)
    case None => true
    case Some(at) => var q1 := PastLine(q, at, q.f);
                     ReportOf(TakeBody(q1)) == r && SameBehind(q1, r)
  }

  predicate Settled(q: Parser, r: Report) {
    (TakesHere(q) ==> ReportOf(TakeBody(q)) == r) && SameBehind(q, r)
  }

  /** The exact condition under which the way a body arrives does not matter: wherever a call may
      take it, right behind the header block or behind any line end after it, it reads the same as
      when everything arrives at once. */
  predicate StableBody(q: Parser)
    requires q.f.checkState.Content?
  {
    Settled(q, ReportOf(BodyCall(q)))
  }

  /** A complete body `a` and, behind a line end, as many bytes `b`: a call that sees only the body
      takes `a`, and a call that sees everything takes `b`. */
  lemma TwoReadings(q: Parser, a: string, b: string)
    requires q.f.checkState.Content? && q.readBuf[q.checkedIdx..] == a
    requires |a| == |b| == q.f.contentLength && !Contains(a, CRLF)
    ensures var all := Add(q, CRLF + b);
            && BodyCall(q).0 == Code(GetRequest) && BodyCall(q).1.f.postData == a
            && BodyCall(all).0 == Code(GetRequest) && BodyCall(all).1.f.postData == b
            && (a != b ==> !StableBody(all))
  {
    var pre := q.readBuf[..q.checkedIdx];
    var s := q.readBuf + (CRLF + b);
    assert q.readBuf == pre + a;
    LineEndBehind(pre, a, b);
    FindCut(q.readBuf, CRLF + b, q.checkedIdx);
    assert s[|q.readBuf| + 2..] == b;
    assert s[q.checkedIdx..q.checkedIdx + |a|] == a;
  }

  lemma LineEndBehind(pre: string, a: string, b: string)
    requires !Contains(a, CRLF)
    ensures Find(pre + a + (CRLF + b), CRLF, |pre|) == Some(|pre| + |a|)
  {
    FindLineEnd(pre, a, b);
    Regroup(pre + a, CRLF, b);
  }

  /** More bytes do not change a body that is already complete. */
  lemma TakeBodyAgain(q: Parser, more: string)
    requires TakeBody(q).0 == Code(GetRequest)
    ensures ReportOf(TakeBody(Add(q, more))) == ReportOf(TakeBody(q))
  {
    SliceOfPrefix(q.readBuf, more, q.checkedIdx, q.checkedIdx + q.f.contentLength);
  }

  lemma SliceOfPrefix(s: string, t: string, i: nat, j: nat)
    requires i <= j <= |s|
    ensures (s + t)[i..j] == s[i..j]
  {
  }

  lemma FindCut(a: string, b: string, from: nat)
    ensures match Find(a + b, CRLF, from)
            case None => Find(a, CRLF, from).None?
            case Some(at) => Find(a, CRLF, from) == if at + 2 <= |a| then Some(at) else None
  {
    if Find(a, CRLF, from).Some? {
      FindAppend(a, b, CRLF, from);
    } else {
      FindAppendNew(a, b, CRLF, from);
    }
  }

  /** One call while the body arrives: the answer `r`, or it waits and everything is still settled. */
  lemma BodyStep(q: Parser, rest: string, r: Report)
    requires q.f.checkState.Content? && Settled(Add(q, rest), r)
    ensures var (o, q1) := BodyCall(q);
            if o == Code(NoRequest)
            then
              && q1.f.checkState.Content? && |q1.readBuf| - q1.checkedIdx < q1.f.contentLength
              && Settled(Add(q1, rest), r)
            else ReportOf((o, q1)) == r
  {
    FindCut(q.readBuf, rest, q.checkedIdx);
    var q1 := SkipLine(q);
    if TakeBody(q1).0 == Code(GetRequest) {
      TakeBodyAgain(q1, rest);
    }
    match Find(q.readBuf, CRLF, q.checkedIdx)
    case None =>
    case Some(at) => assert Add(q1, rest) == PastLine(Add(q, rest), at, q.f);
  }

  lemma {:induction false} FeedSettled(q: Parser, chunks: seq<string>, r: Report)
    requires q.f.checkState.Content? && |q.readBuf| - q.checkedIdx < q.f.contentLength
    requires Settled(Add(q, Concat(chunks)), r)
    ensures ReportOf(Feed(q, chunks)) == r
    decreases |chunks|
  {
    if chunks == [] {
      assert Add(q, "") == q;
    } else {
      AddAdd(q, chunks[0], Concat(chunks[1..]));
      BodyStep(Add(q, chunks[0]), Concat(chunks[1..]), r);
      var (o, q1) := BodyCall(Add(q, chunks[0]));
      if o == Code(NoRequest) {
        FeedSettled(q1, chunks[1..], r);
      }
    }
  }

  /** Where the body reads differently, some chunks lead there. */
  lemma {:induction false} FeedDiffers(q: Parser, t: string, r: Report) returns (chunks: seq<string>)
    requires q.f.checkState.Content? && q.f.contentLength != 0 && q.checkedIdx == |q.readBuf|
    requires !SameBehind(Add(q, t), r)
    ensures Concat(chunks) == t && ReportOf(Feed(q, chunks)) != r
    decreases |t|
  {
    var whole := Add(q, t);
    var at := Find(whole.readBuf, CRLF, whole.checkedIdx).value;
    var w1 := PastLine(whole, at, q.f);
    if ReportOf(TakeBody(w1)) != r {
      chunks := [t];
      ConcatOne(t);
      FeedOne(q, t);
      assert BodyCall(whole) == TakeBody(w1);
    } else {
      var k := at + 2 - q.checkedIdx;
      var a, b := t[..k], t[k..];
      assert t == a + b;
      AddAdd(q, a, b);
      LineAlone(q, a, b, at);
      var q1 := PastLine(Add(q, a), at, q.f);
      assert Add(q1, b) == w1;
      var rest := FeedDiffers(q1, b, r);
      chunks := [a] + rest;
      FeedMore(q, a, rest, q1);
    }
  }

  lemma FeedOne(p: Parser, t: string)
    ensures ReportOf(Feed(p, [t])) == ReportOf(Parse(Add(p, t)))
  {
    var (o, q) := Parse(Add(p, t));
    assert Feed(p, [t]) == if o == Code(NoRequest) then Feed(q, [t][1..]) else (o, q);
  }

  lemma FeedMore(p: Parser, a: string, rest: seq<string>, q: Parser)
    requires Parse(Add(p, a)) == (Code(NoRequest), q)
    ensures Feed(p, [a] + rest) == Feed(q, rest)
    ensures Concat([a] + rest) == a + Concat(rest)
  {
    assert ([a] + rest)[1..] == rest;
  }

  /** A chunk that ends with the line end is skipped, and nothing is left for the body. */
  lemma LineAlone(q: Parser, a: string, b: string, at: nat)
    requires q.f.checkState.Content? && q.f.contentLength != 0
    requires Find(q.readBuf + a + b, CRLF, q.checkedIdx) == Some(at) && |q.readBuf + a| == at + 2
    ensures Parse(Add(q, a)) == (Code(NoRequest), PastLine(Add(q, a), at, q.f))
  {
    FindCut(q.readBuf + a, b, q.checkedIdx);
  }

  /** A body that can be taken before its first line end is complete. */
  lemma TakenEarly(q: Parser, a: string, b: string, at: nat)
    requires q.f.checkState.Content? && |q.readBuf + a| == at + 1
    requires Find(q.readBuf + a + b, CRLF, q.checkedIdx) == Some(at)
    requires q.checkedIdx + q.f.contentLength <= at + 1
    ensures Parse(Add(q, a)).0 == Code(GetRequest)
    ensures ReportOf(Parse(Add(q, a))) == ReportOf(TakeBody(Add(q, a + b)))
  {
    FindCut(q.readBuf + a, b, q.checkedIdx);
    TakeBodyAgain(Add(q, a), b);
    AddAdd(q, a, b);
  }

  lemma BodyCuts(q: Parser, t: string) returns (chunks: seq<string>)
    requires q.f.checkState.Content? && q.f.contentLength != 0 && q.checkedIdx == |q.readBuf|
    requires !StableBody(Add(q, t))
    ensures Concat(chunks) == t && ReportOf(Feed(q, chunks)) != ReportOf(BodyCall(Add(q, t)))
  {
    var whole := Add(q, t);
    if SameBehind(whole, ReportOf(BodyCall(whole))) {
      var at := Find(whole.readBuf, CRLF, whole.checkedIdx).value;
      var k := at + 1 - q.checkedIdx;
      var a, b := t[..k], t[k..];
      assert t == a + b && q.readBuf + t == q.readBuf + a + b;
      TakenEarly(q, a, b, at);
      chunks := [a, b];
      ConcatTwo(a, b);
    } else {
      chunks := FeedDiffers(q, t, ReportOf(BodyCall(whole)));
    }
  }

  // ---------------------------------------------------------------- fragmentation

  /** The streams on which the parser, starting from `p`, cannot tell how they were cut up. */
  predicate StableFrom(p: Parser, s: string)
    requires !p.f.checkState.Content?
  {
    match Head(Add(p, s))
    case Body(q) => StableBody(q)
    case Done(_, _) => true
    case More(_) => true
  }

  lemma {:induction false} FeedAgrees(p: Parser, chunks: seq<string>)
    requires !p.f.checkState.Content? && Find(p.readBuf, CRLF, p.checkedIdx).None?
    requires StableFrom(p, Concat(chunks))
    ensures ReportOf(Feed(p, chunks)) == ReportOf(Parse(Add(p, Concat(chunks))))
    decreases |chunks|
  {
    if chunks == [] {
      assert Add(p, "") == p;
    } else {
      var rest := Concat(chunks[1..]);
      var p1 := Add(p, chunks[0]);
      AddAdd(p, chunks[0], rest);
      HeadAppend(p1, rest);
      HeadFacts(p1);
      match Head(p1)
      case Done(o, q) =>
      case More(q) =>
        FeedAgrees(q, chunks[1..]);
      case Body(q) =>
        FeedFromBody(q, chunks[1..]);
    }
  }

  /** The call that reaches the body looks at whatever part of it has arrived. */
  lemma FeedFromBody(q: Parser, chunks: seq<string>)
    requires q.f.checkState.Content?
    requires StableBody(Add(q, Concat(chunks)))
    ensures ReportOf(if BodyCall(q).0 == Code(NoRequest) then Feed(BodyCall(q).1, chunks) else BodyCall(q))
            == ReportOf(BodyCall(Add(q, Concat(chunks))))
  {
    var r := ReportOf(BodyCall(Add(q, Concat(chunks))));
    BodyStep(q, Concat(chunks), r);
    var (o, q1) := BodyCall(q);
    if o == Code(NoRequest) {
      FeedSettled(q1, chunks, r);
    }
  }

  lemma ParseBody(p: Parser, q: Parser)
    requires !p.f.checkState.Content? && Head(p) == Body(q)
    ensures q.f.checkState.Content? && Parse(p) == BodyCall(q)
  {
  }

  /** For every stream outside the stable ones, chunks on which the parser answers differently than
      it does on the whole: the header block first, and the body cut behind its line ends. */
  lemma UnstableCuts(p: Parser, s: string) returns (chunks: seq<string>)
    requires p.readBuf == "" && !p.f.checkState.Content? && !StableFrom(p, s)
    ensures Concat(chunks) == s && ReportOf(Feed(p, chunks)) != ReportOf(Parse(Add(p, s)))
  {
    HeadFacts(Add(p, s));
    var whole := Head(Add(p, s)).p;
    var a, b := s[..whole.checkedIdx], s[whole.checkedIdx..];
    assert s == a + b;
    HeadCut(p, a, b);
    HeadFacts(Add(p, a));
    var q := Head(Add(p, a)).p;
    assert q.readBuf == a && Add(q, b) == whole;
    var rest := BodyCuts(q, b);
    chunks := [a] + rest;
    ParseBody(Add(p, a), q);
    ParseBody(Add(p, s), whole);
    NothingToTake(q);
    FeedMore(p, a, rest, q);
  }

  lemma NothingToTake(q: Parser)
    requires q.f.checkState.Content? && q.f.contentLength != 0 && q.checkedIdx == |q.readBuf|
    ensures BodyCall(q) == (Code(NoRequest), q)
  {
  }

  /** Every way of cutting `s` into chunks gives the report of a single call. */
  ghost predicate CutsAgree(p: Parser, s: string) {
    forall chunks :: Concat(chunks) == s ==> ReportOf(Feed(p, chunks)) == ReportOf(Parse(Add(p, s)))
  }

  /** Fragmentation independence, with its exact condition: the chunks TCP delivers do not matter
      if and only if the stream is stable. */
  lemma FragmentationIndependence(p: Parser, s: string)
    requires p.readBuf == "" && !p.f.checkState.Content?
    ensures CutsAgree(p, s) <==> StableFrom(p, s)
  {
    if StableFrom(p, s) {
      forall chunks | Concat(chunks) == s ensures ReportOf(Feed(p, chunks)) == ReportOf(Parse(Add(p, s))) {
        FeedAgrees(p, chunks);
      }
    } else {
      var chunks := UnstableCuts(p, s);
      assert Concat(chunks) == s;
    }
  }

  /** A stream with no CRLF behind its header block is stable. */
  lemma NoCrlfAfterHeaderIsStable(p: Parser, s: string)
    requires p.readBuf == "" && !p.f.checkState.Content?
    requires var h := Head(Add(p, s));
             h.Body? ==> !Contains(h.p.readBuf[h.p.checkedIdx..], CRLF)
    ensures StableFrom(p, s)
  {
    var h := Head(Add(p, s));
    if h.Body? {
      PlainIsStable(h.p);
    }
  }

  lemma PlainIsStable(q: Parser)
    requires q.f.checkState.Content? && !Contains(q.readBuf[q.checkedIdx..], CRLF)
    ensures StableBody(q)
  {
    FindSuffix(q.readBuf, CRLF, q.checkedIdx, 0);
  }

  /** A body of exactly the announced length is delivered unchanged if and only if it holds no
      CRLF; with one, the server waits for bytes that never come. */
  lemma ExactBody(p: Parser, body: string)
    requires p.f.checkState.Content? && p.checkedIdx == |p.readBuf|
    requires p.f.contentLength == |body| > 0
    ensures var r := Parse(Add(p, body));
            && (r.0 == Code(GetRequest) && r.1.f.postData == body <==> !Contains(body, CRLF))
            && (r.0 == Code(NoRequest) <==> Contains(body, CRLF))
  {
    var q := Add(p, body);
    assert q.readBuf[p.checkedIdx..] == body;
    FindSuffix(q.readBuf, CRLF, p.checkedIdx, 0);
  }

  /** With fewer bytes left than the length asks for, skipping lines does not help. */
  lemma {:induction false} ShortIsSame(q: Parser)
    requires |q.readBuf| - q.checkedIdx < q.f.contentLength
    ensures SameBehind(q, Report(Code(NoRequest), q.f))
    decreases |q.readBuf| - q.checkedIdx
  {
    match Find(q.readBuf, CRLF, q.checkedIdx)
    case None =>
    case Some(at) => ShortIsSame(PastLine(q, at, q.f));
  }

  lemma ExactIsStable(q: Parser)
    requires q.f.checkState.Content? && |q.readBuf| - q.checkedIdx == q.f.contentLength
    ensures StableBody(q)
  {
    match Find(q.readBuf, CRLF, q.checkedIdx)
    case None =>
    case Some(at) =>
      ShortIsSame(PastLine(q, at, q.f));
  }

  /** The same for a body that arrives in pieces, however it is cut: delivered whole and unchanged,
      or never. */
  lemma BodyInPieces(p: Parser, chunks: seq<string>)
    requires p.f.checkState.Content? && p.checkedIdx == |p.readBuf|
    requires p.f.contentLength == |Concat(chunks)| > 0
    ensures var r := Feed(p, chunks);
            && (r.0 == Code(GetRequest) && r.1.f.postData == Concat(chunks) <==> !Contains(Concat(chunks), CRLF))
            && (r.0 == Code(NoRequest) <==> Contains(Concat(chunks), CRLF))
  {
    var whole := Add(p, Concat(chunks));
    ExactIsStable(whole);
    FeedSettled(p, chunks, ReportOf(BodyCall(whole)));
    ExactBody(p, Concat(chunks));
  }

  // ---------------------------------------------------------------- a length that stoi rejects

  /** A header line whose length is no number, or none that fits an `int`. */
  predicate BadLength(line: string) {
    Contains(line, "Content-Length:") && Stoi(line[15..]).None?
  }

  /** Of the lines from `i` on, the first that is blank or has a bad length is of the second kind. */
  predicate BadAhead(s: string, i: nat)
    requires i <= |s|
    decreases |s| - i
  {
    match Find(s, CRLF, i)
    case None => false
    case Some(at) => s[i..at] != "" && (BadLength(s[i..at]) || BadAhead(s, at + 2))
  }

  /** The line has a method and a url; a field that is set already needs no token. */
  predicate HasTarget(line: string, verb: string, url: string) {
    var (m, i) := Extract(line, 0, verb);
    m != "" && Extract(line, i, url).0 != ""
  }

  /** What the bytes still unread say about the next call: a bad length lies ahead in the header
      block, behind a complete request line if that is still to come. */
  predicate LengthRejected(p: Parser) {
    match p.f.checkState
    case RequestLine => BadRequestText(p.readBuf, p.checkedIdx, p.f.verb, p.f.url)
    case Header => BadAhead(p.readBuf, p.checkedIdx)
    case Content => false
  }

  predicate BadRequestText(s: string, i: nat, verb: string, url: string)
    requires i <= |s|
  {
    match Find(s, CRLF, i)
    case None => false
    case Some(at) => HasTarget(s[i..at], verb, url) && BadAhead(s, at + 2)
  }

  lemma {:induction false} HeaderThrows(p: Parser)
    requires p.f.checkState.Header?
    ensures Head(p).Done? && Head(p).outcome == Threw <==> BadAhead(p.readBuf, p.checkedIdx)
    decreases |p.readBuf| - p.checkedIdx
  {
    match Find(p.readBuf, CRLF, p.checkedIdx)
    case None =>
    case Some(at) =>
      var r := OnLine(p.f, p.readBuf[p.checkedIdx..at]);
      if r.Next? && !r.f.checkState.Content? {
        HeaderThrows(PastLine(p, at, r.f));
      }
  }

  lemma HeadThrows(p: Parser)
    requires !p.f.checkState.Content?
    ensures Head(p).Done? && Head(p).outcome == Threw <==> LengthRejected(p)
  {
    if p.f.checkState.Header? {
      HeaderThrows(p);
    } else if Find(p.readBuf, CRLF, p.checkedIdx).Some? {
      var at := Find(p.readBuf, CRLF, p.checkedIdx).value;
      FirstLineThrows(p, at);
      RejectedFirst(p, at);
    }
  }

  lemma RejectedFirst(p: Parser, at: nat)
    requires p.f.checkState.RequestLine? && Find(p.readBuf, CRLF, p.checkedIdx) == Some(at)
    ensures LengthRejected(p) <==>
            HasTarget(p.readBuf[p.checkedIdx..at], p.f.verb, p.f.url) && BadAhead(p.readBuf, at + 2)
  {
  }

  lemma TargetIsNext(f: Fields, line: string)
    ensures OnRequestLine(f, line).Next? <==> HasTarget(line, f.verb, f.url)
    ensures OnRequestLine(f, line).Stop? ==> OnRequestLine(f, line).outcome == Code(BadRequest)
    ensures OnRequestLine(f, line).Next? ==> OnRequestLine(f, line).f.checkState.Header?
  {
  }

  lemma FirstLineThrows(p: Parser, at: nat)
    requires p.f.checkState.RequestLine? && Find(p.readBuf, CRLF, p.checkedIdx) == Some(at)
    ensures Head(p).Done? && Head(p).outcome == Threw <==>
            HasTarget(p.readBuf[p.checkedIdx..at], p.f.verb, p.f.url) && BadAhead(p.readBuf, at + 2)
  {
    var line := p.readBuf[p.checkedIdx..at];
    var r := OnRequestLine(p.f, line);
    TargetIsNext(p.f, line);
    HeadUnfold(p, at, line);
    assert OnLine(p.f, line) == r;
    if r.Next? {
      var q := PastLine(p, at, r.f);
      HeaderThrows(q);
      assert Head(p) == Head(q);
    }
  }

  /** A call throws if and only if a bad length lies ahead in the header block. */
  lemma ParseThrows(p: Parser)
    ensures Parse(p).0 == Threw <==> LengthRejected(p)
  {
    if !p.f.checkState.Content? {
      HeadThrows(p);
    }
  }

  lemma {:induction false} BodyNeverThrows(q: Parser, chunks: seq<string>)
    requires q.f.checkState.Content?
    ensures Feed(q, chunks).0 != Threw
    decreases |chunks|
  {
    if chunks != [] {
      BodyNeverThrows(BodyCall(Add(q, chunks[0])).1, chunks[1..]);
    }
  }

  lemma {:induction false} FeedThrows(p: Parser, chunks: seq<string>)
    requires !p.f.checkState.Content? && Find(p.readBuf, CRLF, p.checkedIdx).None?
    ensures var h := Head(Add(p, Concat(chunks)));
            Feed(p, chunks).0 == Threw <==> h.Done? && h.outcome == Threw
    decreases |chunks|
  {
    if chunks == [] {
      assert Add(p, "") == p;
    } else {
      var rest := Concat(chunks[1..]);
      var p1 := Add(p, chunks[0]);
      AddAdd(p, chunks[0], rest);
      HeadAppend(p1, rest);
      HeadFacts(p1);
      match Head(p1)
      case Done(o, q) =>
      case More(q) => FeedThrows(q, chunks[1..]);
      case Body(q) =>
        BodyNeverThrows(BodyCall(q).1, chunks[1..]);
    }
  }

  /** From a fresh connection, however the bytes are cut: the exception leaves `parse_request` if
      and only if the text is a request with a bad length in its header block. */
  lemma ThrowsExactly(p: Parser, chunks: seq<string>)
    requires p == Fresh()
    ensures Feed(p, chunks).0 == Threw <==> BadRequestText(Concat(chunks), 0, "", "")
  {
    FeedThrows(p, chunks);
    HeadThrows(Add(p, Concat(chunks)));
    assert "" + Concat(chunks) == Concat(chunks);
  }

  // ---------------------------------------------------------------- read() and NUL bytes

  /** `m_read_buf += buf` appends a C string: only the bytes before the first NUL arrive. */
  function CString(piece: string): (r: string)
    ensures NUL !in r && r <= piece
    ensures r == piece || piece[|r|] == NUL
  {
    if piece == "" || piece[0] == NUL then ""
    else [piece[0]] + CString(piece[1..])
  }

  /** What the successive `recv` calls of one or more `read()`s leave in the buffer. */
  function Received(pieces: seq<string>): string {
    if pieces == [] then "" else CString(pieces[0]) + Received(pieces[1..])
  }

  /** No byte other than NUL follows a NUL. */
  predicate NulsOnlyAtEnd(s: string) {
    forall i, j :: 0 <= i < j < |s| && s[i] == NUL ==> s[j] == NUL
  }

  lemma FirstAndRest(a: string, c: string)
    requires a != ""
    ensures a == [a[0]] + a[1..] && a + c == [a[0]] + (a[1..] + c)
  {
  }

  lemma {:induction false} CStringPrefix(a: string, b: string)
    ensures CString(a + b) == if NUL in a then CString(a) else a + CString(b)
  {
    if a == "" {
      assert a + b == b;
    } else {
      assert (a + b)[1..] == a[1..] + b;
      CStringPrefix(a[1..], b);
      FirstAndRest(a, CString(b));
    }
  }

  lemma {:induction false} ReceivedIsCString(pieces: seq<string>)
    requires NulsOnlyAtEnd(Concat(pieces))
    ensures Received(pieces) == CString(Concat(pieces))
  {
    if pieces != [] {
      var a, b := pieces[0], Concat(pieces[1..]);
      assert b == (a + b)[|a|..];
      assert forall i :: 0 <= i < |b| ==> b[i] == (a + b)[|a| + i];
      ReceivedIsCString(pieces[1..]);
      CStringPrefix(a, b);
      if NUL in a {
        var i :| 0 <= i < |a| && a[i] == NUL;
        assert (a + b)[i] == NUL;
        assert b != "" ==> b[0] == NUL;
        assert CString(b) == "";
      } else {
        assert CString(a) == a;
      }
    }
  }

  /** The buffer does not depend on how `recv` cut the stream exactly when every NUL is at the
      end of it. */
  lemma ReadIndependence(s: string)
    ensures (forall pieces :: Concat(pieces) == s ==> Received(pieces) == CString(s)) <==> NulsOnlyAtEnd(s)
  {
    if NulsOnlyAtEnd(s) {
      forall pieces | Concat(pieces) == s ensures Received(pieces) == CString(s) {
        ReceivedIsCString(pieces);
      }
    } else {
      var i, j :| 0 <= i < j < |s| && s[i] == NUL && s[j] != NUL;
      var a, b := s[..j], s[j..];
      assert a + b == s && a[i] == NUL;
      ConcatTwo(a, b);
      CStringPrefix(a, b);
      ReceivedTwo(a, b);
    }
  }

  lemma ReceivedTwo(a: string, b: string)
    ensures Received([a, b]) == CString(a) + CString(b)
  {
    assert [a, b][1..] == [b];
    assert Received([b]) == CString(b) + Received([b][1..]);
  }
}
