/** Printing a login request and parsing it back. */
module LoginForm {
  import opened Text
  import opened Request

  const USER := "user="
  const PASSWORD := "&password="

  /** `parse_post_data`. */
  function ParsePostData(post: string): Option<(string, string)> {
    var userPos := Find(post, USER, 0);
    var pwdPos := Find(post, PASSWORD, 0);
    if userPos.None? || pwdPos.None? then None
    else
      // substr throws past the end; its length argument wraps, and then means "to the end"
      var from := userPos.value + 5;
      var user := if pwdPos.value < from then post[from..] else post[from..pwdPos.value];
      Some((user, post[pwdPos.value + 10..]))
  }

  function Form(user: string, password: string): string {
    USER + user + PASSWORD + password
  }

  /** A separator whose first byte occurs nowhere else in it has no self-overlap. */
  ghost predicate NoSelfOverlap(sep: string) {
    sep != "" && forall k :: 0 < k < |sep| ==> sep[k] != sep[0]
  }

  /** The first occurrence of such a separator is either the one that was printed or one that
      lies entirely inside the text before it. */
  lemma SeparatorPosition(pre: string, user: string, sep: string, rest: string)
    requires NoSelfOverlap(sep) && sep[0] !in pre
    ensures Find(pre + user + sep + rest, sep, 0) ==
            match Find(user, sep, 0)
            case None => Some(|pre| + |user|)
            case Some(i) => Some(|pre| + i)
  {
    var post := pre + user + sep + rest;
    FindMeaning(user, sep, 0);
    var inUser := Find(user, sep, 0);
    var at := if inUser.Some? then |pre| + inUser.value else |pre| + |user|;
    if inUser.Some? {
      assert post[at..at + |sep|] == user[inUser.value..inUser.value + |sep|];
    } else {
      assert post[at..at + |sep|] == sep;
    }
    forall j: nat | j < at ensures !MatchAt(post, sep, j) {
      NotBefore(pre, user, sep, rest, j);
    }
    FindIs(post, sep, 0, at);
  }

  lemma NotBefore(pre: string, user: string, sep: string, rest: string, j: nat)
    requires NoSelfOverlap(sep) && sep[0] !in pre
    requires j < |pre| + |user|
    requires j < |pre| || !MatchAt(user, sep, j - |pre|)
    ensures !MatchAt(pre + user + sep + rest, sep, j)
  {
    var post := pre + user + sep + rest;
    var at := |pre| + |user|;
    if j + |sep| <= |post| {
      if j < |pre| {
        assert post[j..j + |sep|][0] == pre[j];
      } else if j + |sep| <= at {
        assert post[j..j + |sep|] == user[j - |pre|..j - |pre| + |sep|];
      } else {
        assert post[j..j + |sep|][at - j] == post[at] == sep[0];
      }
    }
  }

  lemma UserPosition(user: string, password: string)
    ensures Find(Form(user, password), USER, 0) == Some(0)
  {
    assert Form(user, password)[0..5] == USER;
  }

  /** The form comes back as it was written exactly when the separator is not part of the user
      name; the password is unrestricted. */
  lemma FormRoundTrip(user: string, password: string)
    ensures ParsePostData(Form(user, password)) == Some((user, password))
            <==> !Contains(user, PASSWORD)
  {
    var post := Form(user, password);
    UserPosition(user, password);
    SeparatorPosition(USER, user, PASSWORD, password);
    var found := Find(user, PASSWORD, 0);
    if found.None? {
      assert post[5..5 + |user|] == user && post[5 + |user| + 10..] == password;
    } else {
      assert |post[5..5 + found.value]| < |user|;
    }
  }

  /** The two names may stand anywhere: what counts is where each is found first. */
  lemma FormAnywhere(pre: string, user: string, password: string)
    requires var post := pre + USER + user + PASSWORD + password;
             Find(post, USER, 0) == Some(|pre|) && Find(post, PASSWORD, 0) == Some(|pre| + 5 + |user|)
    ensures ParsePostData(pre + USER + user + PASSWORD + password) == Some((user, password))
  {
    var post := pre + USER + user + PASSWORD + password;
    SecondOfFour(pre + USER, user, PASSWORD, password);
    assert post[|pre| + 5..|pre| + 5 + |user|] == user;
    assert post[|pre| + 5 + |user| + 10..] == password;
  }

  /** A form that begins with the password: `substr` gets a length that wraps around, so the user is
      everything behind `user=`, and the password everything behind its own name. */
  lemma SwappedForm(rest: string)
    ensures var post := PASSWORD + rest;
            match Find(post, USER, 0)
            case None => ParsePostData(post) == None
            case Some(at) => ParsePostData(post) == Some((post[at + 5..], rest))
  {
    var post := PASSWORD + rest;
    assert post[0..10] == PASSWORD && post[10..] == rest;
    FindMeaning(post, PASSWORD, 0);
    assert MatchAt(post, PASSWORD, 0);
  }

  // ---------------------------------------------------------------- request lines

  /** The three parts of a request line. */
  datatype Target = Target(verb: string, url: string, version: string)

  predicate Proper(t: Target) {
    Token(t.verb) && Token(t.url) && Token(t.version)
  }

  function TargetLine(t: Target): string {
    Line(t.verb, t.url, t.version)
  }

  predicate Token(s: string) {
    s != "" && NoSpace(s)
  }

  function Line(a: string, b: string, c: string): string {
    a + " " + b + " " + c
  }

  lemma FirstToken(a: string, b: string, c: string, field: string)
    requires Token(a)
    ensures Extract(Line(a, b, c), 0, field) == (a, |a|)
  {
    var pre := a[..0];
    assert Line(a, b, c) == pre + a + (" " + b + " " + c);
    ExtractToken(pre, a, " " + b + " " + c, 0, field);
  }

  lemma SecondToken(a: string, b: string, c: string, field: string)
    requires Token(b)
    ensures Extract(Line(a, b, c), |a|, field) == (b, |a| + 1 + |b|)
  {
    assert Line(a, b, c) == (a + " ") + b + (" " + c);
    ExtractToken(a + " ", b, " " + c, |a|, field);
  }

  lemma ThirdToken(a: string, b: string, c: string, field: string)
    requires Token(c)
    ensures Extract(Line(a, b, c), |a| + 1 + |b|, field) == (c, |Line(a, b, c)|)
  {
    var post := c[|c|..];
    assert Line(a, b, c) == (a + " " + b + " ") + c + post;
    ExtractToken(a + " " + b + " ", c, post, |a| + 1 + |b|, field);
  }

  /** The fields behind the request line of `t`. */
  function Addressed(f: Fields, t: Target): Fields {
    f.(verb := t.verb, url := t.url, version := t.version, checkState := Header)
  }

  lemma ParseRequestLine(t: Target, f: Fields)
    requires Proper(t) && f.checkState.RequestLine?
    ensures OnLine(f, TargetLine(t)) == Next(Addressed(f, t))
  {
    ThreeTokens(t, f);
  }

  lemma ThreeTokens(t: Target, f: Fields)
    requires Proper(t)
    ensures var (m, i) := Extract(TargetLine(t), 0, f.verb);
            var (u, j) := Extract(TargetLine(t), i, f.url);
            m == t.verb && u == t.url && Extract(TargetLine(t), j, f.version).0 == t.version
  {
    FirstToken(t.verb, t.url, t.version, f.verb);
    SecondToken(t.verb, t.url, t.version, f.url);
    ThirdToken(t.verb, t.url, t.version, f.version);
  }

  lemma NoReturnInLine(a: string, b: string, c: string)
    requires NoSpace(a) && NoSpace(b) && NoSpace(c)
    ensures '\r' !in Line(a, b, c)
  {
  }

  lemma LineIsLine(t: Target)
    requires Proper(t)
    ensures !Contains(TargetLine(t), CRLF)
  {
    NoReturnInLine(t.verb, t.url, t.version);
    NoCarriageReturn(TargetLine(t));
  }

  predicate Blank(s: string) {
    s != "" && AllSpace(s)
  }

  lemma TokenBehind(before: string, gap: string, token: string, rest: string, field: string)
    requires AllSpace(gap) && Token(token) && (rest == "" || IsSpace(rest[0]))
    ensures Extract(before + gap + token + rest, |before|, field) == (token, |before + gap + token|)
  {
    var pre := before + gap;
    assert forall k :: |before| <= k < |pre| ==> pre[k] == gap[k - |before|] && pre[k] in gap;
    ExtractToken(pre, token, rest, |before|, field);
  }

  /** Any white space before, between and behind the tokens, and anything behind the third. */
  lemma ParseLooseLine(
      t: Target, a: string, b: string, c: string, rest: string, line: string, f: Fields)
    requires Proper(t) && AllSpace(a) && Blank(b) && Blank(c) && (rest == "" || IsSpace(rest[0]))
    requires line == a + t.verb + b + t.url + c + t.version + rest && f.checkState.RequestLine?
    ensures OnLine(f, line) == Next(Addressed(f, t))
  {
    var none := a[..0];
    assert b[0] in b && c[0] in c;
    assert line == none + a + t.verb + (b + t.url + c + t.version + rest);
    TokenBehind(none, a, t.verb, b + t.url + c + t.version + rest, f.verb);
    assert line == (a + t.verb) + b + t.url + (c + t.version + rest);
    TokenBehind(a + t.verb, b, t.url, c + t.version + rest, f.url);
    assert line == (a + t.verb + b + t.url) + c + t.version + rest;
    TokenBehind(a + t.verb + b + t.url, c, t.version, rest, f.version);
    assert |none + a + t.verb| == |a + t.verb|;
  }

  /** Two tokens are enough: the version stays what it was. */
  lemma ParseTwoTokens(verb: string, url: string, a: string, b: string, c: string, line: string, f: Fields)
    requires Token(verb) && Token(url) && AllSpace(a) && Blank(b) && AllSpace(c)
    requires line == a + verb + b + url + c && f.checkState.RequestLine?
    ensures OnLine(f, line) == Next(f.(verb := verb, url := url, checkState := Header))
  {
    var none := a[..0];
    assert b[0] in b && (c != "" ==> c[0] in c);
    assert line == none + a + verb + (b + url + c);
    TokenBehind(none, a, verb, b + url + c, f.verb);
    assert line == (a + verb) + b + url + c;
    TokenBehind(a + verb, b, url, c, f.url);
    NoMoreTokens(a + verb + b + url, c, f.version);
    assert |none + a + verb| == |a + verb|;
  }

  lemma NoMoreTokens(pre: string, blanks: string, field: string)
    requires AllSpace(blanks)
    ensures Extract(pre + blanks, |pre|, field).0 == field
  {
    var line := pre + blanks;
    assert forall k :: |pre| <= k < |line| ==> line[k] == blanks[k - |pre|] && line[k] in blanks;
    assert SkipSpace(line, |pre|) == |line|;
  }

  /** A line with at most one token names no url: it is answered with 400. */
  lemma ParseShortLine(pre: string, token: string, post: string, f: Fields)
    requires AllSpace(pre) && NoSpace(token) && AllSpace(post)
    requires f.checkState.RequestLine? && f.verb == "" && f.url == ""
    ensures OnLine(f, pre + token + post).Stop? && OnLine(f, pre + token + post).outcome == Code(BadRequest)
  {
    var line := pre + token + post;
    if token == "" {
      assert AllSpace(line);
      assert SkipSpace(line, 0) == |line|;
    } else {
      assert forall k :: 0 <= k < |pre| ==> pre[k] in pre;
      assert post != "" ==> post[0] in post;
      ExtractToken(pre, token, post, 0, f.verb);
      assert forall k :: |pre| + |token| <= k < |line| ==> line[k] == post[k - |pre| - |token|] && line[k] in post;
      assert SkipSpace(line, |pre| + |token|) == |line|;
    }
  }

  // ---------------------------------------------------------------- header lines

  function LengthLine(n: nat): string {
    "Content-Length: " + ToDecimal(n)
  }

  const KEEP_ALIVE := "Connection: keep-alive"

  /** Any header line other than a length. */
  predicate HeaderLine(line: string) {
    line != "" && !Contains(line, CRLF) && !Contains(line, "Content-Length:")
  }

  /** A header line that asks the server to keep the connection. */
  predicate StayLine(line: string) {
    Contains(line, "Connection:") && Contains(line, "keep-alive")
  }

  predicate HeaderLines(hs: seq<string>) {
    forall i :: 0 <= i < |hs| ==> HeaderLine(hs[i])
  }

  predicate Stays(hs: seq<string>) {
    exists i :: 0 <= i < |hs| && StayLine(hs[i])
  }

  function HeaderText(hs: seq<string>): string {
    if hs == [] then "" else hs[0] + CRLF + HeaderText(hs[1..])
  }

  /** A header line changes nothing but the keep-alive flag, and that only by asking for it. */
  lemma ParseHeaderLine(f: Fields, line: string)
    requires HeaderLine(line)
    ensures OnHeaderLine(f, line) == Next(f.(keepAlive := f.keepAlive || StayLine(line)))
  {
  }

  /** A line without `Connection:` or without `keep-alive` leaves every field alone: other headers, and
      `Connection: close`. */
  lemma ParseOtherLine(f: Fields, line: string)
    requires HeaderLine(line) && (!Contains(line, "Connection:") || !Contains(line, "keep-alive"))
    ensures OnHeaderLine(f, line) == Next(f)
  {
  }

  /** `Connection: close` leaves the flag alone. */
  lemma ParseCloseLine(f: Fields, line: string)
    requires line == "Connection: close"
    ensures OnHeaderLine(f, line) == Next(f)
  {
    PlainLine(f, line);
  }

  /** What a browser sends with a form is no length. */
  lemma ParseFormType(f: Fields, line: string)
    requires line == "Content-Type: " + "application/x-www-form-urlencoded"
    ensures OnHeaderLine(f, line) == Next(f)
  {
    PlainLine(f, line);
  }

  /** No `Content-Length:` without its L, no `keep-alive` without its v. */
  lemma PlainLine(f: Fields, line: string)
    requires line != "" && 'L' !in line && 'v' !in line
    ensures OnHeaderLine(f, line) == Next(f)
  {
    ByteAbsent(line, "Content-Length:", 8);
    ByteAbsent(line, "keep-alive", 8);
  }

  lemma ParseKeepAliveLine(f: Fields)
    ensures OnHeaderLine(f, KEEP_ALIVE) == Next(f.(keepAlive := true))
  {
    var line := KEEP_ALIVE;
    var a, b, c := "Connection:", "keep-alive", "Content-Length:";
    assert line[0..11] == a && line[12..22] == b && c[8] !in line;
    FindMeaning(line, a, 0);
    FindMeaning(line, b, 0);
    assert MatchAt(line, a, 0) && MatchAt(line, b, 12);
    ByteAbsent(line, c, 8);
  }

  /** The announced length is understood if and only if it fits an `int`. */
  lemma ParseLengthLine(f: Fields, n: nat)
    ensures OnHeaderLine(f, LengthLine(n)) ==
            if n <= INT_MAX then Next(f.(contentLength := n)) else Stop(Threw, f)
  {
    var line := LengthLine(n);
    var c, k := "Content-Length:", "keep-alive";
    assert line[0..15] == c && line[15..] == " " + ToDecimal(n);
    FindMeaning(line, c, 0);
    assert MatchAt(line, c, 0);
    assert k[0] !in line by {
      assert 'k' !in "Content-Length: ";
    }
    ByteAbsent(line, k, 0);
    StoiOfDecimal(n);
  }

  /** Any other length text: what `stoi` makes of it, with a negative number wrapping around in the
      64 bits of `size_t`. */
  lemma ParseLengthText(f: Fields, line: string, word: string)
    requires line == "Content-Length:" + word && !StayLine(line)
    ensures OnHeaderLine(f, line) ==
            match Stoi(word)
            case None => Stop(Threw, f)
            case Some(v) => Next(f.(contentLength := if v < 0 then v + 18446744073709551616 else v))
  {
    var c := "Content-Length:";
    assert line[0..15] == c && line[15..] == word;
    FindMeaning(line, c, 0);
    assert MatchAt(line, c, 0);
  }

  // ---------------------------------------------------------------- reading lines

  /** One line of the head, read from where the previous one ended. */
  lemma HeadStep(p: Parser, pre: string, line: string, rest: string)
    requires !p.f.checkState.Content? && !Contains(line, CRLF)
    requires p.readBuf == pre + (line + CRLF + rest) && p.checkedIdx == |pre|
    ensures |pre| + |line| + 2 <= |p.readBuf|
    ensures Head(p) == AfterLine(p, |pre| + |line|, OnLine(p.f, line))
  {
    RegroupLine(pre, line, rest);
    FreeLineAt(pre, line, rest);
    HeadUnfold(p, |pre| + |line|, line);
  }

  lemma RegroupLine(pre: string, line: string, rest: string)
    ensures pre + (line + CRLF + rest) == pre + line + CRLF + rest
    ensures pre + (line + CRLF + rest) == (pre + line + CRLF) + rest
  {
  }

  lemma SecondOfFour(a: string, b: string, c: string, d: string)
    ensures (a + b + c + d)[|a|..|a| + |b|] == b
  {
  }

  lemma FreeLineAt(pre: string, line: string, rest: string)
    requires !Contains(line, CRLF)
    ensures var s := pre + line + CRLF + rest;
            && Find(s, CRLF, |pre|) == Some(|pre| + |line|)
            && s[|pre|..|pre| + |line|] == line
  {
    FindLineEnd(pre, line, rest);
    SecondOfFour(pre, line, CRLF, rest);
  }

  lemma HeadPast(p: Parser, at: nat, line: string, f: Fields)
    requires !p.f.checkState.Content? && Find(p.readBuf, CRLF, p.checkedIdx) == Some(at)
    requires p.readBuf[p.checkedIdx..at] == line && OnLine(p.f, line) == Next(f) && !f.checkState.Content?
    ensures Head(p) == Head(PastLine(p, at, f))
  {
    HeadUnfold(p, at, line);
  }

  /** A line that does not end the head: reading goes on behind it. */
  lemma HeadNext(p: Parser, pre: string, line: string, rest: string, f: Fields) returns (q: Parser)
    requires !p.f.checkState.Content? && !Contains(line, CRLF) && p.checkedIdx == |pre|
    requires p.readBuf == pre + (line + CRLF + rest)
    requires OnLine(p.f, line) == Next(f) && !f.checkState.Content?
    ensures q.readBuf == p.readBuf == (pre + line + CRLF) + rest && q.checkedIdx == |pre + line + CRLF| && q.f == f
    ensures Head(p) == Head(q)
  {
    RegroupLine(pre, line, rest);
    FreeLineAt(pre, line, rest);
    HeadPast(p, |pre| + |line|, line, f);
    q := PastLine(p, |pre| + |line|, f);
  }

  lemma HeadOfTarget(p: Parser, pre: string, t: Target, rest: string) returns (q: Parser)
    requires Proper(t) && p.f.checkState.RequestLine? && p.checkedIdx == |pre|
    requires p.readBuf == pre + (TargetLine(t) + CRLF + rest)
    ensures q.readBuf == p.readBuf == (pre + TargetLine(t) + CRLF) + rest
    ensures q.checkedIdx == |pre + TargetLine(t) + CRLF| && q.f == Addressed(p.f, t)
    ensures Head(p) == Head(q)
  {
    LineIsLine(t);
    ParseRequestLine(t, p.f);
    q := HeadNext(p, pre, TargetLine(t), rest, Addressed(p.f, t));
  }

  /** Any list of header lines: the flag is set if one of them asks for it, and nothing else changes. */
  lemma {:induction false} HeadOfHeaders(p: Parser, pre: string, hs: seq<string>, rest: string) returns (q: Parser)
    requires p.f.checkState.Header? && p.checkedIdx == |pre| && HeaderLines(hs)
    requires p.readBuf == pre + (HeaderText(hs) + rest)
    ensures q.readBuf == p.readBuf == (pre + HeaderText(hs)) + rest && q.checkedIdx == |pre + HeaderText(hs)|
    ensures q.f == p.f.(keepAlive := p.f.keepAlive || Stays(hs))
    ensures Head(p) == Head(q)
    decreases |hs|
  {
    Regroup(pre, HeaderText(hs), rest);
    if hs == [] {
      assert pre + HeaderText(hs) == pre;
      q := p;
    } else {
      var line, more := hs[0], HeaderText(hs[1..]);
      var f := p.f.(keepAlive := p.f.keepAlive || StayLine(line));
      assert HeaderLine(line);
      ParseHeaderLine(p.f, line);
      Regroup(line + CRLF, more, rest);
      q := HeadNext(p, pre, line, more + rest, f);
      q := HeadOfHeaders(q, pre + line + CRLF, hs[1..], rest);
      FourParts(pre, line, CRLF, more);
      StaysCons(hs);
    }
  }

  lemma StaysCons(hs: seq<string>)
    requires hs != []
    ensures Stays(hs) <==> StayLine(hs[0]) || Stays(hs[1..])
  {
    if Stays(hs) && !StayLine(hs[0]) {
      var i :| 0 <= i < |hs| && StayLine(hs[i]);
      assert StayLine(hs[1..][i - 1]);
    }
    if Stays(hs[1..]) {
      var i :| 0 <= i < |hs[1..]| && StayLine(hs[1..][i]);
      assert StayLine(hs[i + 1]);
    }
  }

  lemma {:induction false} StaysAppend(a: seq<string>, b: seq<string>)
    ensures Stays(a + b) <==> Stays(a) || Stays(b)
    decreases |a|
  {
    if a == [] {
      assert a + b == b;
    } else {
      assert (a + b)[1..] == a[1..] + b;
      StaysCons(a);
      StaysCons(a + b);
      StaysAppend(a[1..], b);
    }
  }

  /** The blank line, read as a line. */
  lemma HeadOfBlank(p: Parser, pre: string, rest: string)
    requires p.f.checkState.Header? && p.checkedIdx == |pre| && p.readBuf == pre + (CRLF + rest)
    ensures |pre| + 2 == |p.readBuf| - |rest|
    ensures Head(p) ==
            if p.f.contentLength == 0 then Done(Code(GetRequest), ParserState(p.readBuf, |pre| + 2, p.f))
            else Body(ParserState(p.readBuf, |pre| + 2, p.f.(checkState := Content)))
  {
    var line := pre[..0];
    assert line + CRLF + rest == CRLF + rest;
    NoCarriageReturn(line);
    HeadStep(p, pre, line, rest);
  }

  // ---------------------------------------------------------------- a request with a body

  function LengthTail(behind: seq<string>, body: string): string {
    LengthLine(|body|) + CRLF + (HeaderText(behind) + (CRLF + body))
  }

  /** A request with an exact length and any other header lines in front of it and behind it. */
  function Print(t: Target, before: seq<string>, behind: seq<string>, body: string): string {
    TargetLine(t) + CRLF + (HeaderText(before) + LengthTail(behind, body))
  }

  /** The fields a printed request leaves behind at its blank line. */
  function Headed(f: Fields, t: Target, before: seq<string>, behind: seq<string>): Fields {
    Addressed(f, t).(keepAlive := Stays(before + behind))
  }

  /** The head ends in front of `body` with the fields `f`, or throws because the length does not fit. */
  predicate Delivers(p: Parser, f: Fields, body: string)
    requires !p.f.checkState.Content?
  {
    if |body| <= INT_MAX then
      && |body| + 2 <= |p.readBuf|
      && Head(p) == Body(ParserState(p.readBuf, |p.readBuf| - |body|,
                                     f.(contentLength := |body|, checkState := Content)))
    else Head(p).Done? && Head(p).outcome == Threw
  }

  lemma LengthIsLine(n: nat)
    ensures !Contains(LengthLine(n), CRLF)
  {
    assert '\r' !in "Content-Length: " && '\r' !in ToDecimal(n);
    NoCarriageReturn(LengthLine(n));
  }

  lemma HeadOfLength(p: Parser, pre: string, behind: seq<string>, body: string)
    requires p.f.checkState.Header? && p.checkedIdx == |pre| && body != "" && HeaderLines(behind)
    requires p.readBuf == pre + LengthTail(behind, body)
    ensures Delivers(p, p.f.(keepAlive := p.f.keepAlive || Stays(behind)), body)
  {
    var line, tail := LengthLine(|body|), HeaderText(behind) + (CRLF + body);
    LengthIsLine(|body|);
    ParseLengthLine(p.f, |body|);
    if |body| <= INT_MAX {
      var f := p.f.(contentLength := |body|);
      var q := HeadNext(p, pre, line, tail, f);
      HeadBehindLength(q, pre + line + CRLF, behind, body);
    } else {
      HeadStep(p, pre, line, tail);
    }
  }

  lemma HeadBehindLength(p: Parser, pre: string, behind: seq<string>, body: string)
    requires p.f.checkState.Header? && p.checkedIdx == |pre| && HeaderLines(behind)
    requires p.f.contentLength == |body| > 0 && p.readBuf == pre + (HeaderText(behind) + (CRLF + body))
    ensures |body| + 2 <= |p.readBuf|
    ensures Head(p) == Body(ParserState(p.readBuf, |p.readBuf| - |body|,
                              p.f.(keepAlive := p.f.keepAlive || Stays(behind), checkState := Content)))
  {
    var q := HeadOfHeaders(p, pre, behind, CRLF + body);
    HeadOfBlank(q, pre + HeaderText(behind), body);
  }

  /** The printed request is read back field by field, up to the start of its body. */
  lemma HeadOfRequest(p: Parser, pre: string, t: Target, before: seq<string>, behind: seq<string>, body: string)
    requires Proper(t) && HeaderLines(before) && HeaderLines(behind) && body != ""
    requires p.f.checkState.RequestLine? && !p.f.keepAlive && p.checkedIdx == |pre|
    requires p.readBuf == pre + Print(t, before, behind, body)
    ensures Delivers(p, Headed(p.f, t, before, behind), body)
  {
    var q := HeadOfTarget(p, pre, t, HeaderText(before) + LengthTail(behind, body));
    var pre1 := pre + TargetLine(t) + CRLF;
    q := HeadOfHeaders(q, pre1, before, LengthTail(behind, body));
    HeadOfLength(q, pre1 + HeaderText(before), behind, body);
    StaysAppend(before, behind);
  }

  predicate EndsWith(s: string, body: string) {
    |body| <= |s| && s[|s| - |body|..] == body
  }

  lemma PrintEndsWithBody(pre: string, t: Target, before: seq<string>, behind: seq<string>, body: string)
    ensures EndsWith(pre + Print(t, before, behind, body), body)
  {
    TailEndsWithBody(behind, body);
    Prepended(pre, TargetLine(t) + CRLF, HeaderText(before), LengthTail(behind, body), body);
  }

  lemma TailEndsWithBody(behind: seq<string>, body: string)
    ensures EndsWith(LengthTail(behind, body), body)
  {
    Prepended(LengthLine(|body|) + CRLF, HeaderText(behind), CRLF, body, body);
  }

  lemma Prepended(a: string, b: string, c: string, tail: string, body: string)
    requires EndsWith(tail, body)
    ensures EndsWith(a + (b + (c + tail)), body)
  {
    PrependedOne(c, tail, body);
    PrependedOne(b, c + tail, body);
    PrependedOne(a, b + (c + tail), body);
  }

  lemma PrependedOne(before: string, tail: string, body: string)
    requires EndsWith(tail, body)
    ensures EndsWith(before + tail, body)
  {
  }

  lemma BodyOfRequest(q: Parser, body: string)
    requires q.f.checkState.Content? && q.f.contentLength == |body| > 0
    requires q.checkedIdx == |q.readBuf| - |body| && q.readBuf[q.checkedIdx..] == body
    ensures var r := BodyCall(q);
            && (r.0 == Code(GetRequest) && r.1.f.postData == body <==> !Contains(body, CRLF))
            && (r.0 == Code(NoRequest) <==> Contains(body, CRLF))
            && r.1.f == q.f.(postData := r.1.f.postData)
  {
    var q0 := q.(readBuf := q.readBuf[..q.checkedIdx]);
    assert Add(q0, body) == q;
    ExactBody(q0, body);
  }

  lemma BodyBehindHead(p: Parser, f: Fields, body: string)
    requires !p.f.checkState.Content? && body != "" && |body| <= INT_MAX && Delivers(p, f, body)
    requires EndsWith(p.readBuf, body)
    ensures var r := Parse(p);
            && (r.0 == Code(GetRequest) && r.1.f.postData == body <==> !Contains(body, CRLF))
            && (r.0 == Code(NoRequest) <==> Contains(body, CRLF))
            && r.1.f == f.(contentLength := |body|, checkState := Content, postData := r.1.f.postData)
  {
    ParseBody(p, Head(p).p);
    BodyOfRequest(Head(p).p, body);
  }

  /** Any body behind a printed head, whatever other headers there are: delivered whole, or never. */
  lemma ParsePrinted(p: Parser, pre: string, t: Target, before: seq<string>, behind: seq<string>, body: string)
    requires Proper(t) && HeaderLines(before) && HeaderLines(behind) && body != ""
    requires p.f.checkState.RequestLine? && !p.f.keepAlive && p.readBuf == pre && p.checkedIdx == |pre|
    ensures var (o, q) := Parse(Add(p, Print(t, before, behind, body)));
            && (o == Code(GetRequest) ==> q.f.postData == body && Reads(q.f, t, Stays(before + behind)))
            && (o == Code(GetRequest) <==> |body| <= INT_MAX && !Contains(body, CRLF))
  {
    var whole := Add(p, Print(t, before, behind, body));
    HeadOfRequest(whole, pre, t, before, behind, body);
    PrintEndsWithBody(pre, t, before, behind, body);
    if |body| <= INT_MAX {
      BodyBehindHead(whole, Headed(p.f, t, before, behind), body);
    } else {
      assert Parse(whole) == AfterHead(Head(whole));
    }
  }

  /** Method, url and version of `t`, and the keep-alive flag. */
  predicate Reads(f: Fields, t: Target, keepAlive: bool) {
    f.verb == t.verb && f.url == t.url && f.version == t.version && f.keepAlive == keepAlive
  }

  // ---------------------------------------------------------------- a login

  /** A pattern inside a part is a pattern of the whole. */
  lemma ContainsInside(pre: string, part: string, post: string, pat: string)
    requires Contains(part, pat)
    ensures Contains(pre + part + post, pat)
  {
    var s := pre + part + post;
    FindMeaning(part, pat, 0);
    FindMeaning(s, pat, 0);
    var i := Find(part, pat, 0).value;
    assert s[|pre| + i..|pre| + i + |pat|] == part[i..i + |pat|];
    assert MatchAt(s, pat, |pre| + i);
  }

  lemma FormHasCrlf(user: string, password: string)
    ensures Contains(Form(user, password), CRLF) <==> Contains(user, CRLF) || Contains(password, CRLF)
  {
    var post := Form(user, password);
    if Contains(user, CRLF) {
      ContainsInside(USER, user, PASSWORD + password, CRLF);
      assert USER + user + (PASSWORD + password) == post;
    } else if Contains(password, CRLF) {
      ContainsInside(USER + user + PASSWORD, password, "", CRLF);
      assert USER + user + PASSWORD + password + "" == post;
    } else {
      FindMeaning(user, CRLF, 0);
      FindMeaning(password, CRLF, 0);
      forall j: nat ensures !MatchAt(post, CRLF, j) {
        CrlfInPart(user, password, j);
      }
      FindNone(post, CRLF, 0);
    }
  }

  lemma CrlfInPart(user: string, password: string, j: nat)
    ensures MatchAt(Form(user, password), CRLF, j) ==>
              || (j >= 5 && MatchAt(user, CRLF, j - 5))
              || (j >= 15 + |user| && MatchAt(password, CRLF, j - 15 - |user|))
  {
    var post := Form(user, password);
    if j + 2 <= |post| {
      assert post[j..j + 2][0] == post[j] && post[j..j + 2][1] == post[j + 1];
      if j < 5 {
        assert post[j] == USER[j];
      } else if j + 2 <= 5 + |user| {
        assert post[j..j + 2] == user[j - 5..j - 5 + 2];
      } else if j + 1 == 5 + |user| {
        assert post[j + 1] == PASSWORD[0];
      } else if j < 15 + |user| {
        assert post[j] == PASSWORD[j - 5 - |user|];
      } else {
        assert post[j..j + 2] == password[j - 15 - |user|..j - 15 - |user| + 2];
      }
    }
  }

  /** Which logins can be understood at all. */
  predicate Sayable(user: string, password: string) {
    && |Form(user, password)| <= INT_MAX
    && !Contains(user, CRLF) && !Contains(password, CRLF) && !Contains(user, PASSWORD)
  }

  /** A printed login request, with any other headers, is understood, field for field and byte for
      byte, if and only if its form fits an `int` length, neither part holds a CRLF and the user name
      does not hold the separator. */
  lemma LoginRoundTrip(
      p: Parser, t: Target, before: seq<string>, behind: seq<string>, user: string, password: string)
    requires p == Fresh() && Proper(t) && HeaderLines(before) && HeaderLines(behind)
    ensures var (o, q) := Parse(Add(p, Print(t, before, behind, Form(user, password))));
            (&& o == Code(GetRequest) && Reads(q.f, t, Stays(before + behind))
             && ParsePostData(q.f.postData) == Some((user, password)))
            <==> Sayable(user, password)
  {
    ParsePrinted(p, "", t, before, behind, Form(user, password));
    FormHasCrlf(user, password);
    FormRoundTrip(user, password);
  }

  /** The login round trip however TCP cuts the request: the same condition, for every list of
      chunks. */
  lemma LoginAnyChunks(
      p: Parser, t: Target, before: seq<string>, behind: seq<string>, user: string, password: string,
      chunks: seq<string>)
    requires p == Fresh() && Proper(t) && HeaderLines(before) && HeaderLines(behind)
    requires Concat(chunks) == Print(t, before, behind, Form(user, password))
    ensures var (o, q) := Feed(p, chunks);
            (&& o == Code(GetRequest) && Reads(q.f, t, Stays(before + behind))
             && ParsePostData(q.f.postData) == Some((user, password)))
            <==> Sayable(user, password)
  {
    LoginRoundTrip(p, t, before, behind, user, password);
    PrintedIsStable(p, "", t, before, behind, Form(user, password));
    NoLineYet(p);
    FeedAgrees(p, chunks);
  }

  /** Any body, however the request is cut. */
  lemma BodyAnyChunks(
      p: Parser, t: Target, before: seq<string>, behind: seq<string>, body: string, chunks: seq<string>)
    requires p == Fresh() && Proper(t) && HeaderLines(before) && HeaderLines(behind)
    requires 0 < |body| <= INT_MAX && !Contains(body, CRLF)
    requires Concat(chunks) == Print(t, before, behind, body)
    ensures var (o, q) := Feed(p, chunks);
            o == Code(GetRequest) && Reads(q.f, t, Stays(before + behind)) && q.f.postData == body
  {
    ParsePrinted(p, "", t, before, behind, body);
    PrintedIsStable(p, "", t, before, behind, body);
    NoLineYet(p);
    FeedAgrees(p, chunks);
  }

  lemma NoLineYet(p: Parser)
    requires p.readBuf == ""
    ensures Find(p.readBuf, CRLF, p.checkedIdx).None?
  {
  }

  lemma PrintedIsStable(p: Parser, pre: string, t: Target, before: seq<string>, behind: seq<string>, body: string)
    requires Proper(t) && HeaderLines(before) && HeaderLines(behind) && body != ""
    requires p.f.checkState.RequestLine? && !p.f.keepAlive && p.readBuf == pre && p.checkedIdx == |pre|
    ensures StableFrom(p, Print(t, before, behind, body))
  {
    var whole := Add(p, Print(t, before, behind, body));
    HeadOfRequest(whole, pre, t, before, behind, body);
    if |body| <= INT_MAX {
      ExactIsStable(Head(whole).p);
    }
  }

  /** A posted body without one of the two separators holds no login. */
  lemma NoForm(body: string)
    ensures ParsePostData(body).None? <==> !Contains(body, USER) || !Contains(body, PASSWORD)
  {
  }

  // ---------------------------------------------------------------- a request without a body

  /** A request that announces no length, with any headers, and whatever the client sends behind it. */
  function PrintBare(t: Target, hs: seq<string>, rest: string): string {
    TargetLine(t) + CRLF + (HeaderText(hs) + (CRLF + rest))
  }

  lemma HeadOfBare(p: Parser, pre: string, t: Target, hs: seq<string>, rest: string)
    requires Proper(t) && HeaderLines(hs) && p.checkedIdx == |pre|
    requires p.f.checkState.RequestLine? && p.f.contentLength == 0 && !p.f.keepAlive
    requires p.readBuf == pre + PrintBare(t, hs, rest)
    ensures Head(p).Done? && Head(p).outcome == Code(GetRequest)
    ensures Head(p).p.f == Addressed(p.f, t).(keepAlive := Stays(hs))
  {
    var q := HeadOfTarget(p, pre, t, HeaderText(hs) + (CRLF + rest));
    var pre1 := pre + TargetLine(t) + CRLF;
    q := HeadOfHeaders(q, pre1, hs, CRLF + rest);
    HeadOfBlank(q, pre1 + HeaderText(hs), rest);
  }

  /** A request without a length is complete with its blank line, whatever follows it, and every
      part of its request line is understood as it was printed. */
  lemma BareRoundTrip(p: Parser, t: Target, hs: seq<string>, rest: string)
    requires p == Fresh() && Proper(t) && HeaderLines(hs)
    ensures var (o, q) := Parse(Add(p, PrintBare(t, hs, rest)));
            o == Code(GetRequest) && q.f == Addressed(p.f, t).(keepAlive := Stays(hs))
  {
    BareFrom(p, "", t, hs, rest);
  }

  lemma BareFrom(p: Parser, pre: string, t: Target, hs: seq<string>, rest: string)
    requires Proper(t) && HeaderLines(hs) && p.readBuf == pre && p.checkedIdx == |pre|
    requires p.f.checkState.RequestLine? && p.f.contentLength == 0 && !p.f.keepAlive
    ensures var (o, q) := Parse(Add(p, PrintBare(t, hs, rest)));
            o == Code(GetRequest) && q.f == Addressed(p.f, t).(keepAlive := Stays(hs))
    ensures StableFrom(p, PrintBare(t, hs, rest))
  {
    var whole := Add(p, PrintBare(t, hs, rest));
    HeadOfBare(whole, pre, t, hs, rest);
    assert Parse(whole) == AfterHead(Head(whole));
  }

  /** A request without a length, however it is cut: what it reports is settled at its blank line. */
  lemma BareAnyChunks(p: Parser, t: Target, hs: seq<string>, rest: string, chunks: seq<string>)
    requires p == Fresh() && Proper(t) && HeaderLines(hs)
    requires Concat(chunks) == PrintBare(t, hs, rest)
    ensures var (o, q) := Feed(p, chunks);
            o == Code(GetRequest) && q.f == Addressed(p.f, t).(keepAlive := Stays(hs))
  {
    BareFrom(p, "", t, hs, rest);
    NoLineYet(p);
    FeedAgrees(p, chunks);
  }

  /** A first line with at most one token, whatever follows it, however it is cut. */
  lemma ShortAnyChunks(p: Parser, pre: string, token: string, post: string, rest: string, chunks: seq<string>)
    requires p == Fresh() && AllSpace(pre) && NoSpace(token) && AllSpace(post)
    requires !Contains(pre + token + post, CRLF)
    requires Concat(chunks) == pre + token + post + CRLF + rest
    ensures Feed(p, chunks).0 == Code(BadRequest)
  {
    ShortFrom(p, "", pre + token + post, rest, pre, token, post);
    NoLineYet(p);
    FeedAgrees(p, chunks);
  }

  lemma ShortFrom(
      p: Parser, start: string, line: string, rest: string, pre: string, token: string, post: string)
    requires p.readBuf == start && p.checkedIdx == |start| && line == pre + token + post
    requires AllSpace(pre) && NoSpace(token) && AllSpace(post) && !Contains(line, CRLF)
    requires p.f.checkState.RequestLine? && p.f.verb == "" && p.f.url == ""
    ensures StableFrom(p, line + CRLF + rest) && Parse(Add(p, line + CRLF + rest)).0 == Code(BadRequest)
  {
    var whole := Add(p, line + CRLF + rest);
    ParseShortLine(pre, token, post, p.f);
    HeadStep(whole, start, line, rest);
    assert Parse(whole) == AfterHead(Head(whole));
  }

  // ---------------------------------------------------------------- a length that is no number

  /** A request that announces `word` as its length, behind any other header lines. */
  function PrintLength(t: Target, before: seq<string>, word: string, rest: string): string {
    TargetLine(t) + CRLF + (HeaderText(before) + ("Content-Length: " + word + CRLF + rest))
  }

  /** A length that starts with neither white space nor a digit nor a sign. */
  lemma StoiOfWord(word: string)
    requires word != "" && !IsSpace(word[0]) && !IsDigit(word[0]) && word[0] != '-' && word[0] != '+'
    ensures Stoi(" " + word) == None
  {
    var s := " " + word;
    assert s[1] == word[0];
    assert SkipSpace(s, 0) == 1;
    assert DigitsEnd(s, 1) == 1;
  }

  lemma WordIsBad(line: string, word: string)
    requires line == "Content-Length: " + word && Stoi(" " + word).None?
    ensures BadLength(line)
  {
    assert line[0..15] == "Content-Length:" && line[15..] == " " + word;
    var c := "Content-Length:";
    FindMeaning(line, c, 0);
    assert MatchAt(line, c, 0);
  }

  /** A line end cannot reach back into a name without carriage return. */
  lemma NoCrlfBehind(name: string, word: string)
    requires '\r' !in name && !Contains(word, CRLF)
    ensures !Contains(name + word, CRLF)
  {
    var s := name + word;
    FindMeaning(word, CRLF, 0);
    forall j: nat ensures !MatchAt(s, CRLF, j) {
      if j < |name| {
        assert s[j] == name[j];
      } else if j + 2 <= |s| {
        assert s[j..j + 2] == word[j - |name|..j - |name| + 2];
        assert !MatchAt(word, CRLF, j - |name|);
      }
    }
    FindNone(s, CRLF, 0);
  }

  /** Every printed request whose length is a text that `stoi` rejects, behind the blank of the header
      line, makes the call that sees it throw. */
  lemma WordThrows(p: Parser, t: Target, before: seq<string>, word: string, rest: string)
    requires p == Fresh() && Proper(t) && HeaderLines(before)
    requires !Contains(word, CRLF) && Stoi(" " + word).None?
    ensures LengthRejected(Add(p, PrintLength(t, before, word, rest)))
  {
    WordFrom(p, "", t, before, word, rest);
  }

  lemma WordFrom(p: Parser, pre: string, t: Target, before: seq<string>, word: string, rest: string)
    requires Proper(t) && HeaderLines(before) && p.readBuf == pre && p.checkedIdx == |pre|
    requires p.f.checkState.RequestLine? && !Contains(word, CRLF) && Stoi(" " + word).None?
    ensures LengthRejected(Add(p, PrintLength(t, before, word, rest)))
  {
    var whole := Add(p, PrintLength(t, before, word, rest));
    var bad := "Content-Length: " + word;
    WordIsBad(bad, word);
    NoCrlfBehind("Content-Length: ", word);
    var q := HeadOfTarget(whole, pre, t, HeaderText(before) + (bad + CRLF + rest));
    var pre1 := pre + TargetLine(t) + CRLF;
    q := HeadOfHeaders(q, pre1, before, bad + CRLF + rest);
    HeadOfBad(q, pre1 + HeaderText(before), bad, rest);
    HeadThrows(whole);
  }

  lemma HeadOfBad(p: Parser, pre: string, bad: string, rest: string)
    requires p.f.checkState.Header? && p.checkedIdx == |pre| && p.readBuf == pre + (bad + CRLF + rest)
    requires BadLength(bad) && !Contains(bad, CRLF)
    ensures Head(p).Done? && Head(p).outcome == Threw
  {
    NotBlank(bad);
    HeadStep(p, pre, bad, rest);
  }

  lemma NotBlank(bad: string)
    requires BadLength(bad)
    ensures bad != ""
  {
  }

  /** However it is cut. */
  lemma WordThrowsAnyChunks(
      p: Parser, t: Target, before: seq<string>, word: string, rest: string, chunks: seq<string>)
    requires p == Fresh() && Proper(t) && HeaderLines(before)
    requires !Contains(word, CRLF) && Stoi(" " + word).None?
    requires Concat(chunks) == PrintLength(t, before, word, rest)
    ensures Feed(p, chunks).0 == Threw
  {
    WordThrows(p, t, before, word, rest);
    NoLineYet(p);
    FeedThrows(p, chunks);
    HeadThrows(Add(p, Concat(chunks)));
  }

  // ---------------------------------------------------------------- a stream that is not stable

  /** A printed request with body `a`, and behind it a line end and as many other bytes `b`: sent at
      once it is answered as if its body were `b`, with a cut behind `a` as if it were `a`. */
  lemma TwoAnswers(p: Parser, t: Target, before: seq<string>, behind: seq<string>, a: string, b: string)
    requires p == Fresh() && Proper(t) && HeaderLines(before) && HeaderLines(behind)
    requires 0 < |a| == |b| <= INT_MAX && a != b && !Contains(a, CRLF)
    ensures var first, second := Print(t, before, behind, a), CRLF + b;
            && Feed(p, [first + second]).0 == Code(GetRequest) && Feed(p, [first + second]).1.f.postData == b
            && Feed(p, [first, second]).0 == Code(GetRequest) && Feed(p, [first, second]).1.f.postData == a
            && !StableFrom(p, first + second)
  {
    TwoAnswersFrom(p, "", t, before, behind, a, b);
  }

  lemma TwoAnswersFrom(
      p: Parser, pre: string, t: Target, before: seq<string>, behind: seq<string>, a: string, b: string)
    requires p.f.checkState.RequestLine? && !p.f.keepAlive && p.readBuf == pre && p.checkedIdx == |pre|
    requires Proper(t) && HeaderLines(before) && HeaderLines(behind)
    requires 0 < |a| == |b| <= INT_MAX && a != b && !Contains(a, CRLF)
    ensures var first, second := Print(t, before, behind, a), CRLF + b;
            && Feed(p, [first + second]).0 == Code(GetRequest) && Feed(p, [first + second]).1.f.postData == b
            && Feed(p, [first, second]).0 == Code(GetRequest) && Feed(p, [first, second]).1.f.postData == a
            && !StableFrom(p, first + second)
  {
    var first, second := Print(t, before, behind, a), CRLF + b;
    var p1 := Add(p, first);
    HeadOfRequest(p1, pre, t, before, behind, a);
    PrintEndsWithBody(pre, t, before, behind, a);
    AnswersDiffer(p, first, second, a, b, Head(p1).p);
  }

  lemma AnswersDiffer(p: Parser, first: string, second: string, a: string, b: string, q: Parser)
    requires !p.f.checkState.Content? && Head(Add(p, first)) == Body(q) && second == CRLF + b
    requires q.f.checkState.Content? && q.readBuf[q.checkedIdx..] == a && |a| == |b| == q.f.contentLength
    requires a != b && !Contains(a, CRLF)
    ensures Feed(p, [first + second]).0 == Code(GetRequest) && Feed(p, [first + second]).1.f.postData == b
    ensures Feed(p, [first, second]).0 == Code(GetRequest) && Feed(p, [first, second]).1.f.postData == a
    ensures !StableFrom(p, first + second)
  {
    HeadAppend(Add(p, first), second);
    AddAdd(p, first, second);
    TwoReadings(q, a, b);
    ParseBody(Add(p, first), q);
    ParseBody(Add(p, first + second), Add(q, second));
    FeedOne(p, first + second);
    FeedStops(p, first, second);
    NotStable(p, first + second, Add(q, second));
  }

  lemma NotStable(p: Parser, s: string, q: Parser)
    requires !p.f.checkState.Content? && Head(Add(p, s)) == Body(q)
    requires q.f.checkState.Content? && !StableBody(q)
    ensures !StableFrom(p, s)
  {
  }

  lemma FeedStops(p: Parser, first: string, second: string)
    requires Parse(Add(p, first)).0 != Code(NoRequest)
    ensures Feed(p, [first, second]) == Parse(Add(p, first))
  {
  }

  /** A concrete stream of that kind, from a fresh connection. */
  lemma TwoBodies(p: Parser, first: string, second: string)
    requires p == Fresh()
    requires first == "POST / HTTP/1.1" + CRLF + ("Content-Length: 2" + CRLF + (CRLF + "ab")) && second == CRLF + "cd"
    ensures Feed(p, [first + second]).1.f.postData == "cd" && Feed(p, [first, second]).1.f.postData == "ab"
    ensures !StableFrom(p, first + second)
  {
    assert Line("POST", "/", "HTTP/1.1") == "POST / HTTP/1.1";
    assert LengthLine(2) == "Content-Length: 2";
    Instance(p, Target("POST", "/", "HTTP/1.1"), "ab", "cd", first, second);
  }

  lemma Instance(p: Parser, t: Target, a: string, b: string, first: string, second: string)
    requires p == Fresh() && Proper(t)
    requires 0 < |a| == |b| <= INT_MAX && a != b && '\r' !in a
    requires first == TargetLine(t) + CRLF + (LengthLine(|a|) + CRLF + (CRLF + a)) && second == CRLF + b
    ensures Feed(p, [first + second]).1.f.postData == b && Feed(p, [first, second]).1.f.postData == a
    ensures !StableFrom(p, first + second)
  {
    NoCarriageReturn(a);
    PrintAlone(t, a);
    TwoAnswers(p, t, [], [], a, b);
  }

  lemma PrintAlone(t: Target, body: string)
    ensures Print(t, [], [], body) == TargetLine(t) + CRLF + (LengthLine(|body|) + CRLF + (CRLF + body))
  {
    assert HeaderText([]) + (CRLF + body) == CRLF + body;
    assert HeaderText([]) + LengthTail([], body) == LengthTail([], body);
  }
}
