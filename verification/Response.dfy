/** The responses the server prints, and a client that reads them back from one connection. */
module Response {
  import opened Text

  datatype Response =
    | File(image: bool, keepAlive: bool, content: string) // serve_static_file
    | Error(code: nat, reason: string)                    // send_error
    | Login(page: string)                                 // send_login_response

  /** `m_keep_alive` after the response has been built: what `handle_write_` will do. */
  predicate KeepAlive(r: Response) {
    match r
    case File(_, keepAlive, _) => keepAlive
    case Error(_, _) => false
    case Login(_) => true
  }

  function BodyOf(r: Response): string {
    match r
    case File(_, _, content) => content
    case Error(code, reason) => "<html><body><h1>" + ToDecimal(code) + " " + reason + "</h1></body></html>"
    case Login(page) => page
  }

  const LENGTH := "Content-Length: "
  const CONNECTION := "Connection: "
  const TYPE := "Content-Type: "
  const HTML := "Content-Type: text/html; charset=utf-8"

  /** The lines of the header block, in the order each function writes them. */
  function HeadLines(r: Response): seq<string> {
    var length := LENGTH + ToDecimal(|BodyOf(r)|);
    match r
    case File(image, keepAlive, _) =>
      ["HTTP/1.1 200 OK", if image then "Content-Type: image/jpeg" else HTML,
       CONNECTION + if keepAlive then "keep-alive" else "close", length]
    case Error(code, reason) =>
      ["HTTP/1.1 " + ToDecimal(code) + " " + reason, HTML, length, CONNECTION + "close"]
    case Login(_) =>
      ["HTTP/1.1 200 OK", HTML, length, CONNECTION + "keep-alive"]
  }

  function JoinLines(lines: seq<string>): string {
    if lines == [] then "" else lines[0] + CRLF + JoinLines(lines[1..])
  }

  /** What ends up in front of the body: for a file this is all of `m_write_buf`. */
  function Header(r: Response): (h: string)
    ensures |h| >= 2
  {
    JoinLines(HeadLines(r)) + CRLF
  }

  function Bytes(r: Response): string {
    Header(r) + BodyOf(r)
  }

  /** The bytes of several responses on one connection. */
  function Wire(rs: seq<Response>): string {
    if rs == [] then "" else Bytes(rs[0]) + Wire(rs[1..])
  }

  // ---------------------------------------------------------------- the client

  /** The lines up to the first empty one, and the bytes behind it. */
  function ReadHead(s: string): (r: Option<(seq<string>, string)>)
    ensures r.Some? ==> |r.value.1| < |s|
    decreases |s|
  {
    match Find(s, CRLF, 0)
    case None => None
    case Some(at) =>
      if at == 0 then Some(([], s[2..]))
      else
        match ReadHead(s[at + 2..])
        case None => None
        case Some((lines, rest)) => Some(([s[..at]] + lines, rest))
  }

  predicate HasPrefix(line: string, name: string) {
    |name| <= |line| && line[..|name|] == name
  }

  function Field(lines: seq<string>, name: string): Option<string> {
    if lines == [] then None
    else if HasPrefix(lines[0], name) then Some(lines[0][|name|..])
    else Field(lines[1..], name)
  }

  /** A received response: its status line, its media type, its body, and whether the connection
      persists after it. */
  datatype Message = Message(status: string, mediaType: string, body: string, persists: bool)

  function FirstLine(lines: seq<string>): string {
    if lines == [] then "" else lines[0]
  }

  function TypeIn(lines: seq<string>): string {
    match Field(lines, TYPE)
    case None => ""
    case Some(t) => t
  }

  /** A client that frames by Content-Length (section 6.3 of RFC 9112) and takes an HTTP/1.1
      connection to persist unless it is told `close` (section 9.3 of RFC 9112). */
  function ClientRead(s: string): Option<seq<Message>>
    decreases |s|
  {
    if s == "" then Some([])
    else
      match ReadHead(s)
      case None => None
      case Some((lines, rest)) =>
        var n := Field(lines, LENGTH);
        if n.None? || n.value == "" || !AllDigits(n.value) || |rest| < DecimalValue(n.value) then None
        else
          var size := DecimalValue(n.value);
          var m := Message(FirstLine(lines), TypeIn(lines), rest[..size], Field(lines, CONNECTION) != Some("close"));
          match ClientRead(rest[size..])
          case None => None
          case Some(ms) => Some([m] + ms)
  }

  /** What a client makes of one response. */
  function MessageOf(r: Response): Message {
    match r
    case File(image, keepAlive, content) =>
      Message("HTTP/1.1 200 OK", if image then "image/jpeg" else "text/html; charset=utf-8", content, keepAlive)
    case Error(code, reason) =>
      var text := ToDecimal(code) + " " + reason;
      Message("HTTP/1.1 " + text, "text/html; charset=utf-8",
              "<html><body><h1>" + text + "</h1></body></html>", false)
    case Login(page) => Message("HTTP/1.1 200 OK", "text/html; charset=utf-8", page, true)
  }

  function Messages(rs: seq<Response>): seq<Message> {
    if rs == [] then [] else [MessageOf(rs[0])] + Messages(rs[1..])
  }

  // ---------------------------------------------------------------- the round trip

  /** Reason phrases the server uses contain no carriage return. */
  predicate Printable(r: Response) {
    r.Error? ==> '\r' !in r.reason
  }

  predicate LineLike(line: string) {
    line != "" && '\r' !in line
  }

  lemma {:induction false} ReadHeadOfLines(lines: seq<string>, rest: string)
    requires forall l :: l in lines ==> LineLike(l)
    ensures ReadHead(JoinLines(lines) + CRLF + rest) == Some((lines, rest))
  {
    var s := JoinLines(lines) + CRLF + rest;
    if lines == [] {
      assert s == CRLF + rest;
      assert s[0..2] == CRLF;
      FindIs(s, CRLF, 0, 0);
      assert s[2..] == rest;
    } else {
      var tail := JoinLines(lines[1..]) + CRLF + rest;
      assert s == lines[0][..0] + lines[0] + CRLF + tail;
      assert LineLike(lines[0]);
      NoCarriageReturn(lines[0]);
      FindLineEnd(lines[0][..0], lines[0], tail);
      assert s[|lines[0]| + 2..] == tail && s[..|lines[0]|] == lines[0];
      ReadHeadOfLines(lines[1..], rest);
      assert [lines[0]] + lines[1..] == lines;
    }
  }

  lemma HeadLinesAreLines(r: Response)
    requires Printable(r)
    ensures forall l :: l in HeadLines(r) ==> LineLike(l)
  {
    LengthIsLine(|BodyOf(r)|);
    FixedLines();
    match r
    case File(_, _, _) => FourLines(HeadLines(r));
    case Error(code, reason) =>
      StatusIsLine(code, reason);
      FourLines(HeadLines(r));
    case Login(_) => FourLines(HeadLines(r));
  }

  lemma FixedLines()
    ensures LineLike("HTTP/1.1 200 OK") && LineLike("Content-Type: image/jpeg") && LineLike(HTML)
    ensures LineLike(CONNECTION + "keep-alive") && LineLike(CONNECTION + "close")
  {
  }

  lemma LengthIsLine(n: nat)
    ensures LineLike(LENGTH + ToDecimal(n))
  {
    assert '\r' !in LENGTH && '\r' !in ToDecimal(n);
  }

  lemma StatusIsLine(code: nat, reason: string)
    requires '\r' !in reason
    ensures LineLike("HTTP/1.1 " + ToDecimal(code) + " " + reason)
  {
    assert '\r' !in "HTTP/1.1 " && '\r' !in ToDecimal(code) && '\r' !in " ";
  }

  lemma FourLines(ls: seq<string>)
    requires |ls| == 4 && LineLike(ls[0]) && LineLike(ls[1]) && LineLike(ls[2]) && LineLike(ls[3])
    ensures forall l :: l in ls ==> LineLike(l)
  {
  }

  /** The first line with the prefix, when none of the lines before it has it. */
  lemma {:induction false} FieldAt(lines: seq<string>, k: nat, name: string)
    requires k < |lines| && HasPrefix(lines[k], name)
    requires forall i :: 0 <= i < k ==> !HasPrefix(lines[i], name)
    ensures Field(lines, name) == Some(lines[k][|name|..])
  {
    if k > 0 {
      FieldAt(lines[1..], k - 1, name);
    }
  }

  lemma Differs(line: string, name: string, k: nat)
    requires k < |line| && k < |name| && line[k] != name[k]
    ensures !HasPrefix(line, name)
  {
  }

  /** The client finds the length that was printed for this body. */
  lemma LengthOfHead(r: Response)
    ensures Field(HeadLines(r), LENGTH) == Some(ToDecimal(|BodyOf(r)|))
  {
    var ls := HeadLines(r);
    var k := if r.File? then 3 else 2;
    assert ls[k] == LENGTH + ToDecimal(|BodyOf(r)|);
    Differs(ls[0], LENGTH, 0);
    Differs(ls[1], LENGTH, 8);
    if r.File? {
      Differs(ls[2], LENGTH, 3);
    }
    FieldAt(ls, k, LENGTH);
  }

  /** The client reads `close` exactly when the server will close the connection. */
  lemma ConnectionOfHead(r: Response)
    ensures Field(HeadLines(r), CONNECTION) == Some(if KeepAlive(r) then "keep-alive" else "close")
  {
    var ls := HeadLines(r);
    var k := if r.File? then 2 else 3;
    assert ls[k] == CONNECTION + if KeepAlive(r) then "keep-alive" else "close";
    Differs(ls[0], CONNECTION, 0);
    Differs(ls[1], CONNECTION, 3);
    if !r.File? {
      Differs(ls[2], CONNECTION, 3);
    }
    FieldAt(ls, k, CONNECTION);
  }

  lemma StatusOfHead(r: Response)
    ensures FirstLine(HeadLines(r)) == MessageOf(r).status
  {
    if r.Error? {
      FourParts("HTTP/1.1 ", ToDecimal(r.code), " ", r.reason);
    }
  }

  lemma ImageLine()
    ensures TYPE + "image/jpeg" == "Content-Type: image/jpeg"
  {
  }

  lemma PageLine()
    ensures TYPE + "text/html; charset=utf-8" == HTML
  {
  }

  lemma TypeOfHead(r: Response)
    ensures TypeIn(HeadLines(r)) == MessageOf(r).mediaType
  {
    var ls := HeadLines(r);
    ImageLine();
    PageLine();
    match r
    case File(image, _, _) => TypeAt(ls, if image then "image/jpeg" else "text/html; charset=utf-8");
    case Error(_, _) => TypeAt(ls, "text/html; charset=utf-8");
    case Login(_) => TypeAt(ls, "text/html; charset=utf-8");
  }

  lemma TypeAt(ls: seq<string>, t: string)
    requires |ls| == 4 && ls[1] == TYPE + t && ls[0] != "" && ls[0][0] == 'H'
    ensures TypeIn(ls) == t
  {
    Differs(ls[0], TYPE, 0);
    assert HasPrefix(ls[1], TYPE) && ls[1][|TYPE|..] == t;
    FieldAt(ls, 1, TYPE);
  }

  lemma BodyAndFlag(r: Response)
    ensures BodyOf(r) == MessageOf(r).body && KeepAlive(r) == MessageOf(r).persists
  {
    if r.Error? {
      Regroup("<html><body><h1>" + ToDecimal(r.code), " ", r.reason);
      var open, code, reason := "<html><body><h1>", ToDecimal(r.code), r.reason;
      FlatText(open, code, " ", reason, "</h1></body></html>");
    }
  }

  lemma FlatText(a: string, b: string, c: string, d: string, e: string)
    ensures a + b + c + d + e == a + (b + c + d) + e
  {
  }

  lemma HeadOfBytes(r: Response, tail: string)
    requires Printable(r)
    ensures ReadHead(Bytes(r) + tail) == Some((HeadLines(r), BodyOf(r) + tail))
  {
    HeadLinesAreLines(r);
    assert Bytes(r) + tail == JoinLines(HeadLines(r)) + CRLF + (BodyOf(r) + tail);
    ReadHeadOfLines(HeadLines(r), BodyOf(r) + tail);
  }

  /** The client cuts one response off the front of the stream. */
  lemma ReadOne(r: Response, tail: string)
    requires Printable(r)
    ensures ClientRead(Bytes(r) + tail) ==
            match ClientRead(tail)
            case None => None
            case Some(ms) => Some([MessageOf(r)] + ms)
  {
    HeadOfBytes(r, tail);
    LengthOfHead(r);
    ConnectionOfHead(r);
    StatusOfHead(r);
    TypeOfHead(r);
    BodyAndFlag(r);
    DecimalRoundTrip(|BodyOf(r)|);
    var rest := BodyOf(r) + tail;
    assert rest[|BodyOf(r)|..] == tail && rest[..|BodyOf(r)|] == BodyOf(r);
  }

  lemma ReadAlone(r: Response)
    requires Printable(r)
    ensures ClientRead(Bytes(r)) == Some([MessageOf(r)])
  {
    var tail, none: seq<Message> := "", [];
    assert Bytes(r) + tail == Bytes(r);
    assert ClientRead(tail) == Some(none);
    ReadOne(r, tail);
    assert [MessageOf(r)] + none == [MessageOf(r)];
  }

  /** Framing round trip: from the bytes of any list of responses the client recovers exactly
      their bodies, in order, and for each one whether the server keeps the connection. */
  lemma {:induction false} FramingRoundTrip(rs: seq<Response>)
    requires forall r :: r in rs ==> Printable(r)
    ensures ClientRead(Wire(rs)) == Some(Messages(rs))
  {
    if rs != [] {
      ReadOne(rs[0], Wire(rs[1..]));
      FramingRoundTrip(rs[1..]);
    }
  }

  lemma {:induction false} WireAppend(rs: seq<Response>, r: Response)
    ensures Wire(rs + [r]) == Wire(rs) + Bytes(r)
  {
    if rs == [] {
      assert [r][1..] == [];
      assert rs + [r] == [r];
      assert Wire([r]) == Bytes(r) + Wire([r][1..]);
    } else {
      assert (rs + [r])[1..] == rs[1..] + [r];
      WireAppend(rs[1..], r);
    }
  }
}
