/** What the lines of the client say to a reader: names, values and numbers come back out of them. */
module HttpTexts {
  import opened Wrappers
  import opened ChunkedCoding
  import opened HttpLayers
  import opened HttpNormalForm

  // ---- Decimal numbers ----

  predicate AllDigits(s: string) {
    forall i :: 0 <= i < |s| ==> '0' <= s[i] <= '9'
  }

  function DecimalValue(s: string): nat
    requires AllDigits(s)
  {
    if s == "" then 0 else 10 * DecimalValue(s[..|s| - 1]) + (s[|s| - 1] - '0') as nat
  }

  lemma {:induction false} DecimalOfNumeral(n: nat)
    ensures AllDigits(Numeral(n, 10)) && DecimalValue(Numeral(n, 10)) == n
  {
    if n >= 10 {
      DecimalOfNumeral(n / 10);
      var s := Numeral(n, 10);
      assert s[..|s| - 1] == Numeral(n / 10, 10);
    } else {
      assert Numeral(n, 10)[..0] == "";
    }
  }

  // ---- Lines ----

  /** The first place from `from` on where `c` stands, or the length. */
  function FirstAt(s: string, c: char, from: nat): (i: nat)
    requires from <= |s|
    ensures from <= i <= |s|
    decreases |s| - from
  {
    if from == |s| || s[from] == c then from else FirstAt(s, c, from + 1)
  }

  lemma {:induction false} FirstAtIs(s: string, c: char, from: nat, i: nat)
    requires from <= i < |s| && s[i] == c && c !in s[from..i]
    ensures FirstAt(s, c, from) == i
    decreases i - from
  {
    if from < i {
      assert s[from] == s[from..i][0];
      assert s[from + 1..i] == s[from..i][1..];
      FirstAtIs(s, c, from + 1, i);
    }
  }

  /** A header line: the name up to the first colon, one space, the value, the end of the line. */
  function ReadHeader(line: string): Option<Header> {
    var i := FirstAt(line, ':', 0);
    if i + 4 <= |line| && line[i + 1] == ' ' && line[|line| - 2..] == CRLF then
      Some((line[..i], line[i + 2..|line| - 2]))
    else None
  }

  lemma HeaderLineReadsBack(name: string, value: string)
    requires ':' !in name
    ensures ReadHeader(name + ": " + value + CRLF) == Some((name, value))
  {
    var line := name + ": " + value + CRLF;
    var n := |name|;
    assert line[n] == ':' && line[n + 1] == ' ' && line[0..n] == name;
    FirstAtIs(line, ':', 0, n);
    assert line[|line| - 2..] == CRLF;
    assert line[..n] == name && line[n + 2..|line| - 2] == value;
  }

  /** The client's header line gives the name and the value back, for every name without a colon. */
  lemma HeaderReadsBack(size: nat, env: Env, h: Header)
    requires ':' !in h.0
    ensures ReadHeader(ClientConf(size, env).text(SendHeader(h))) == Some(h)
  {
    HeaderLineReadsBack(h.0, h.1);
  }

  /** The content length line gives the number back. */
  lemma LengthReadsBack(size: nat, env: Env, len: nat) returns (value: string)
    ensures ReadHeader(ClientConf(size, env).text(SendContentLength(len))) == Some(("Content-Length", value))
    ensures AllDigits(value) && DecimalValue(value) == len
  {
    value := Numeral(len, 10);
    DecimalOfNumeral(len);
    LengthLineReadsBack(value);
  }

  lemma LengthLineReadsBack(value: string)
    ensures ReadHeader("Content-Length: " + value + CRLF) == Some(("Content-Length", value))
  {
    var name := "Content-Length";
    assert ':' !in name;
    HeaderLineReadsBack(name, value);
    assert name + ": " == "Content-Length: ";
  }

  /** The end of the header: the date line, one line that says whether the connection is kept, and an empty
      line. */
  lemma TrailerReadsBack(size: nat, env: Env) returns (line: string)
    ensures ClientConf(size, env).text(CompleteHeader) == env.date + line + CRLF
    ensures ReadHeader(line) == Some(("Connection", if env.keepAlive then "Keep-Alive" else "close"))
  {
    line := Connection(env.keepAlive);
    if env.keepAlive {
      HeaderLineReadsBack("Connection", "Keep-Alive");
      assert line == "Connection" + ": " + "Keep-Alive" + CRLF;
    } else {
      HeaderLineReadsBack("Connection", "close");
      assert line == "Connection" + ": " + "close" + CRLF;
    }
  }

  // ---- The status line ----

  const VERSION := "HTTP/1.1 "

  /** The number behind the version, and the text behind that up to the end of the line. */
  function ReadStatus(line: string): Option<(nat, string)> {
    if VERSION <= line && line[|line| - 2..] == CRLF then
      var i := FirstAt(line, ' ', |VERSION|);
      if i + 3 <= |line| && AllDigits(line[|VERSION|..i]) then
        Some((DecimalValue(line[|VERSION|..i]), line[i + 1..|line| - 2]))
      else None
    else None
  }

  /** The status line gives the status and its name back. */
  lemma StatusReadsBack(status: nat, name: string)
    ensures ReadStatus(StatusLine(status, name)) == Some((status, name))
  {
    var digits, line := Numeral(status, 10), StatusLine(status, name);
    DecimalOfNumeral(status);
    var n := |VERSION| + |digits|;
    assert line == VERSION + digits + " " + name + CRLF;
    assert line[..|VERSION|] == VERSION && line[|VERSION|..n] == digits && line[n] == ' ';
    FirstAtIs(line, ' ', |VERSION|, n);
    assert line[|line| - 2..] == CRLF && line[n + 1..|line| - 2] == name;
  }

  // ---- The message to go on ----

  const GO_ON := "HTTP/1.1 100 CONTINUE\r\n\r\n"

  lemma ContinueText(size: nat, env: Env)
    ensures ClientConf(size, env).text(Send100Continue) == GO_ON
  {
  }

  /** The request's sender is told to go on at once: from the first call on, the wire of every legal
      response with a 100 Continue begins with it, for every size of the buffer. */
  lemma ContinueIsOnTheWire(size: nat, env: Env, r: Response, cs: seq<Call>)
    requires Legal(r) && r.continue100 && cs != [] && cs <= CallsOf(r)
    ensures GO_ON <= OutAfter(ClientConf(size, env), cs).wire
  {
    ContinueText(size, env);
    ContinueComesFirst(ClientConf(size, env), r, cs);
  }

  lemma ContinueComesFirst(conf: Conf, r: Response, cs: seq<Call>)
    requires Legal(r) && r.continue100 && cs != [] && cs <= CallsOf(r)
    ensures conf.text(Send100Continue) <= OutAfter(conf, cs).wire
  {
    var first, start := [Send100Continue], Out("", "");
    assert CallsOf(r)[0] == Send100Continue;
    assert cs == first + cs[1..];
    FirstReachesClient();
    var more := BottomPrefix(first, cs[1..]);
    StackIsBottom(conf, cs);
    ClientRunAppend(conf, start, first, more);
    FlushesAtOnce(conf, start, Send100Continue);
    ClientRunFirst(conf, start, Send100Continue);
    WireGrows(conf, ClientRun(conf, start, first), more);
    assert All(start) + conf.text(Send100Continue) == conf.text(Send100Continue);
  }

  lemma ClientRunFirst(conf: Conf, o: Out, c: Call)
    ensures ClientRun(conf, o, [c]) == ClientStep(conf, o, c)
  {
    assert [c][..0] == [];
  }

  lemma FirstReachesClient()
    ensures Bottom([Send100Continue]) == [Send100Continue]
  {
    ReorderOne(FRESH.own, Send100Continue);
    ChunkOne(false, Send100Continue);
    ConLenOne(UNKNOWN, Send100Continue);
  }

  // ---- A flush ----

  lemma FlushReachesClient(cs: seq<Call>)
    ensures Bottom(cs + [Flush]) == Bottom(cs) + [Flush]
  {
    ReorderAllAppend(FRESH.own, cs, [Flush]);
    var (r, x) := ReorderAll(FRESH.own, cs);
    ReorderOne(r, Flush);
    ChunkAllAppend(false, x, [Flush]);
    var (e, y) := ChunkAll(false, x);
    ChunkOne(e, Flush);
    ConLenAllAppend(UNKNOWN, y, [Flush]);
    ConLenOne(ConLenAll(UNKNOWN, y).0, Flush);
  }

  /** A flush, at any moment and after any calls in any order, puts on the wire all that was held in the
      buffer. */
  lemma FlushAtAnyTime(conf: Conf, cs: seq<Call>)
    requires Plain(conf)
    ensures OutAfter(conf, cs + [Flush]) == Out(All(OutAfter(conf, cs)), "")
  {
    FlushReachesClient(cs);
    StackIsBottom(conf, cs);
    StackIsBottom(conf, cs + [Flush]);
    var o := ClientRun(conf, Out("", ""), Bottom(cs));
    ClientRunAppend(conf, Out("", ""), Bottom(cs), [Flush]);
    ClientRunFirst(conf, o, Flush);
    FlushesAtOnce(conf, o, Flush);
    assert All(o) + "" == All(o);
  }

  // ---- The head of a response ----

  /** What a framing call comes to: none without one, and no content length for a 204 or a 304. */
  function LineFor(status: int, framing: seq<Call>): seq<Call> {
    if framing == [] || (framing[0].SendContentLength? && (status == 204 || status == 304)) then []
    else if framing[0].SendContentLength? then [framing[0]]
    else [SendHeader(("Transfer-Encoding", "chunked"))]
  }

  /** From `n` on stand the status, the framing line, the headers in order and the end of the header. */
  ghost predicate HeadAt(x: seq<Call>, n: nat, status: Call, line: seq<Call>, headers: seq<Header>) {
    && |x| > n + 1 + |line| + |headers|
    && x[n] == status && x[n + 1..n + 1 + |line|] == line
    && (forall i :: 0 <= i < |headers| ==> x[n + 1 + |line| + i] == SendHeader(headers[i]))
    && x[n + 1 + |line| + |headers|] == CompleteHeader
  }

  /** The client is told, behind the 100 Continue: the status; the content length, but none for a 204 or a
      304, or that the body is chunked; then the headers in the order of the calls. */
  lemma HeadReachesClient(r: Response)
    requires Legal(r)
    ensures HeadAt(Strip(Bottom(CallsOf(r))), |Start(r)|, SendStatus(r.status, r.name),
      LineFor(r.status, Framing(r.early) + Framing(r.late)), HeadersOf(r.early) + HeadersOf(r.late))
  {
    NormalForm(r);
    var rest := NormalParts(r);
    var headers, line := HeadersOf(r.early) + HeadersOf(r.late), LineFor(r.status, Framing(r.early) + Framing(r.late));
    Parts(Start(r), SendStatus(r.status, r.name), line, headers, rest);
  }

  lemma NormalParts(r: Response) returns (rest: seq<Call>)
    requires Legal(r)
    ensures Normal(r) == Start(r) + [SendStatus(r.status, r.name)]
      + LineFor(r.status, Framing(r.early) + Framing(r.late))
      + HeaderCalls(HeadersOf(r.early) + HeadersOf(r.late)) + [CompleteHeader] + rest
    ensures forall i :: 0 <= i < |rest| ==> !rest[i].SendContentLength?
  {
    var framing := Framing(r.early) + Framing(r.late);
    FramingKinds(r);
    BodyBelowIsBody(Chunked(framing), Pieces(r.tail));
    assert FramingBelow(r.status, framing) == LineFor(r.status, framing);
    rest := BodyBelow(Chunked(framing), Pieces(r.tail)) + ChunkCalls(Chunked(framing), CompleteRequest).1;
  }

  lemma Parts(start: seq<Call>, status: Call, line: seq<Call>, headers: seq<Header>, rest: seq<Call>)
    ensures HeadAt(start + [status] + line + HeaderCalls(headers) + [CompleteHeader] + rest,
      |start|, status, line, headers)
  {
    HeaderCallsAreHeaders(headers);
    var x := start + [status] + line + HeaderCalls(headers) + [CompleteHeader] + rest;
    forall i | 0 <= i < |headers| ensures x[|start| + 1 + |line| + i] == SendHeader(headers[i]) {
      assert x[|start| + 1 + |line| + i] == HeaderCalls(headers)[i];
    }
  }

  lemma FramingKinds(r: Response)
    ensures forall i :: 0 <= i < |Framing(r.early) + Framing(r.late)| ==>
      var c := (Framing(r.early) + Framing(r.late))[i]; c.SendContentLength? || c.SendChunkedEncoding?
  {
    FramingCalls(r.early);
    FramingCalls(r.late);
  }

  /** No content length reaches the client behind its place in the head, and none at all for a 204 or 304. */
  lemma LengthReachesClientOnce(r: Response, i: nat)
    requires Legal(r) && i < |Strip(Bottom(CallsOf(r)))| && Strip(Bottom(CallsOf(r)))[i].SendContentLength?
    ensures i == |Start(r)| + 1 && r.status != 204 && r.status != 304
  {
    NormalForm(r);
    var headers, line := HeadersOf(r.early) + HeadersOf(r.late), LineFor(r.status, Framing(r.early) + Framing(r.late));
    HeaderCallsAreHeaders(headers);
    var rest := NormalParts(r);
    LengthInParts(Start(r), SendStatus(r.status, r.name), line, HeaderCalls(headers) + [CompleteHeader], rest, i);
    assert Start(r) + [SendStatus(r.status, r.name)] + line + HeaderCalls(headers) + [CompleteHeader] ==
      Start(r) + [SendStatus(r.status, r.name)] + line + (HeaderCalls(headers) + [CompleteHeader]);
  }

  lemma LengthInParts(start: seq<Call>, status: Call, line: seq<Call>, headers: seq<Call>, rest: seq<Call>, i: nat)
    requires |line| <= 1 && !status.SendContentLength?
    requires forall k :: 0 <= k < |start| ==> !start[k].SendContentLength?
    requires forall k :: 0 <= k < |headers| ==> !headers[k].SendContentLength?
    requires forall k :: 0 <= k < |rest| ==> !rest[k].SendContentLength?
    requires var x := start + [status] + line + headers + rest; i < |x| && x[i].SendContentLength?
    ensures i == |start| + 1 && line != [] && line[0].SendContentLength?
  {
  }
}
