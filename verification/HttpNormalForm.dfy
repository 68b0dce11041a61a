/** What the filter stack makes of every legal response: one normal form on the wire, whatever the
    order the headers came in and the size of the buffer. */
module HttpNormalForm {
  import opened Wrappers
  import opened ChunkedCoding
  import opened HttpLayers

  // ---- The texts of the client ----

  function Connection(keepAlive: bool): string {
    if keepAlive then "Connection: Keep-Alive" + CRLF else "Connection: close" + CRLF
  }

  /** What the texts depend on besides the calls. `date` is the date line, an opaque text; it is empty if
      there is none. `beyond` is what memory holds from the end of the status line's array on. */
  datatype Env = Env(date: string, keepAlive: bool, beyond: nat -> char)

  const STATUS_BUF_SIZE: nat := 128

  function StatusLine(status: int, name: string): string {
    "HTTP/1.1 " + Decimal(status) + " " + name + CRLF
  }

  /** The bytes that are sent after `snprintf` was given an array of `cap` characters for `text`: its
      result is the length of the whole text, though only `cap - 1` characters and a NUL are in the array. */
  function Printed(cap: nat, text: string, beyond: nat -> char): (r: string)
    requires cap >= 1
    ensures |r| == |text|
  {
    seq(|text|, i requires 0 <= i < |text| => if i < cap - 1 then text[i] else if i == cap - 1 then '\0' else beyond(i))
  }

  /** The client sends the status line exactly when it is short enough. A name, as a C string, has no NUL
      in it. */
  lemma StatusSentIffShort(size: nat, env: Env, status: int, name: string)
    requires '\0' !in name
    ensures ClientConf(size, env).text(SendStatus(status, name)) == StatusLine(status, name) <==>
      |StatusLine(status, name)| < STATUS_BUF_SIZE
  {
    var line := StatusLine(status, name);
    var r := Printed(STATUS_BUF_SIZE, line, env.beyond);
    var front := "HTTP/1.1 " + Decimal(status) + " ";
    NoNulInDecimal(status);
    assert line == front + name + CRLF;
    assert '\0' !in line;
    if |line| < STATUS_BUF_SIZE {
      assert r == line;
    } else {
      assert r[STATUS_BUF_SIZE - 1] == '\0' && line[STATUS_BUF_SIZE - 1] in line;
    }
  }

  lemma {:induction false} NoNulInNumeral(n: nat)
    ensures '\0' !in Numeral(n, 10)
  {
    if n >= 10 { NoNulInNumeral(n / 10); }
  }

  lemma NoNulInDecimal(n: int)
    ensures '\0' !in Decimal(n)
  {
    NoNulInNumeral(if n < 0 then -n else n);
  }

  function ClientText(env: Env, c: Call): string {
    match c
    case Send100Continue => "HTTP/1.1 100 CONTINUE" + CRLF + CRLF
    case SendStatus(status, name) => Printed(STATUS_BUF_SIZE, StatusLine(status, name), env.beyond)
    case SendHeader(h) => h.0 + ": " + h.1 + CRLF
    case SendContentLength(len) => "Content-Length: " + Numeral(len, 10) + CRLF
    case CompleteHeader => env.date + Connection(env.keepAlive) + CRLF
    case SendBody(data) => data
    case _ => ""
  }

  function ClientConf(size: nat, env: Env): (conf: Conf)
    ensures Plain(conf)
  {
    Conf(size, c => ClientText(env, c))
  }

  // ---- Responses ----

  /** The calls of one response: perhaps a 100 Continue; headers, and perhaps a content length, too
      early; the status; more of the same, or the choice of chunked encoding; then the end of the
      header, body pieces and the end of the request. Flushes can be anywhere. */
  datatype Response = Response(
    continue100: bool, early: seq<Call>, status: int, name: string, late: seq<Call>, tail: seq<Call>)

  function Start(r: Response): seq<Call> {
    if r.continue100 then [Send100Continue] else []
  }

  function Lead(r: Response): seq<Call> {
    Start(r) + r.early + [SendStatus(r.status, r.name)] + r.late
  }

  function CallsOf(r: Response): seq<Call> {
    Lead(r) + [CompleteHeader] + (r.tail + [CompleteRequest])
  }

  predicate EarlyCall(c: Call) { c.SendHeader? || c.SendContentLength? || c.Flush? }
  predicate LateCall(c: Call) { EarlyCall(c) || c.SendChunkedEncoding? }
  predicate TailCall(c: Call) { c.SendBody? || c.Flush? }

  function HeadersOf(cs: seq<Call>): seq<Header> {
    if cs == [] then []
    else
      var front, c := HeadersOf(cs[..|cs| - 1]), cs[|cs| - 1];
      if c.SendHeader? then front + [c.header] else front
  }

  /** The calls that say how the length of the body is to be known. */
  function Framing(cs: seq<Call>): seq<Call> {
    if cs == [] then []
    else
      var front, c := Framing(cs[..|cs| - 1]), cs[|cs| - 1];
      if c.SendContentLength? || c.SendChunkedEncoding? then front + [c] else front
  }

  function Pieces(cs: seq<Call>): seq<string> {
    if cs == [] then []
    else
      var front, c := Pieces(cs[..|cs| - 1]), cs[|cs| - 1];
      if c.SendBody? then front + [c.data] else front
  }

  predicate Legal(r: Response) {
    && (forall i :: 0 <= i < |r.early| ==> EarlyCall(r.early[i]))
    && (forall i :: 0 <= i < |r.late| ==> LateCall(r.late[i]))
    && (forall i :: 0 <= i < |r.tail| ==> TailCall(r.tail[i]))
    && |Framing(r.early) + Framing(r.late)| <= 1
  }

  // ---- The normal form ----

  function FramingBelow(status: int, framing: seq<Call>): seq<Call> {
    if framing == [] then []
    else if framing[0].SendChunkedEncoding? then [SendHeader(("Transfer-Encoding", "chunked"))]
    else if status == 204 || status == 304 then []
    else [framing[0]]
  }

  predicate Chunked(framing: seq<Call>) {
    framing != [] && framing[0].SendChunkedEncoding?
  }

  function BodyBelow(chunked: bool, pieces: seq<string>): seq<Call> {
    if pieces == [] then []
    else BodyBelow(chunked, pieces[..|pieces| - 1]) + ChunkCalls(chunked, SendBody(pieces[|pieces| - 1])).1
  }

  function HeadBelow(r: Response): seq<Call> {
    var framing := Framing(r.early) + Framing(r.late);
    Start(r) + [SendStatus(r.status, r.name)]
    + FramingBelow(r.status, framing) + HeaderCalls(HeadersOf(r.early) + HeadersOf(r.late))
  }

  /** What reaches the client, flushes aside. */
  function Normal(r: Response): seq<Call> {
    var chunked := Chunked(Framing(r.early) + Framing(r.late));
    HeadBelow(r) + [CompleteHeader] + (BodyBelow(chunked, Pieces(r.tail)) + ChunkCalls(chunked, CompleteRequest).1)
  }

  // ---- Flushes do not matter to the filters ----

  function Strip(cs: seq<Call>): seq<Call> {
    if cs == [] then []
    else
      var front, c := Strip(cs[..|cs| - 1]), cs[|cs| - 1];
      if c.Flush? then front else front + [c]
  }

  lemma {:induction false} StripAppend(a: seq<Call>, b: seq<Call>)
    ensures Strip(a + b) == Strip(a) + Strip(b)
  {
    if b == [] {
      assert a + b == a;
    } else {
      SplitLast(a, b);
      StripAppend(a, b[..|b| - 1]);
      assert Strip(a) + (Strip(b[..|b| - 1]) + [b[|b| - 1]]) == Strip(a) + Strip(b[..|b| - 1]) + [b[|b| - 1]];
    }
  }

  lemma {:induction false} StripText(conf: Conf, cs: seq<Call>)
    requires Plain(conf)
    ensures TextOf(conf, Strip(cs)) == TextOf(conf, cs)
  {
    if cs != [] {
      var n := |cs| - 1;
      StripText(conf, cs[..n]);
      if !cs[n].Flush? {
        Snoc(Strip(cs[..n]), cs[n]);
      }
    }
  }

  lemma StripOne(c: Call)
    ensures Strip([c]) == if c.Flush? then [] else [c]
  {
    assert [c][..0] == [];
  }

  lemma {:induction false} NothingToStrip(cs: seq<Call>)
    requires forall i :: 0 <= i < |cs| ==> !cs[i].Flush?
    ensures Strip(cs) == cs
  {
    if cs != [] {
      var n := |cs| - 1;
      NothingToStrip(cs[..n]);
      assert cs == cs[..n] + [cs[n]];
    }
  }

  /** The filters pass a flush on and make none of their own. */
  lemma FlushConLen(a: Action, c: Call)
    ensures Strip(ConLenCalls(a, c).1) == if c.Flush? then [] else ConLenCalls(a, c).1
  {
    StripOne(c);
    if !c.Flush? { NothingToStrip(ConLenCalls(a, c).1); }
  }

  lemma FlushChunk(e: bool, c: Call)
    ensures Strip(ChunkCalls(e, c).1) == if c.Flush? then [] else ChunkCalls(e, c).1
  {
    StripOne(c);
    if !c.Flush? { NothingToStrip(ChunkCalls(e, c).1); }
  }

  lemma FlushReorder(r: Reorder, c: Call)
    ensures Strip(ReorderCalls(r, c).1) == if c.Flush? then [] else ReorderCalls(r, c).1
  {
    StripOne(c);
    if !c.Flush? {
      HeaderCallsAreHeaders(r.headers);
      NothingToStrip(ReorderCalls(r, c).1);
    }
  }

  lemma {:induction false} StripConLen(a: Action, cs: seq<Call>)
    ensures ConLenAll(a, Strip(cs)).0 == ConLenAll(a, cs).0
    ensures ConLenAll(a, Strip(cs)).1 == Strip(ConLenAll(a, cs).1)
  {
    if cs != [] {
      var n := |cs| - 1;
      StripConLen(a, cs[..n]);
      var (b, out) := ConLenAll(a, cs[..n]);
      var more := ConLenCalls(b, cs[n]).1;
      assert ConLenAll(a, cs).1 == out + more;
      StripAppend(out, more);
      FlushConLen(b, cs[n]);
      Snoc(Strip(cs[..n]), cs[n]);
      assert Strip(out) + [] == Strip(out);
    }
  }

  lemma {:induction false} StripChunk(e: bool, cs: seq<Call>)
    ensures ChunkAll(e, Strip(cs)).0 == ChunkAll(e, cs).0
    ensures ChunkAll(e, Strip(cs)).1 == Strip(ChunkAll(e, cs).1)
  {
    if cs != [] {
      var n := |cs| - 1;
      StripChunk(e, cs[..n]);
      var (b, out) := ChunkAll(e, cs[..n]);
      var more := ChunkCalls(b, cs[n]).1;
      assert ChunkAll(e, cs).1 == out + more;
      StripAppend(out, more);
      FlushChunk(b, cs[n]);
      Snoc(Strip(cs[..n]), cs[n]);
      assert Strip(out) + [] == Strip(out);
    }
  }

  lemma {:induction false} StripReorder(r: Reorder, cs: seq<Call>)
    ensures ReorderAll(r, Strip(cs)).0 == ReorderAll(r, cs).0
    ensures ReorderAll(r, Strip(cs)).1 == Strip(ReorderAll(r, cs).1)
  {
    if cs != [] {
      var n := |cs| - 1;
      StripReorder(r, cs[..n]);
      var (q, out) := ReorderAll(r, cs[..n]);
      var more := ReorderCalls(q, cs[n]).1;
      assert ReorderAll(r, cs).1 == out + more;
      StripAppend(out, more);
      FlushReorder(q, cs[n]);
      Snoc(Strip(cs[..n]), cs[n]);
      assert Strip(out) + [] == Strip(out);
    }
  }

  lemma StripBottom(cs: seq<Call>)
    ensures Bottom(Strip(cs)) == Strip(Bottom(cs))
  {
    StripReorder(FRESH.own, cs);
    StripChunk(false, ReorderAll(FRESH.own, cs).1);
    StripConLen(UNKNOWN, ChunkAll(false, ReorderAll(FRESH.own, cs).1).1);
  }

  // ---- The reordering filter on the parts of a response ----

  function Held(len: Option<nat>, framing: seq<Call>): Option<nat> {
    if framing != [] && framing[|framing| - 1].SendContentLength? then Some(framing[|framing| - 1].len) else len
  }

  lemma {:induction false} ReorderEarly(r: Reorder, cs: seq<Call>)
    requires r.phase == EARLY_HEADERS && forall i :: 0 <= i < |cs| ==> EarlyCall(cs[i]) && !cs[i].Flush?
    ensures ReorderAll(r, cs).0.phase == EARLY_HEADERS
    ensures ReorderAll(r, cs).0.contentLength == Held(r.contentLength, Framing(cs))
    ensures ReorderAll(r, cs).0.headers == r.headers + HeadersOf(cs)
    ensures ReorderAll(r, cs).1 == []
  {
    if cs != [] {
      var n := |cs| - 1;
      ReorderEarly(r, cs[..n]);
      assert EarlyCall(cs[n]);
      if cs[n].SendHeader? {
        assert r.headers + HeadersOf(cs) == r.headers + HeadersOf(cs[..n]) + [cs[n].header];
      }
    }
  }

  lemma {:induction false} ReorderLate(r: Reorder, cs: seq<Call>)
    requires r.phase == STATUS_SEEN && forall i :: 0 <= i < |cs| ==> LateCall(cs[i]) && !cs[i].Flush?
    ensures ReorderAll(r, cs).0.phase == STATUS_SEEN
    ensures ReorderAll(r, cs).0.contentLength == r.contentLength
    ensures ReorderAll(r, cs).0.headers == r.headers + HeadersOf(cs)
    ensures ReorderAll(r, cs).1 == Framing(cs)
  {
    if cs != [] {
      var n := |cs| - 1;
      ReorderLate(r, cs[..n]);
      assert LateCall(cs[n]);
      if cs[n].SendHeader? {
        assert r.headers + HeadersOf(cs) == r.headers + HeadersOf(cs[..n]) + [cs[n].header];
      }
    }
  }

  lemma {:induction false} ReorderTail(r: Reorder, cs: seq<Call>)
    requires forall i :: 0 <= i < |cs| ==> cs[i].SendBody? || cs[i].CompleteRequest?
    ensures ReorderAll(r, cs) == (r, cs)
  {
    if cs != [] {
      var n := |cs| - 1;
      ReorderTail(r, cs[..n]);
      assert cs == cs[..n] + [cs[n]];
    }
  }

  lemma ReorderOne(r: Reorder, c: Call)
    ensures ReorderAll(r, [c]) == ReorderCalls(r, c)
  {
    assert [c][..0] == [];
    assert ReorderAll(r, []).1 + ReorderCalls(r, c).1 == ReorderCalls(r, c).1;
  }

  /** What the reordering filter passes on for a response without flushes. */
  function Reordered(r: Response): seq<Call> {
    Start(r) + [SendStatus(r.status, r.name)]
    + (Framing(r.early) + Framing(r.late)) + HeaderCalls(HeadersOf(r.early) + HeadersOf(r.late))
    + [CompleteHeader] + (r.tail + [CompleteRequest])
  }

  predicate NoFlush(r: Response) {
    && (forall i :: 0 <= i < |r.early| ==> !r.early[i].Flush?)
    && (forall i :: 0 <= i < |r.late| ==> !r.late[i].Flush?)
    && (forall i :: 0 <= i < |r.tail| ==> !r.tail[i].Flush?)
  }

  lemma {:induction false} EarlyFraming(cs: seq<Call>)
    requires forall i :: 0 <= i < |cs| ==> EarlyCall(cs[i])
    ensures forall i :: 0 <= i < |Framing(cs)| ==> Framing(cs)[i].SendContentLength?
  {
    if cs != [] {
      EarlyFraming(cs[..|cs| - 1]);
      assert EarlyCall(cs[|cs| - 1]);
    }
  }

  /** One filter run joined to the next. */
  lemma ReorderJoin(r: Reorder, a: seq<Call>, q: Reorder, x: seq<Call>, b: seq<Call>, p: Reorder, y: seq<Call>)
    requires ReorderAll(r, a) == (q, x) && ReorderAll(q, b) == (p, y)
    ensures ReorderAll(r, a + b) == (p, x + y)
  {
    ReorderAllAppend(r, a, b);
  }

  lemma ReorderStart(r: Response)
    ensures ReorderAll(FRESH.own, Start(r)) == (FRESH.own, Start(r))
  {
    ReorderOne(FRESH.own, Send100Continue);
  }

  /** Up to the end of the header calls: what is held, and what has been passed on. */
  lemma ReorderLead(r: Response, status: Call, held: Reorder)
    requires Legal(r) && NoFlush(r) && status == SendStatus(r.status, r.name)
    requires held == Reorder(STATUS_SEEN, Held(None, Framing(r.early)), HeadersOf(r.early) + HeadersOf(r.late))
    ensures ReorderAll(FRESH.own, Lead(r)) == (held, Start(r) + [status] + Framing(r.late))
  {
    ReorderStart(r);
    ReorderEarly(FRESH.own, r.early);
    assert [] + HeadersOf(r.early) == HeadersOf(r.early) && Start(r) + [] == Start(r);
    var r1 := Reorder(EARLY_HEADERS, held.contentLength, HeadersOf(r.early));
    ReorderJoin(FRESH.own, Start(r), FRESH.own, Start(r), r.early, r1, []);
    ReorderOne(r1, status);
    var r2 := r1.(phase := STATUS_SEEN);
    ReorderJoin(FRESH.own, Start(r) + r.early, r1, Start(r), [status], r2, [status]);
    ReorderLate(r2, r.late);
    ReorderJoin(FRESH.own, Start(r) + r.early + [status], r2, Start(r) + [status], r.late, held, Framing(r.late));
  }

  lemma ReorderResponse(r: Response)
    requires Legal(r) && NoFlush(r)
    ensures ReorderAll(FRESH.own, CallsOf(r)).1 == Reordered(r)
  {
    var status := SendStatus(r.status, r.name);
    var hs := HeadersOf(r.early) + HeadersOf(r.late);
    var held := Reorder(STATUS_SEEN, Held(None, Framing(r.early)), hs);
    ReorderLead(r, status, held);
    ReorderOne(held, CompleteHeader);
    var done := held.(phase := DATA, headers := []);
    var flush := LengthCalls(held.contentLength) + HeaderCalls(hs) + [CompleteHeader];
    var x := Start(r) + [status] + Framing(r.late);
    ReorderJoin(FRESH.own, Lead(r), held, x, [CompleteHeader], done, flush);
    var tail := r.tail + [CompleteRequest];
    ReorderTail(done, tail);
    ReorderJoin(FRESH.own, Lead(r) + [CompleteHeader], done, x + flush, tail, done, tail);
    EarlyFraming(r.early);
    FramingOnce(r, held.contentLength);
    Regroup(Start(r) + [status], Framing(r.late), LengthCalls(held.contentLength), HeaderCalls(hs), [CompleteHeader]);
  }

  lemma Regroup(a: seq<Call>, b: seq<Call>, c: seq<Call>, d: seq<Call>, e: seq<Call>)
    ensures a + b + (c + d + e) == a + (b + c) + d + e
  {
  }

  /** With at most one framing call, a held content length is the only one. */
  lemma FramingOnce(r: Response, held: Option<nat>)
    requires Legal(r) && held == Held(None, Framing(r.early))
    requires forall i :: 0 <= i < |Framing(r.early)| ==> Framing(r.early)[i].SendContentLength?
    ensures Framing(r.late) + LengthCalls(held) == Framing(r.early) + Framing(r.late)
  {
    if Framing(r.early) != [] {
      assert Framing(r.late) == [] && Framing(r.early) == [SendContentLength(held.value)];
    }
  }

  // ---- The filters below on what they are given ----

  lemma {:induction false} ChunkPasses(e: bool, cs: seq<Call>)
    requires forall i :: 0 <= i < |cs| ==> !cs[i].SendChunkedEncoding? && !cs[i].SendBody? && !cs[i].CompleteRequest?
    ensures ChunkAll(e, cs) == (e, cs)
  {
    if cs != [] {
      var n := |cs| - 1;
      ChunkPasses(e, cs[..n]);
      assert cs == cs[..n] + [cs[n]];
    }
  }

  lemma {:induction false} ConLenPasses(a: Action, cs: seq<Call>)
    requires forall i :: 0 <= i < |cs| ==> !cs[i].SendStatus? && !cs[i].SendContentLength?
    ensures ConLenAll(a, cs) == (a, cs)
  {
    if cs != [] {
      var n := |cs| - 1;
      ConLenPasses(a, cs[..n]);
      assert cs == cs[..n] + [cs[n]];
    }
  }

  lemma {:induction false} ChunkBody(e: bool, cs: seq<Call>)
    requires forall i :: 0 <= i < |cs| ==> cs[i].SendBody?
    ensures ChunkAll(e, cs) == (e, BodyBelow(e, Pieces(cs)))
  {
    if cs != [] {
      var n := |cs| - 1;
      ChunkBody(e, cs[..n]);
      Snoc(Pieces(cs[..n]), cs[n].data);
    }
  }

  lemma {:induction false} BodyBelowIsBody(e: bool, pieces: seq<string>)
    ensures forall i :: 0 <= i < |BodyBelow(e, pieces)| ==> BodyBelow(e, pieces)[i].SendBody?
  {
    if pieces != [] { BodyBelowIsBody(e, pieces[..|pieces| - 1]); }
  }

  lemma {:induction false} HeaderCallsAreHeaders(hs: seq<Header>)
    ensures |HeaderCalls(hs)| == |hs|
    ensures forall i :: 0 <= i < |hs| ==> HeaderCalls(hs)[i] == SendHeader(hs[i])
  {
    if hs != [] { HeaderCallsAreHeaders(hs[..|hs| - 1]); }
  }

  lemma ChunkOne(e: bool, c: Call)
    ensures ChunkAll(e, [c]) == ChunkCalls(e, c)
  {
    assert [c][..0] == [];
    assert ChunkAll(e, []).1 + ChunkCalls(e, c).1 == ChunkCalls(e, c).1;
  }

  lemma ConLenOne(a: Action, c: Call)
    ensures ConLenAll(a, [c]) == ConLenCalls(a, c)
  {
    assert [c][..0] == [];
    assert ConLenAll(a, []).1 + ConLenCalls(a, c).1 == ConLenCalls(a, c).1;
  }

  /** After the chunking filter. */
  function ChunkedBelow(framing: seq<Call>): seq<Call> {
    if Chunked(framing) then [SendHeader(("Transfer-Encoding", "chunked"))] else framing
  }

  lemma ChunkFraming(framing: seq<Call>)
    requires IsFraming(framing)
    ensures ChunkAll(false, framing) == (Chunked(framing), ChunkedBelow(framing))
  {
    if framing != [] {
      ChunkOne(false, framing[0]);
      assert framing == [framing[0]];
    }
  }

  lemma ConLenFraming(status: int, framing: seq<Call>)
    requires IsFraming(framing)
    ensures ConLenAll(ActionFor(status), ChunkedBelow(framing)) == (ActionFor(status), FramingBelow(status, framing))
  {
    var a := ActionFor(status);
    if framing != [] {
      ConLenOne(a, ChunkedBelow(framing)[0]);
      assert ChunkedBelow(framing) == [ChunkedBelow(framing)[0]];
    }
  }

  lemma {:induction false} FramingCalls(cs: seq<Call>)
    ensures forall i :: 0 <= i < |Framing(cs)| ==>
      Framing(cs)[i].SendContentLength? || Framing(cs)[i].SendChunkedEncoding?
  {
    if cs != [] { FramingCalls(cs[..|cs| - 1]); }
  }

  lemma ChunkJoin(e: bool, a: seq<Call>, f: bool, x: seq<Call>, b: seq<Call>, g: bool, y: seq<Call>)
    requires ChunkAll(e, a) == (f, x) && ChunkAll(f, b) == (g, y)
    ensures ChunkAll(e, a + b) == (g, x + y)
  {
    ChunkAllAppend(e, a, b);
  }

  lemma ConLenJoin(e: Action, a: seq<Call>, f: Action, x: seq<Call>, b: seq<Call>, g: Action, y: seq<Call>)
    requires ConLenAll(e, a) == (f, x) && ConLenAll(f, b) == (g, y)
    ensures ConLenAll(e, a + b) == (g, x + y)
  {
    ConLenAllAppend(e, a, b);
  }

  predicate IsFraming(framing: seq<Call>) {
    |framing| <= 1 &&
    forall i :: 0 <= i < |framing| ==> framing[i].SendContentLength? || framing[i].SendChunkedEncoding?
  }

  function BodyEnd(chunked: bool, bodies: seq<Call>): seq<Call> {
    BodyBelow(chunked, Pieces(bodies)) + ChunkCalls(chunked, CompleteRequest).1
  }

  lemma ChunkBodyEnd(e: bool, bodies: seq<Call>)
    requires forall i :: 0 <= i < |bodies| ==> bodies[i].SendBody?
    ensures ChunkAll(e, bodies + [CompleteRequest]) == (e, BodyEnd(e, bodies))
    ensures forall i :: 0 <= i < |BodyEnd(e, bodies)| ==>
      BodyEnd(e, bodies)[i].SendBody? || BodyEnd(e, bodies)[i].CompleteRequest?
  {
    ChunkBody(e, bodies);
    ChunkOne(e, CompleteRequest);
    ChunkJoin(e, bodies, e, BodyBelow(e, Pieces(bodies)), [CompleteRequest], e, ChunkCalls(e, CompleteRequest).1);
    BodyBelowIsBody(e, Pieces(bodies));
  }

  /** The chunking filter on a head, a framing call, headers and a body. */
  lemma LowerChunk(top: seq<Call>, framing: seq<Call>, rest: seq<Call>, bodies: seq<Call>)
    requires forall i :: 0 <= i < |top| ==> top[i].Send100Continue? || top[i].SendStatus?
    requires forall i :: 0 <= i < |rest| ==> rest[i].SendHeader? || rest[i].CompleteHeader?
    requires IsFraming(framing) && forall i :: 0 <= i < |bodies| ==> bodies[i].SendBody?
    ensures ChunkAll(false, top + framing + rest + (bodies + [CompleteRequest])).1
      == top + ChunkedBelow(framing) + rest + BodyEnd(Chunked(framing), bodies)
  {
    var e := Chunked(framing);
    ChunkPasses(false, top);
    ChunkFraming(framing);
    ChunkJoin(false, top, false, top, framing, e, ChunkedBelow(framing));
    ChunkPasses(e, rest);
    ChunkJoin(false, top + framing, e, top + ChunkedBelow(framing), rest, e, rest);
    ChunkBodyEnd(e, bodies);
    var above, below := top + framing + rest, top + ChunkedBelow(framing) + rest;
    ChunkJoin(false, above, e, below, bodies + [CompleteRequest], e, BodyEnd(e, bodies));
  }

  function ActionFor(status: int): Action {
    if status == 204 || status == 304 then INHIBIT else FORWARD
  }

  lemma ConLenHead(head: seq<Call>, status: Call, framing: seq<Call>)
    requires forall i :: 0 <= i < |head| ==> head[i].Send100Continue?
    requires status.SendStatus? && IsFraming(framing)
    ensures ConLenAll(UNKNOWN, head + [status] + ChunkedBelow(framing)) ==
      (ActionFor(status.status), head + [status] + FramingBelow(status.status, framing))
  {
    var a := ActionFor(status.status);
    ConLenPasses(UNKNOWN, head);
    ConLenOne(UNKNOWN, status);
    ConLenJoin(UNKNOWN, head, UNKNOWN, head, [status], a, [status]);
    ConLenFraming(status.status, framing);
    var below := FramingBelow(status.status, framing);
    ConLenJoin(UNKNOWN, head + [status], a, head + [status], ChunkedBelow(framing), a, below);
  }

  lemma LowerConLen(head: seq<Call>, status: Call, framing: seq<Call>, rest: seq<Call>, body: seq<Call>)
    requires forall i :: 0 <= i < |head| ==> head[i].Send100Continue?
    requires status.SendStatus? && IsFraming(framing)
    requires forall i :: 0 <= i < |rest| ==> rest[i].SendHeader? || rest[i].CompleteHeader?
    requires forall i :: 0 <= i < |body| ==> body[i].SendBody? || body[i].CompleteRequest?
    ensures ConLenAll(UNKNOWN, head + [status] + ChunkedBelow(framing) + rest + body).1 ==
      head + [status] + FramingBelow(status.status, framing) + rest + body
  {
    ConLenHead(head, status, framing);
    ConLenRest(head + [status] + ChunkedBelow(framing), ActionFor(status.status),
      head + [status] + FramingBelow(status.status, framing), rest, body);
  }

  lemma ConLenRest(x: seq<Call>, a: Action, y: seq<Call>, rest: seq<Call>, body: seq<Call>)
    requires ConLenAll(UNKNOWN, x) == (a, y)
    requires forall i :: 0 <= i < |rest| ==> rest[i].SendHeader? || rest[i].CompleteHeader?
    requires forall i :: 0 <= i < |body| ==> body[i].SendBody? || body[i].CompleteRequest?
    ensures ConLenAll(UNKNOWN, x + rest + body).1 == y + rest + body
  {
    ConLenPasses(a, rest);
    ConLenJoin(UNKNOWN, x, a, y, rest, a, rest);
    ConLenPasses(a, body);
    ConLenJoin(UNKNOWN, x + rest, a, y + rest, body, a, body);
  }

  // ---- The normal form of every legal response ----

  function StripResponse(r: Response): Response {
    r.(early := Strip(r.early), late := Strip(r.late), tail := Strip(r.tail))
  }

  lemma {:induction false} StripKinds(cs: seq<Call>)
    ensures HeadersOf(Strip(cs)) == HeadersOf(cs)
    ensures Framing(Strip(cs)) == Framing(cs) && Pieces(Strip(cs)) == Pieces(cs)
    ensures forall c :: c in Strip(cs) ==> c in cs && !c.Flush?
  {
    if cs != [] {
      var n := |cs| - 1;
      StripKinds(cs[..n]);
      if !cs[n].Flush? { Snoc(Strip(cs[..n]), cs[n]); }
    }
  }

  lemma StripCalls(r: Response)
    ensures Strip(CallsOf(r)) == CallsOf(StripResponse(r))
  {
    var c0 := if r.continue100 then [Send100Continue] else [];
    var status := SendStatus(r.status, r.name);
    StripOne(Send100Continue);
    StripOne(status);
    StripOne(CompleteHeader);
    StripOne(CompleteRequest);
    StripAppend(c0, r.early);
    StripAppend(c0 + r.early, [status]);
    StripAppend(c0 + r.early + [status], r.late);
    StripAppend(Lead(r), [CompleteHeader]);
    StripAppend(r.tail, [CompleteRequest]);
    StripAppend(Lead(r) + [CompleteHeader], r.tail + [CompleteRequest]);
  }

  lemma StripLegal(r: Response)
    requires Legal(r)
    ensures Legal(StripResponse(r)) && NoFlush(StripResponse(r)) && Normal(StripResponse(r)) == Normal(r)
  {
    StripKinds(r.early);
    StripKinds(r.late);
    StripKinds(r.tail);
    var s := StripResponse(r);
    forall i | 0 <= i < |s.early| ensures EarlyCall(s.early[i]) && !s.early[i].Flush? { assert s.early[i] in s.early; }
    forall i | 0 <= i < |s.late| ensures LateCall(s.late[i]) && !s.late[i].Flush? { assert s.late[i] in s.late; }
    forall i | 0 <= i < |s.tail| ensures TailCall(s.tail[i]) && !s.tail[i].Flush? { assert s.tail[i] in s.tail; }
  }

  /** For any interleaving of headers, at most one content length and flushes around the status,
      what reaches the client is the normal form. */
  lemma NormalForm(r: Response)
    requires Legal(r)
    ensures Strip(Bottom(CallsOf(r))) == Normal(r)
  {
    StripBottom(CallsOf(r));
    StripCalls(r);
    StripLegal(r);
    NormalWithoutFlush(StripResponse(r));
  }

  lemma LowerFilters(start: seq<Call>, status: Call, framing: seq<Call>, rest: seq<Call>, bodies: seq<Call>)
    requires forall i :: 0 <= i < |start| ==> start[i].Send100Continue?
    requires status.SendStatus? && IsFraming(framing)
    requires forall i :: 0 <= i < |rest| ==> rest[i].SendHeader? || rest[i].CompleteHeader?
    requires forall i :: 0 <= i < |bodies| ==> bodies[i].SendBody?
    ensures ConLenAll(UNKNOWN, ChunkAll(false, start + [status] + framing + rest + (bodies + [CompleteRequest])).1).1
      == start + [status] + FramingBelow(status.status, framing) + rest + BodyEnd(Chunked(framing), bodies)
  {
    LowerChunk(start + [status], framing, rest, bodies);
    ChunkBodyEnd(Chunked(framing), bodies);
    LowerConLen(start, status, framing, rest, BodyEnd(Chunked(framing), bodies));
  }

  lemma NormalWithoutFlush(r: Response)
    requires Legal(r) && NoFlush(r)
    ensures Bottom(CallsOf(r)) == Normal(r)
  {
    var status := SendStatus(r.status, r.name);
    var framing, hs := Framing(r.early) + Framing(r.late), HeadersOf(r.early) + HeadersOf(r.late);
    var headers := HeaderCalls(hs);
    ReorderResponse(r);
    FramingCalls(r.early);
    FramingCalls(r.late);
    HeaderCallsAreHeaders(hs);
    var tail := r.tail + [CompleteRequest];
    Assoc(Start(r) + [status] + framing, headers, [CompleteHeader], tail);
    LowerFilters(Start(r), status, framing, headers + [CompleteHeader], r.tail);
    var front := Start(r) + [status] + FramingBelow(r.status, framing);
    Assoc(front, headers, [CompleteHeader], BodyEnd(Chunked(framing), r.tail));
  }

  lemma Assoc(a: seq<Call>, b: seq<Call>, c: seq<Call>, d: seq<Call>)
    ensures a + b + c + d == a + (b + c) + d
  {
  }

  // ---- Byte order ----

  lemma {:induction false} FlushesHelp(empty: bool, cs: seq<Call>)
    ensures EmptyAfterAll(empty, Strip(cs)) ==> EmptyAfterAll(empty, cs)
    ensures BodyInOrder(empty, Strip(cs)) ==> BodyInOrder(empty, cs)
  {
    if cs != [] {
      var n := |cs| - 1;
      FlushesHelp(empty, cs[..n]);
      if !cs[n].Flush? { Snoc(Strip(cs[..n]), cs[n]); }
    }
  }

  lemma {:induction false} NoBodyInOrder(empty: bool, cs: seq<Call>)
    requires forall i :: 0 <= i < |cs| ==> !cs[i].SendBody?
    ensures BodyInOrder(empty, cs)
  {
    if cs != [] { NoBodyInOrder(empty, cs[..|cs| - 1]); }
  }

  lemma {:induction false} BodiesInOrder(empty: bool, a: seq<Call>, b: seq<Call>)
    requires BodyInOrder(empty, a) && EmptyAfterAll(empty, a)
    requires forall i :: 0 <= i < |b| ==> b[i].SendBody? || b[i].CompleteRequest?
    ensures BodyInOrder(empty, a + b) && EmptyAfterAll(empty, a + b)
  {
    if b == [] {
      assert a + b == a;
    } else {
      SplitLast(a, b);
      BodiesInOrder(empty, a, b[..|b| - 1]);
    }
  }

  lemma NormalInOrder(r: Response)
    requires Legal(r)
    ensures BodyInOrder(true, Normal(r)) && EmptyAfterAll(true, Normal(r))
  {
    var framing := Framing(r.early) + Framing(r.late);
    HeaderCallsAreHeaders(HeadersOf(r.early) + HeadersOf(r.late));
    FramingCalls(r.early);
    FramingCalls(r.late);
    var head := HeadBelow(r) + [CompleteHeader];
    NoBodyInOrder(true, head);
    assert head[|head| - 1] == CompleteHeader;
    BodyBelowIsBody(Chunked(framing), Pieces(r.tail));
    var chunked := Chunked(framing);
    BodiesInOrder(true, head, BodyBelow(chunked, Pieces(r.tail)) + ChunkCalls(chunked, CompleteRequest).1);
  }

  lemma {:induction false} InOrderPrefix(empty: bool, a: seq<Call>, b: seq<Call>)
    requires BodyInOrder(empty, a + b)
    ensures BodyInOrder(empty, a)
  {
    if b == [] {
      assert a + b == a;
    } else {
      SplitLast(a, b);
      InOrderPrefix(empty, a, b[..|b| - 1]);
    }
  }

  lemma BottomPrefix(a: seq<Call>, b: seq<Call>) returns (more: seq<Call>)
    ensures Bottom(a + b) == Bottom(a) + more
  {
    ReorderAllAppend(FRESH.own, a, b);
    var (q, x) := ReorderAll(FRESH.own, a);
    var y := ReorderAll(q, b).1;
    ChunkAllAppend(false, x, y);
    var (e, u) := ChunkAll(false, x);
    var v := ChunkAll(e, y).1;
    ConLenAllAppend(UNKNOWN, u, v);
    more := ConLenAll(ConLenAll(UNKNOWN, u).0, v).1;
  }

  /** The client's state after a run of calls through a fresh stack. */
  function OutAfter(conf: Conf, cs: seq<Call>): Out {
    ReorderRun(conf, FRESH, cs).0.below.below.out
  }

  lemma BottomInOrder(r: Response, cs: seq<Call>)
    requires Legal(r) && cs <= CallsOf(r)
    ensures BodyInOrder(true, Bottom(cs))
  {
    var b := CallsOf(r)[|cs|..];
    assert cs + b == CallsOf(r);
    var more := BottomPrefix(cs, b);
    NormalForm(r);
    NormalInOrder(r);
    FlushesHelp(true, Bottom(CallsOf(r)));
    InOrderPrefix(true, Bottom(cs), more);
  }

  /** At every point of every legal response and for every buffer size, the wire followed by the buffer
      holds all the bytes generated so far in the order of the calls. */
  lemma ByteOrder(conf: Conf, r: Response, cs: seq<Call>)
    requires Plain(conf) && Legal(r) && cs <= CallsOf(r)
    ensures All(OutAfter(conf, cs)) == TextOf(conf, Bottom(cs))
  {
    BottomInOrder(r, cs);
    StackIsBottom(conf, cs);
    OrderKept(conf, Out("", ""), Bottom(cs));
  }

  lemma {:induction false} InOrderAt(empty: bool, cs: seq<Call>, i: nat)
    requires BodyInOrder(empty, cs) && i < |cs| && cs[i].SendBody?
    ensures EmptyAfterAll(empty, cs[..i]) && BodyInOrder(empty, cs[..i])
  {
    var n := |cs| - 1;
    if i < n {
      InOrderAt(empty, cs[..n], i);
      assert cs[..n][..i] == cs[..i];
    }
  }

  /** Whenever the client is told to send a piece of the body, its buffer is empty. */
  lemma BufferEmptyAtBody(conf: Conf, r: Response, i: nat)
    requires Plain(conf) && Legal(r) && i < |Bottom(CallsOf(r))| && Bottom(CallsOf(r))[i].SendBody?
    ensures ClientRun(conf, Out("", ""), Bottom(CallsOf(r))[..i]).buf == ""
  {
    BottomInOrder(r, CallsOf(r));
    InOrderAt(true, Bottom(CallsOf(r)), i);
    OrderKept(conf, Out("", ""), Bottom(CallsOf(r))[..i]);
  }

  /** A whole response ends up on the wire in its normal form, with nothing left in the buffer. */
  lemma WireIsNormalForm(conf: Conf, r: Response)
    requires Plain(conf) && Legal(r)
    ensures OutAfter(conf, CallsOf(r)) == Out(TextOf(conf, Normal(r)), "")
  {
    var cs := CallsOf(r);
    BottomInOrder(r, cs);
    NormalForm(r);
    NormalInOrder(r);
    FlushesHelp(true, Bottom(cs));
    StackIsBottom(conf, cs);
    OrderKept(conf, Out("", ""), Bottom(cs));
    StripText(conf, Bottom(cs));
    var o := OutAfter(conf, cs);
    assert All(o) == o.wire && All(Out("", "")) == "";
  }

  /** Two responses with the same status, framing, headers in the same order and body pieces give the
      same bytes, however their calls were interleaved. */
  lemma InterleavingsAgree(conf: Conf, r: Response, q: Response)
    requires Plain(conf) && Legal(r) && Legal(q)
    requires r.continue100 == q.continue100 && r.status == q.status && r.name == q.name
    requires Framing(r.early) + Framing(r.late) == Framing(q.early) + Framing(q.late)
    requires HeadersOf(r.early) + HeadersOf(r.late) == HeadersOf(q.early) + HeadersOf(q.late)
    requires Pieces(r.tail) == Pieces(q.tail)
    ensures OutAfter(conf, CallsOf(r)) == OutAfter(conf, CallsOf(q))
  {
    WireIsNormalForm(conf, r);
    WireIsNormalForm(conf, q);
  }

  // ---- The body ----

  lemma {:induction false} FlattenSnoc(pieces: seq<string>, p: string)
    ensures Flatten(pieces + [p]) == Flatten(pieces) + p
  {
    if pieces == [] {
      assert [p][1..] == [] && [] + [p] == [p];
    } else {
      assert (pieces + [p])[1..] == pieces[1..] + [p];
      FlattenSnoc(pieces[1..], p);
    }
  }

  lemma {:induction false} PlainBodyText(conf: Conf, pieces: seq<string>)
    requires Plain(conf)
    ensures TextOf(conf, BodyBelow(false, pieces)) == Flatten(pieces)
  {
    if pieces != [] {
      var n := |pieces| - 1;
      var front, p := pieces[..n], pieces[n];
      PlainBodyText(conf, front);
      FlattenSnoc(front, p);
      assert front + [p] == pieces;
      Snoc(BodyBelow(false, front), SendBody(p));
    }
  }

  lemma {:induction false} ChunksSnoc(pieces: seq<string>, p: string)
    ensures Chunks(pieces + [p]) == Chunks(pieces) + Chunk(p)
  {
    if pieces == [] {
      assert [p][1..] == [] && [] + [p] == [p];
      assert Chunks([p]) == Chunk(p) + Chunks([]);
    } else {
      assert (pieces + [p])[1..] == pieces[1..] + [p];
      ChunksSnoc(pieces[1..], p);
    }
  }

  lemma TextOfThree(conf: Conf, cs: seq<Call>, a: Call, b: Call, c: Call)
    ensures TextOf(conf, cs + [a, b, c]) == TextOf(conf, cs) + (conf.text(a) + conf.text(b) + conf.text(c))
  {
    var x := cs + [a, b, c];
    var n := |cs|;
    assert x[..n + 2][..n + 1] == x[..n + 1] && x[..n + 1][..n] == cs;
    assert TextOf(conf, x) == TextOf(conf, x[..n + 2]) + conf.text(c);
    assert TextOf(conf, x[..n + 2]) == TextOf(conf, x[..n + 1]) + conf.text(b);
    assert TextOf(conf, x[..n + 1]) == TextOf(conf, cs) + conf.text(a);
  }

  lemma ChunkText(conf: Conf, below: seq<Call>, p: string)
    requires Plain(conf)
    ensures TextOf(conf, below + ChunkCalls(true, SendBody(p)).1) == TextOf(conf, below) + Chunk(p)
  {
    var a, b, c := SendBody(Numeral(|p|, 16) + CRLF), SendBody(p), SendBody(CRLF);
    TextOfThree(conf, below, a, b, c);
    assert conf.text(a) == a.data && conf.text(b) == b.data && conf.text(c) == c.data;
  }

  lemma {:induction false} ChunkedBodyText(conf: Conf, pieces: seq<string>)
    requires Plain(conf)
    ensures TextOf(conf, BodyBelow(true, pieces)) == Chunks(pieces)
  {
    if pieces != [] {
      var n := |pieces| - 1;
      var front, p := pieces[..n], pieces[n];
      ChunkedBodyText(conf, front);
      ChunksSnoc(front, p);
      assert front + [p] == pieces;
      ChunkText(conf, BodyBelow(true, front), p);
    }
  }

  lemma TextOfDone(conf: Conf)
    requires Plain(conf)
    ensures TextOf(conf, [SendBody(LAST_CHUNK), CompleteRequest]) == LAST_CHUNK
  {
    var last := SendBody(LAST_CHUNK);
    Snoc([], last);
    Snoc([last], CompleteRequest);
    assert [last] + [CompleteRequest] == [last, CompleteRequest] && [] + [last] == [last];
    assert TextOf(conf, [last]) == "" + conf.text(last);
  }

  /** With chunked encoding chosen, the bytes behind the header of a whole response decode to the
      body pieces put together, with nothing left over, exactly when none of the pieces is empty. */
  lemma ChunkedBodyDecodes(conf: Conf, r: Response)
    requires Plain(conf) && Legal(r) && Chunked(Framing(r.early) + Framing(r.late))
    ensures TextOf(conf, HeadBelow(r) + [CompleteHeader]) <= OutAfter(conf, CallsOf(r)).wire
    ensures var body := OutAfter(conf, CallsOf(r)).wire[|TextOf(conf, HeadBelow(r) + [CompleteHeader])|..];
      Dechunk(body) == Some((Flatten(Pieces(r.tail)), "")) <==> "" !in Pieces(r.tail)
  {
    var pieces := Pieces(r.tail);
    var head := HeadBelow(r) + [CompleteHeader];
    var done := [SendBody(LAST_CHUNK), CompleteRequest];
    WireIsNormalForm(conf, r);
    assert Normal(r) == head + (BodyBelow(true, pieces) + done);
    TextOfAppend(conf, head, BodyBelow(true, pieces) + done);
    TextOfAppend(conf, BodyBelow(true, pieces), done);
    ChunkedBodyText(conf, pieces);
    TextOfDone(conf);
    ChunkedRoundTrip(pieces);
    var wire := OutAfter(conf, CallsOf(r)).wire;
    assert wire == TextOf(conf, head) + (Chunks(pieces) + LAST_CHUNK);
  }

  /** Without it, they are just the body pieces put together. */
  lemma PlainBodyOnWire(conf: Conf, r: Response)
    requires Plain(conf) && Legal(r) && !Chunked(Framing(r.early) + Framing(r.late))
    ensures OutAfter(conf, CallsOf(r)).wire == TextOf(conf, HeadBelow(r) + [CompleteHeader]) + Flatten(Pieces(r.tail))
  {
    var body := BodyBelow(false, Pieces(r.tail));
    var head := HeadBelow(r) + [CompleteHeader];
    WireIsNormalForm(conf, r);
    TextOfAppend(conf, head, body + [CompleteRequest]);
    Snoc(body, CompleteRequest);
    PlainBodyText(conf, Pieces(r.tail));
    assert TextOf(conf, body + [CompleteRequest]) == TextOf(conf, body) + "";
  }
}
