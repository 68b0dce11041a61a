/** The response pipeline, Reordering(Chunking(ConLen(client))): what each layer does to a call, and
    what reaches the wire and the output buffer. */
module HttpLayers {
  import opened Wrappers
  import opened ChunkedCoding

  type Header = (string, string)

  /** A call of the RestfulClient interface that generates part of a response. */
  datatype Call =
    | Send100Continue
    | SendStatus(status: int, name: string)
    | SendHeader(header: Header)
    | SendContentLength(len: nat)
    | SendChunkedEncoding
    | CompleteHeader
    | SendBody(data: string)
    | CompleteRequest
    | Flush

  /** The size of the output buffer, and the text the client generates for each call. */
  datatype Conf = Conf(size: nat, text: Call -> string)

  /** All the layers need to know of the texts: a body is sent as it is, and some calls send nothing. */
  ghost predicate Plain(conf: Conf) {
    && (forall data :: conf.text(SendBody(data)) == data)
    && conf.text(SendChunkedEncoding) == "" && conf.text(CompleteRequest) == "" && conf.text(Flush) == ""
  }

  // ---- The client and its buffer ----

  datatype Out = Out(wire: string, buf: string)

  function All(o: Out): string {
    o.wire + o.buf
  }

  /** One character into the buffer; the one that finds it full goes into its last place, and the
      buffer is written out. */
  function Sputc(size: nat, o: Out, c: char): Out {
    if |o.buf| + 1 < size then Out(o.wire, o.buf + [c]) else Sync(Out(o.wire, o.buf + [c]))
  }

  function Sputn(size: nat, o: Out, s: string): Out {
    if s == "" then o else Sputc(size, Sputn(size, o, s[..|s| - 1]), s[|s| - 1])
  }

  function Sync(o: Out): Out {
    Out(o.wire + o.buf, "")
  }

  /** The calls after which the client flushes its buffer. */
  predicate Syncs(c: Call) {
    c.Send100Continue? || c.CompleteHeader? || c.Flush?
  }

  function ClientStep(conf: Conf, o: Out, c: Call): Out {
    if c.SendBody? then Out(o.wire + c.data, o.buf)
    else
      var p := Sputn(conf.size, o, conf.text(c));
      if Syncs(c) then Sync(p) else p
  }

  function ClientRun(conf: Conf, o: Out, cs: seq<Call>): Out {
    if cs == [] then o else ClientStep(conf, ClientRun(conf, o, cs[..|cs| - 1]), cs[|cs| - 1])
  }

  function TextOf(conf: Conf, cs: seq<Call>): string {
    if cs == [] then "" else TextOf(conf, cs[..|cs| - 1]) + conf.text(cs[|cs| - 1])
  }

  // ---- The filters: the calls each makes for one call, its next state ----

  datatype Action = FORWARD | INHIBIT | UNKNOWN

  function ConLenCalls(a: Action, c: Call): (Action, seq<Call>) {
    match c
    case SendStatus(status, _) => (if status == 204 || status == 304 then INHIBIT else FORWARD, [c])
    case SendContentLength(_) => (a, if a == FORWARD then [c] else [])
    case _ => (a, [c])
  }

  function ChunkCalls(enabled: bool, c: Call): (bool, seq<Call>) {
    match c
    case SendChunkedEncoding => (true, [SendHeader(("Transfer-Encoding", "chunked"))])
    case SendBody(data) =>
      (enabled, if enabled then [SendBody(Numeral(|data|, 16) + CRLF), c, SendBody(CRLF)] else [c])
    case CompleteRequest => (enabled, if enabled then [SendBody(LAST_CHUNK), c] else [c])
    case _ => (enabled, [c])
  }

  datatype Phase = EARLY_HEADERS | STATUS_SEEN | DATA

  datatype Reorder = Reorder(phase: Phase, contentLength: Option<nat>, headers: seq<Header>)

  function HeaderCalls(headers: seq<Header>): seq<Call> {
    if headers == [] then [] else HeaderCalls(headers[..|headers| - 1]) + [SendHeader(headers[|headers| - 1])]
  }

  function LengthCalls(len: Option<nat>): seq<Call> {
    if len.Some? then [SendContentLength(len.value)] else []
  }

  function ReorderCalls(r: Reorder, c: Call): (Reorder, seq<Call>) {
    match c
    case SendHeader(h) => if r.phase == DATA then (r, [c]) else (r.(headers := r.headers + [h]), [])
    case SendStatus(_, _) => (r.(phase := STATUS_SEEN), [c])
    case SendContentLength(len) =>
      if r.phase == EARLY_HEADERS then (r.(contentLength := Some(len)), []) else (r, [c])
    case CompleteHeader =>
      (r.(phase := DATA, headers := []), LengthCalls(r.contentLength) + HeaderCalls(r.headers) + [c])
    case _ => (r, [c])
  }

  // ---- Whole sequences of calls through each filter ----

  function ConLenAll(a: Action, cs: seq<Call>): (Action, seq<Call>) {
    if cs == [] then (a, [])
    else
      var (b, out) := ConLenAll(a, cs[..|cs| - 1]);
      var (b', more) := ConLenCalls(b, cs[|cs| - 1]);
      (b', out + more)
  }

  function ChunkAll(enabled: bool, cs: seq<Call>): (bool, seq<Call>) {
    if cs == [] then (enabled, [])
    else
      var (b, out) := ChunkAll(enabled, cs[..|cs| - 1]);
      var (b', more) := ChunkCalls(b, cs[|cs| - 1]);
      (b', out + more)
  }

  function ReorderAll(r: Reorder, cs: seq<Call>): (Reorder, seq<Call>) {
    if cs == [] then (r, [])
    else
      var (q, out) := ReorderAll(r, cs[..|cs| - 1]);
      var (q', more) := ReorderCalls(q, cs[|cs| - 1]);
      (q', out + more)
  }

  // ---- The layers on top of each other, call by call, with what each call returns ----

  /** 22 on the platforms this runs on; the result of a call that returns it is `-EINVAL`. */
  const EINVAL: int := 22

  datatype ConLenState = ConLenState(action: Action, out: Out)
  datatype ChunkState = ChunkState(enabled: bool, below: ConLenState)
  datatype ReorderState = ReorderState(own: Reorder, below: ChunkState)

  /** `send_content_length` before any status has been seen. */
  predicate Fails(a: Action, c: Call) {
    c.SendContentLength? && a == UNKNOWN
  }

  function ConLenStep(conf: Conf, s: ConLenState, c: Call): (ConLenState, int) {
    var (a, calls) := ConLenCalls(s.action, c);
    (ConLenState(a, ClientRun(conf, s.out, calls)), if Fails(s.action, c) then -EINVAL else |TextOf(conf, calls)|)
  }

  function ConLenRun(conf: Conf, s: ConLenState, cs: seq<Call>): (ConLenState, int) {
    if cs == [] then (s, 0)
    else
      var (t, m) := ConLenRun(conf, s, cs[..|cs| - 1]);
      var (u, n) := ConLenStep(conf, t, cs[|cs| - 1]);
      (u, m + n)
  }

  function ChunkStep(conf: Conf, s: ChunkState, c: Call): (ChunkState, int) {
    var (e, calls) := ChunkCalls(s.enabled, c);
    var (below, n) := ConLenRun(conf, s.below, calls);
    (ChunkState(e, below), n)
  }

  function ChunkRun(conf: Conf, s: ChunkState, cs: seq<Call>): (ChunkState, int) {
    if cs == [] then (s, 0)
    else
      var (t, m) := ChunkRun(conf, s, cs[..|cs| - 1]);
      var (u, n) := ChunkStep(conf, t, cs[|cs| - 1]);
      (u, m + n)
  }

  function ReorderStep(conf: Conf, s: ReorderState, c: Call): (ReorderState, int) {
    var (r, calls) := ReorderCalls(s.own, c);
    var (below, n) := ChunkRun(conf, s.below, calls);
    (ReorderState(r, below), n)
  }

  function ReorderRun(conf: Conf, s: ReorderState, cs: seq<Call>): (ReorderState, int) {
    if cs == [] then (s, 0)
    else
      var (t, m) := ReorderRun(conf, s, cs[..|cs| - 1]);
      var (u, n) := ReorderStep(conf, t, cs[|cs| - 1]);
      (u, m + n)
  }

  const FRESH := ReorderState(Reorder(EARLY_HEADERS, None, []), ChunkState(false, ConLenState(UNKNOWN, Out("", ""))))

  /** The calls that reach the client. */
  function Bottom(cs: seq<Call>): seq<Call> {
    ConLenAll(UNKNOWN, ChunkAll(false, ReorderAll(FRESH.own, cs).1).1).1
  }

  // ---- Sequences in two parts ----

  lemma SplitLast<T>(a: seq<T>, b: seq<T>)
    requires b != []
    ensures (a + b)[..|a + b| - 1] == a + b[..|b| - 1] && (a + b)[|a + b| - 1] == b[|b| - 1]
  {
  }

  lemma Snoc<T>(a: seq<T>, x: T)
    ensures (a + [x])[..|a + [x]| - 1] == a && (a + [x])[|a + [x]| - 1] == x
    ensures a + [x] != []
  {
  }

  lemma {:induction false} TextOfAppend(conf: Conf, a: seq<Call>, b: seq<Call>)
    ensures TextOf(conf, a + b) == TextOf(conf, a) + TextOf(conf, b)
  {
    if b == [] {
      assert a + b == a;
    } else {
      var n := |b| - 1;
      SplitLast(a, b);
      TextOfAppend(conf, a, b[..n]);
      assert TextOf(conf, a + b) == TextOf(conf, a + b[..n]) + conf.text(b[n]);
    }
  }

  lemma {:induction false} ClientRunAppend(conf: Conf, o: Out, a: seq<Call>, b: seq<Call>)
    ensures ClientRun(conf, o, a + b) == ClientRun(conf, ClientRun(conf, o, a), b)
  {
    if b == [] {
      assert a + b == a;
    } else {
      SplitLast(a, b);
      ClientRunAppend(conf, o, a, b[..|b| - 1]);
    }
  }

  lemma {:induction false} ConLenAllAppend(x: Action, a: seq<Call>, b: seq<Call>)
    ensures ConLenAll(x, a + b).0 == ConLenAll(ConLenAll(x, a).0, b).0
    ensures ConLenAll(x, a + b).1 == ConLenAll(x, a).1 + ConLenAll(ConLenAll(x, a).0, b).1
  {
    if b == [] {
      assert a + b == a;
    } else {
      SplitLast(a, b);
      ConLenAllAppend(x, a, b[..|b| - 1]);
    }
  }

  lemma {:induction false} ChunkAllAppend(x: bool, a: seq<Call>, b: seq<Call>)
    ensures ChunkAll(x, a + b).0 == ChunkAll(ChunkAll(x, a).0, b).0
    ensures ChunkAll(x, a + b).1 == ChunkAll(x, a).1 + ChunkAll(ChunkAll(x, a).0, b).1
  {
    if b == [] {
      assert a + b == a;
    } else {
      SplitLast(a, b);
      ChunkAllAppend(x, a, b[..|b| - 1]);
    }
  }

  lemma {:induction false} ReorderAllAppend(x: Reorder, a: seq<Call>, b: seq<Call>)
    ensures ReorderAll(x, a + b).0 == ReorderAll(ReorderAll(x, a).0, b).0
    ensures ReorderAll(x, a + b).1 == ReorderAll(x, a).1 + ReorderAll(ReorderAll(x, a).0, b).1
  {
    if b == [] {
      assert a + b == a;
    } else {
      SplitLast(a, b);
      ReorderAllAppend(x, a, b[..|b| - 1]);
    }
  }

  // ---- Running the layers is passing the calls down ----

  lemma {:induction false} ConLenRunIsAll(conf: Conf, s: ConLenState, cs: seq<Call>)
    ensures ConLenRun(conf, s, cs).0 ==
      ConLenState(ConLenAll(s.action, cs).0, ClientRun(conf, s.out, ConLenAll(s.action, cs).1))
  {
    if cs != [] {
      var n := |cs| - 1;
      ConLenRunIsAll(conf, s, cs[..n]);
      var (a, out) := ConLenAll(s.action, cs[..n]);
      ClientRunAppend(conf, s.out, out, ConLenCalls(a, cs[n]).1);
    }
  }

  lemma {:induction false} ChunkRunIsAll(conf: Conf, s: ChunkState, cs: seq<Call>)
    ensures ChunkRun(conf, s, cs).0 == ChunkState(ChunkAll(s.enabled, cs).0,
      ConLenRun(conf, s.below, ChunkAll(s.enabled, cs).1).0)
  {
    if cs != [] {
      var n := |cs| - 1;
      ChunkRunIsAll(conf, s, cs[..n]);
      var (e, out) := ChunkAll(s.enabled, cs[..n]);
      ConLenRunAppend(conf, s.below, out, ChunkCalls(e, cs[n]).1);
    }
  }

  lemma {:induction false} ReorderRunIsAll(conf: Conf, s: ReorderState, cs: seq<Call>)
    ensures ReorderRun(conf, s, cs).0 == ReorderState(ReorderAll(s.own, cs).0,
      ChunkRun(conf, s.below, ReorderAll(s.own, cs).1).0)
  {
    if cs != [] {
      var n := |cs| - 1;
      ReorderRunIsAll(conf, s, cs[..n]);
      var (r, out) := ReorderAll(s.own, cs[..n]);
      ChunkRunAppend(conf, s.below, out, ReorderCalls(r, cs[n]).1);
    }
  }

  lemma {:induction false} ConLenRunAppend(conf: Conf, s: ConLenState, a: seq<Call>, b: seq<Call>)
    ensures ConLenRun(conf, s, a + b).0 == ConLenRun(conf, ConLenRun(conf, s, a).0, b).0
    ensures ConLenRun(conf, s, a + b).1 == ConLenRun(conf, s, a).1 + ConLenRun(conf, ConLenRun(conf, s, a).0, b).1
  {
    if b == [] {
      assert a + b == a;
    } else {
      SplitLast(a, b);
      ConLenRunAppend(conf, s, a, b[..|b| - 1]);
    }
  }

  lemma {:induction false} ChunkRunAppend(conf: Conf, s: ChunkState, a: seq<Call>, b: seq<Call>)
    ensures ChunkRun(conf, s, a + b).0 == ChunkRun(conf, ChunkRun(conf, s, a).0, b).0
    ensures ChunkRun(conf, s, a + b).1 == ChunkRun(conf, s, a).1 + ChunkRun(conf, ChunkRun(conf, s, a).0, b).1
  {
    if b == [] {
      assert a + b == a;
    } else {
      SplitLast(a, b);
      ChunkRunAppend(conf, s, a, b[..|b| - 1]);
    }
  }

  /** Driving the whole stack call by call leaves the client where the calls that reach it leave it. */
  lemma StackIsBottom(conf: Conf, cs: seq<Call>)
    ensures ReorderRun(conf, FRESH, cs).0.below.below.out == ClientRun(conf, Out("", ""), Bottom(cs))
  {
    ReorderRunIsAll(conf, FRESH, cs);
    ChunkRunIsAll(conf, FRESH.below, ReorderAll(FRESH.own, cs).1);
    ConLenRunIsAll(conf, FRESH.below.below, ChunkAll(false, ReorderAll(FRESH.own, cs).1).1);
  }

  // ---- The buffer ----

  lemma SputcKeeps(size: nat, o: Out, c: char)
    ensures All(Sputc(size, o, c)) == All(o) + [c]
    ensures size >= 1 && |o.buf| < size ==> |Sputc(size, o, c).buf| < size
    ensures o.wire <= Sputc(size, o, c).wire
  {
    assert o.wire + (o.buf + [c]) == o.wire + o.buf + [c];
    assert o.wire + o.buf + [c] + "" == o.wire + o.buf + [c];
  }

  lemma {:induction false} SputnKeeps(size: nat, o: Out, s: string)
    ensures All(Sputn(size, o, s)) == All(o) + s
    ensures size >= 1 && |o.buf| < size ==> |Sputn(size, o, s).buf| < size
    ensures o.wire <= Sputn(size, o, s).wire
  {
    if s != "" {
      var n := |s| - 1;
      SputnKeeps(size, o, s[..n]);
      SputcKeeps(size, Sputn(size, o, s[..n]), s[n]);
      assert s == s[..n] + [s[n]];
    }
  }

  lemma {:induction false} SputnAppend(size: nat, o: Out, s: string, t: string)
    ensures Sputn(size, o, s + t) == Sputn(size, Sputn(size, o, s), t)
  {
    if t == "" {
      assert s + t == s;
    } else {
      SplitLast(s, t);
      SputnAppend(size, o, s, t[..|t| - 1]);
    }
  }

  /** What fits stays in the buffer. */
  lemma {:induction false} SputnBuffers(size: nat, o: Out, s: string)
    requires |o.buf| + |s| < size
    ensures Sputn(size, o, s) == Out(o.wire, o.buf + s)
  {
    if s == "" {
      assert o.buf + s == o.buf;
    } else {
      SputnBuffers(size, o, s[..|s| - 1]);
      assert o.buf + s[..|s| - 1] + [s[|s| - 1]] == o.buf + s;
    }
  }

  /** The message to go on, the end of the header and a flush put all there is on the wire at once. */
  lemma FlushesAtOnce(conf: Conf, o: Out, c: Call)
    requires c.Send100Continue? || c.CompleteHeader? || c.Flush?
    ensures ClientStep(conf, o, c) == Out(All(o) + conf.text(c), "")
  {
    SputnKeeps(conf.size, o, conf.text(c));
  }

  /** A piece of the body goes out by itself; the other calls go through the buffer and stay there as long
      as they fit. */
  lemma OtherCallsStep(conf: Conf, o: Out, c: Call)
    requires Plain(conf)
    ensures c.SendBody? ==> ClientStep(conf, o, c) == Out(o.wire + c.data, o.buf)
    ensures c.CompleteRequest? || c.SendChunkedEncoding? ==> ClientStep(conf, o, c) == o
    ensures (c.SendStatus? || c.SendHeader? || c.SendContentLength?) && |o.buf| + |conf.text(c)| < conf.size ==>
      ClientStep(conf, o, c) == Out(o.wire, o.buf + conf.text(c))
    ensures o.wire <= ClientStep(conf, o, c).wire
  {
    SputnKeeps(conf.size, o, conf.text(c));
    if |o.buf| + |conf.text(c)| < conf.size { SputnBuffers(conf.size, o, conf.text(c)); }
  }

  lemma {:induction false} WireGrows(conf: Conf, o: Out, cs: seq<Call>)
    ensures o.wire <= ClientRun(conf, o, cs).wire
  {
    if cs != [] {
      var n := |cs| - 1;
      WireGrows(conf, o, cs[..n]);
      SputnKeeps(conf.size, ClientRun(conf, o, cs[..n]), conf.text(cs[n]));
    }
  }

  /** Whether the buffer is known to be empty after a call. */
  predicate EmptyAfter(empty: bool, c: Call) {
    Syncs(c) || (empty && (c.SendBody? || c.SendChunkedEncoding? || c.CompleteRequest?))
  }

  predicate EmptyAfterAll(empty: bool, cs: seq<Call>) {
    if cs == [] then empty else EmptyAfter(EmptyAfterAll(empty, cs[..|cs| - 1]), cs[|cs| - 1])
  }

  /** The body, which goes past the buffer, is only sent when the buffer is empty. */
  predicate BodyInOrder(empty: bool, cs: seq<Call>) {
    cs == [] ||
      (BodyInOrder(empty, cs[..|cs| - 1]) && (cs[|cs| - 1].SendBody? ==> EmptyAfterAll(empty, cs[..|cs| - 1])))
  }

  lemma StepOrderKept(conf: Conf, o: Out, c: Call)
    requires Plain(conf) && (c.SendBody? ==> o.buf == "")
    ensures All(ClientStep(conf, o, c)) == All(o) + conf.text(c)
    ensures EmptyAfter(o.buf == "", c) ==> ClientStep(conf, o, c).buf == ""
  {
    SputnKeeps(conf.size, o, conf.text(c));
    if !c.SendBody? {
      var p := Sputn(conf.size, o, conf.text(c));
      assert All(Sync(p)) == All(p);
    }
  }

  /** Then the wire followed by the buffer holds all that was generated, in the order of the calls,
      whatever the size of the buffer. */
  lemma {:induction false} OrderKept(conf: Conf, o: Out, cs: seq<Call>)
    requires Plain(conf) && BodyInOrder(o.buf == "", cs)
    ensures All(ClientRun(conf, o, cs)) == All(o) + TextOf(conf, cs)
    ensures EmptyAfterAll(o.buf == "", cs) ==> ClientRun(conf, o, cs).buf == ""
  {
    if cs != [] {
      var n := |cs| - 1;
      OrderKept(conf, o, cs[..n]);
      StepOrderKept(conf, ClientRun(conf, o, cs[..n]), cs[n]);
    }
  }

  /** Whatever the order of the calls, the number of bytes is right. */
  lemma {:induction false} BytesKept(conf: Conf, o: Out, cs: seq<Call>)
    requires Plain(conf)
    ensures |All(ClientRun(conf, o, cs))| == |All(o)| + |TextOf(conf, cs)|
  {
    if cs != [] {
      var n := |cs| - 1;
      BytesKept(conf, o, cs[..n]);
      SputnKeeps(conf.size, ClientRun(conf, o, cs[..n]), conf.text(cs[n]));
    }
  }
}
