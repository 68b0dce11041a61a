/** The objects of the pipeline: the output buffer over the connection, the client, and the filters,
    each holding the one below it. A filter's `Handle` takes every call of the interface; a call that
    the filter does not override is passed on, as the base decorator does. */
module HttpObjects {
  import opened Wrappers
  import opened ChunkedCoding
  import L = HttpLayers
  import N = HttpNormalForm
  import A = HttpAccounting

  /** The connection: all that was written to it. */
  class Wire {
    var bytes: string

    constructor ()
      ensures bytes == ""
    {
      bytes := "";
    }

    method WriteData(data: string) returns (len: int)
      modifies this
      ensures bytes == old(bytes) + data && len == |data|
    {
      bytes := bytes + data;
      len := |data|;
    }
  }

  /** `StaticOutputBufferer`: the put area is the array less its last place, which takes the character
      that overflows. */
  class StaticOutputBufferer {
    const sink: Wire
    const buffer: array<char>
    var pptr: nat

    ghost predicate Valid()
      reads this
    {
      pptr < buffer.Length
    }

    ghost function View(): L.Out
      requires Valid()
      reads this, sink, buffer
    {
      L.Out(sink.bytes, buffer[..pptr])
    }

    constructor (sink: Wire, size: nat)
      requires size >= 1
      ensures Valid() && this.sink == sink && fresh(buffer) && buffer.Length == size
      ensures View() == L.Out(sink.bytes, "")
    {
      this.sink := sink;
      buffer := new char[size](_ => ' ');
      pptr := 0;
    }

    method Sync()
      requires pptr <= buffer.Length
      modifies this`pptr, sink
      ensures Valid() || buffer.Length == 0
      ensures pptr == 0 && sink.bytes == old(sink.bytes) + old(buffer[..pptr])
    {
      var len := pptr;
      pptr := 0;
      var _ := sink.WriteData(buffer[..len]);
    }

    method Overflow(c: char)
      requires Valid()
      modifies this`pptr, sink, buffer
      ensures Valid() && pptr == 0
      ensures sink.bytes == old(sink.bytes) + (old(buffer[..pptr]) + [c])
    {
      buffer[pptr] := c;
      pptr := pptr + 1;
      Sync();
    }

    /** `xsputn`, one `sputc` after another. */
    method Sputn(s: string) returns (n: int)
      requires Valid()
      modifies this`pptr, sink, buffer
      ensures Valid() && View() == L.Sputn(buffer.Length, old(View()), s) && n == |s|
    {
      var i := 0;
      while i < |s|
        invariant 0 <= i <= |s| && Valid()
        invariant View() == L.Sputn(buffer.Length, old(View()), s[..i])
      {
        L.Snoc(s[..i], s[i]);
        assert s[..i + 1] == s[..i] + [s[i]];
        ghost var before := View();
        if pptr + 1 < buffer.Length {
          buffer[pptr] := s[i];
          pptr := pptr + 1;
        } else {
          Overflow(s[i]);
        }
        assert View() == L.Sputc(buffer.Length, before, s[i]);
        i := i + 1;
      }
      assert s[..i] == s;
      n := |s|;
    }
  }

  /** Lengths are 64-bit numbers. */
  predicate Fits(c: L.Call) {
    match c
    case SendContentLength(len) => len < SIZE_LIMIT
    case SendBody(data) => |data| < SIZE_LIMIT
    case _ => true
  }

  const CONLEN_BUF_SIZE: nat := 128
  const CHUNK_SIZE_BUF: nat := 32
  const SIZE_LIMIT: nat := 0x1_0000_0000_0000_0000

  /** A 64-bit number has at most 20 decimal and 16 hexadecimal digits. */
  lemma NumbersFit(n: nat)
    requires n < SIZE_LIMIT
    ensures |Numeral(n, 10)| <= 20 && |Numeral(n, 16)| <= 16
  {
    assert Power(10, 10) == 10_000_000_000;
    assert Power(10, 20) == 10 * (10 * (10 * (10 * (10 * (10 * (10 * (10 * (10 * (10 * Power(10, 10))))))))));
    assert Power(16, 8) == 0x1_0000_0000;
    assert Power(16, 16) == 16 * (16 * (16 * (16 * (16 * (16 * (16 * (16 * Power(16, 8))))))));
    NumeralLength(n, 10, 20);
    NumeralLength(n, 16, 16);
  }

  lemma SputnFour(size: nat, o: L.Out, a: string, b: string, c: string, d: string)
    ensures L.Sputn(size, L.Sputn(size, L.Sputn(size, L.Sputn(size, o, a), b), c), d) == L.Sputn(size, o, a + b + c + d)
  {
    L.SputnAppend(size, o, a, b);
    L.SputnAppend(size, o, a + b, c);
    L.SputnAppend(size, o, a + b + c, d);
  }

  class ClientIO {
    const wire: Wire
    const txbuf: StaticOutputBufferer
    const env: N.Env
    ghost const repr: set<object>

    ghost predicate Valid()
      reads this, repr
    {
      && repr == {this, wire, txbuf, txbuf.buffer}
      && txbuf.sink == wire && txbuf.Valid()
    }

    ghost function Conf(): L.Conf {
      N.ClientConf(txbuf.buffer.Length, env)
    }

    ghost function View(): L.Out
      requires Valid()
      reads this, repr
    {
      txbuf.View()
    }

    constructor (wire: Wire, size: nat, env: N.Env)
      requires size >= 1
      ensures Valid() && this.wire == wire && fresh(repr - {wire})
      ensures txbuf.buffer.Length == size && this.env == env
      ensures View() == L.Out(wire.bytes, "")
    {
      this.wire, this.env := wire, env;
      var b := new StaticOutputBufferer(wire, size);
      txbuf := b;
      repr := {this, wire, b, b.buffer};
    }

    method FlushBuffer()
      requires Valid()
      modifies repr
      ensures Valid() && View() == L.Sync(old(View()))
    {
      txbuf.Sync();
    }

    /** `send_header`: four writes. */
    method PutHeader(name: string, value: string) returns (sent: int)
      requires Valid()
      modifies repr
      ensures Valid() && View() == L.Sputn(Conf().size, old(View()), name + ": " + value + CRLF)
      ensures sent == |name + ": " + value + CRLF|
    {
      SputnFour(Conf().size, View(), name, ": ", value, CRLF);
      sent := 0;
      var n := txbuf.Sputn(name);
      sent := sent + n;
      n := txbuf.Sputn(": ");
      sent := sent + n;
      n := txbuf.Sputn(value);
      sent := sent + n;
      n := txbuf.Sputn(CRLF);
      sent := sent + n;
    }

    /** `complete_header` before its flush: the date if there is one, the connection line, the end. */
    method PutTrailer() returns (sent: int)
      requires Valid()
      modifies repr
      ensures Valid() && View() == L.Sputn(Conf().size, old(View()), env.date + N.Connection(env.keepAlive) + CRLF)
      ensures sent == |env.date + N.Connection(env.keepAlive) + CRLF|
    {
      L.SputnAppend(Conf().size, View(), env.date, N.Connection(env.keepAlive));
      L.SputnAppend(Conf().size, View(), env.date + N.Connection(env.keepAlive), CRLF);
      sent := 0;
      if env.date != "" {
        var n := txbuf.Sputn(env.date);
        sent := sent + n;
      }
      if env.keepAlive {
        var n := txbuf.Sputn("Connection: Keep-Alive" + CRLF);
        sent := sent + n;
      } else {
        var n := txbuf.Sputn("Connection: close" + CRLF);
        sent := sent + n;
      }
      var n := txbuf.Sputn(CRLF);
      sent := sent + n;
    }

    method Handle(c: L.Call) returns (sent: int)
      requires Valid() && Fits(c)
      modifies repr
      ensures Valid() && View() == L.ClientStep(Conf(), old(View()), c)
      ensures sent == |Conf().text(c)|
      ensures Shows(c, Conf().text(c), old(View()), wire.bytes, txbuf.pptr)
    {
      StepShows(Conf(), View(), c);
      match c {
        case Send100Continue =>
          sent := txbuf.Sputn("HTTP/1.1 100 CONTINUE" + CRLF + CRLF);
          FlushBuffer();
        case SendStatus(status, name) =>
          var statusbuf := N.Printed(N.STATUS_BUF_SIZE, N.StatusLine(status, name), env.beyond);
          sent := txbuf.Sputn(statusbuf);
        case SendHeader(h) =>
          sent := PutHeader(h.0, h.1);
        case SendContentLength(len) =>
          var sizebuf := "Content-Length: " + Numeral(len, 10) + CRLF;
          NumbersFit(len);
          assert |sizebuf| < CONLEN_BUF_SIZE;
          sent := txbuf.Sputn(sizebuf);
        case SendChunkedEncoding =>
          sent := 0;
        case CompleteHeader =>
          sent := PutTrailer();
          FlushBuffer();
        case SendBody(data) =>
          sent := wire.WriteData(data);
        case CompleteRequest =>
          sent := 0;
        case Flush =>
          FlushBuffer();
          sent := 0;
      }
    }
  }

  /** What the connection shows of a call: the message to go on, the end of the header and a flush bring
      all there is, with nothing left in the buffer; a piece of the body comes by itself; and nothing that
      was there goes away. */
  ghost predicate Shows(c: L.Call, text: string, o: L.Out, bytes: string, held: nat) {
    && (c.Send100Continue? || c.CompleteHeader? || c.Flush? ==> bytes == o.wire + o.buf + text && held == 0)
    && (c.SendBody? ==> bytes == o.wire + c.data && held == |o.buf|)
    && (!c.SendBody? ==> |bytes| + held == |o.wire| + |o.buf| + |text|)
    && o.wire <= bytes
  }

  lemma StepShows(conf: L.Conf, o: L.Out, c: L.Call)
    requires L.Plain(conf)
    ensures var t := L.ClientStep(conf, o, c); Shows(c, conf.text(c), o, t.wire, |t.buf|)
  {
    if c.Send100Continue? || c.CompleteHeader? || c.Flush? { L.FlushesAtOnce(conf, o, c); }
    if !c.SendBody? { L.StepOrderKept(conf, o, c); }
    L.OtherCallsStep(conf, o, c);
    assert !c.SendBody? ==> |L.All(L.ClientStep(conf, o, c))| == |L.All(o)| + |conf.text(c)|;
  }

  lemma ClientRunOne(conf: L.Conf, o: L.Out, c: L.Call)
    ensures L.ClientRun(conf, o, [c]) == L.ClientStep(conf, o, c)
    ensures L.TextOf(conf, [c]) == conf.text(c)
  {
    L.Snoc([], c);
    assert [] + [c] == [c] && "" + conf.text(c) == conf.text(c);
  }

  class ConLenControllingFilter {
    var action: L.Action
    const client: ClientIO
    ghost const repr: set<object>

    ghost predicate Valid()
      reads this, repr
    {
      this in repr && client in repr && client.repr == repr - {this} && client.Valid()
    }

    ghost function View(): L.ConLenState
      requires Valid()
      reads this, repr
    {
      L.ConLenState(action, client.View())
    }

    constructor (client: ClientIO)
      requires client.Valid()
      ensures Valid() && this.client == client && fresh(this) && repr == client.repr + {this}
      ensures View() == L.ConLenState(L.UNKNOWN, client.View())
    {
      this.client, action := client, L.UNKNOWN;
      repr := client.repr + {this};
    }

    method Handle(c: L.Call) returns (sent: int)
      requires Valid() && Fits(c)
      modifies repr
      ensures Valid()
      ensures View() == L.ConLenStep(client.Conf(), old(View()), c).0
      ensures sent == L.ConLenStep(client.Conf(), old(View()), c).1
    {
      ClientRunOne(client.Conf(), client.View(), c);
      match c {
        case SendStatus(status, _) =>
          if 204 == status || 304 == status {
            action := L.INHIBIT;
          } else {
            action := L.FORWARD;
          }
          sent := client.Handle(c);
        case SendContentLength(_) =>
          match action {
            case FORWARD => sent := client.Handle(c);
            case INHIBIT => sent := 0;
            case UNKNOWN => sent := -L.EINVAL;
          }
        case _ =>
          sent := client.Handle(c);
      }
    }
  }

  lemma ConLenRunSnoc(conf: L.Conf, s: L.ConLenState, cs: seq<L.Call>, c: L.Call)
    ensures L.ConLenRun(conf, s, cs + [c]).0 == L.ConLenStep(conf, L.ConLenRun(conf, s, cs).0, c).0
    ensures L.ConLenRun(conf, s, cs + [c]).1 ==
      L.ConLenRun(conf, s, cs).1 + L.ConLenStep(conf, L.ConLenRun(conf, s, cs).0, c).1
  {
    L.Snoc(cs, c);
  }

  lemma ChunkRunSnoc(conf: L.Conf, s: L.ChunkState, cs: seq<L.Call>, c: L.Call)
    ensures L.ChunkRun(conf, s, cs + [c]).0 == L.ChunkStep(conf, L.ChunkRun(conf, s, cs).0, c).0
    ensures L.ChunkRun(conf, s, cs + [c]).1 ==
      L.ChunkRun(conf, s, cs).1 + L.ChunkStep(conf, L.ChunkRun(conf, s, cs).0, c).1
  {
    L.Snoc(cs, c);
  }

  lemma ChunkIsThreeCalls(c: L.Call, size: L.Call, end: L.Call)
    requires c.SendBody? && size == L.SendBody(Numeral(|c.data|, 16) + CRLF) && end == L.SendBody(CRLF)
    ensures [] + [size] + [c] + [end] == L.ChunkCalls(true, c).1
  {
  }

  class ChunkingFilter {
    var chunkingEnabled: bool
    const decoratee: ConLenControllingFilter
    ghost const repr: set<object>

    ghost predicate Valid()
      reads this, repr
    {
      this in repr && decoratee in repr && decoratee.repr == repr - {this} && decoratee.Valid()
    }

    ghost function Conf(): L.Conf {
      decoratee.client.Conf()
    }

    ghost function View(): L.ChunkState
      requires Valid()
      reads this, repr
    {
      L.ChunkState(chunkingEnabled, decoratee.View())
    }

    constructor (decoratee: ConLenControllingFilter)
      requires decoratee.Valid()
      ensures Valid() && this.decoratee == decoratee && fresh(this) && repr == decoratee.repr + {this}
      ensures View() == L.ChunkState(false, decoratee.View())
    {
      this.decoratee, chunkingEnabled := decoratee, false;
      repr := decoratee.repr + {this};
    }

    /** One more call to the filter below, on top of those in `done`. */
    method Pass(c: L.Call, sent: int, ghost start: L.ConLenState, ghost done: seq<L.Call>) returns (total: int)
      requires Valid() && Fits(c)
      requires decoratee.View() == L.ConLenRun(Conf(), start, done).0 && sent == L.ConLenRun(Conf(), start, done).1
      modifies repr
      ensures Valid() && chunkingEnabled == old(chunkingEnabled)
      ensures decoratee.View() == L.ConLenRun(Conf(), start, done + [c]).0
      ensures total == L.ConLenRun(Conf(), start, done + [c]).1
    {
      ConLenRunSnoc(Conf(), start, done, c);
      var n := decoratee.Handle(c);
      total := sent + n;
    }

    /** `send_body` with chunking: the size line, the data, the end of the line. */
    method SendChunk(c: L.Call) returns (sent: int)
      requires Valid() && Fits(c) && c.SendBody?
      modifies repr
      ensures Valid() && chunkingEnabled == old(chunkingEnabled)
      ensures decoratee.View() == L.ConLenRun(Conf(), old(decoratee.View()), L.ChunkCalls(true, c).1).0
      ensures sent == L.ConLenRun(Conf(), old(decoratee.View()), L.ChunkCalls(true, c).1).1
    {
      ghost var start := decoratee.View();
      var chunkSize := Numeral(|c.data|, 16) + CRLF;
      NumbersFit(|c.data|);
      assert |chunkSize| < CHUNK_SIZE_BUF;
      var size, end := L.SendBody(chunkSize), L.SendBody(CRLF);
      ChunkIsThreeCalls(c, size, end);
      sent := Pass(size, 0, start, []);
      sent := Pass(c, sent, start, [] + [size]);
      sent := Pass(end, sent, start, [] + [size] + [c]);
    }

    /** `complete_request` with chunking: the last chunk first. */
    method SendLastChunk(c: L.Call) returns (sent: int)
      requires Valid() && c.CompleteRequest?
      modifies repr
      ensures Valid() && chunkingEnabled == old(chunkingEnabled)
      ensures decoratee.View() == L.ConLenRun(Conf(), old(decoratee.View()), L.ChunkCalls(true, c).1).0
      ensures sent == L.ConLenRun(Conf(), old(decoratee.View()), L.ChunkCalls(true, c).1).1
    {
      ghost var start := decoratee.View();
      sent := Pass(L.SendBody(LAST_CHUNK), 0, start, []);
      sent := Pass(c, sent, start, [] + [L.SendBody(LAST_CHUNK)]);
      assert [] + [L.SendBody(LAST_CHUNK)] + [c] == L.ChunkCalls(true, c).1;
    }

    method PassOne(c: L.Call) returns (sent: int)
      requires Valid() && Fits(c)
      modifies repr
      ensures Valid() && chunkingEnabled == old(chunkingEnabled)
      ensures decoratee.View() == L.ConLenRun(Conf(), old(decoratee.View()), [c]).0
      ensures sent == L.ConLenRun(Conf(), old(decoratee.View()), [c]).1
    {
      assert [] + [c] == [c];
      sent := Pass(c, 0, decoratee.View(), []);
    }

    method Handle(c: L.Call) returns (sent: int)
      requires Valid() && Fits(c)
      modifies repr
      ensures Valid()
      ensures View() == L.ChunkStep(Conf(), old(View()), c).0
      ensures sent == L.ChunkStep(Conf(), old(View()), c).1
    {
      if c.SendChunkedEncoding? {
        chunkingEnabled := true;
        sent := PassOne(L.SendHeader(("Transfer-Encoding", "chunked")));
      } else if c.SendBody? && chunkingEnabled {
        sent := SendChunk(c);
      } else if c.CompleteRequest? && chunkingEnabled {
        sent := SendLastChunk(c);
      } else {
        sent := PassOne(c);
      }
    }
  }

  class ReorderingFilter {
    var phase: L.Phase
    var contentLength: Option<nat>
    var headers: seq<L.Header>
    const decoratee: ChunkingFilter
    ghost const repr: set<object>

    ghost predicate Valid()
      reads this, repr
    {
      && this in repr && decoratee in repr && decoratee.repr == repr - {this} && decoratee.Valid()
      && (contentLength.Some? ==> contentLength.value < SIZE_LIMIT)
    }

    ghost function Conf(): L.Conf {
      decoratee.Conf()
    }

    ghost function View(): L.ReorderState
      requires Valid()
      reads this, repr
    {
      L.ReorderState(L.Reorder(phase, contentLength, headers), decoratee.View())
    }

    constructor (decoratee: ChunkingFilter)
      requires decoratee.Valid()
      ensures Valid() && this.decoratee == decoratee && fresh(this) && repr == decoratee.repr + {this}
      ensures View() == L.ReorderState(L.FRESH.own, decoratee.View())
    {
      this.decoratee := decoratee;
      phase, contentLength, headers := L.EARLY_HEADERS, None, [];
      repr := decoratee.repr + {this};
    }

    /** One more call to the filter below, on top of those in `done`. */
    method Pass(c: L.Call, sent: int, ghost start: L.ChunkState, ghost done: seq<L.Call>) returns (total: int)
      requires Valid() && Fits(c)
      requires decoratee.View() == L.ChunkRun(Conf(), start, done).0 && sent == L.ChunkRun(Conf(), start, done).1
      modifies decoratee.repr
      ensures Valid()
      ensures decoratee.View() == L.ChunkRun(Conf(), start, done + [c]).0
      ensures total == L.ChunkRun(Conf(), start, done + [c]).1
    {
      ChunkRunSnoc(Conf(), start, done, c);
      var n := decoratee.Handle(c);
      total := sent + n;
    }

    method Handle(c: L.Call) returns (sent: int)
      requires Valid() && Fits(c)
      modifies repr
      ensures Valid()
      ensures View() == L.ReorderStep(Conf(), old(View()), c).0
      ensures sent == L.ReorderStep(Conf(), old(View()), c).1
    {
      ghost var start := decoratee.View();
      assert [] + [c] == [c];
      match c {
        case SendHeader(h) =>
          match phase {
            case EARLY_HEADERS =>
              headers := headers + [h];
              sent := 0;
            case STATUS_SEEN =>
              headers := headers + [h];
              sent := 0;
            case DATA =>
              sent := Pass(c, 0, start, []);
          }
        case SendStatus(_, _) =>
          phase := L.STATUS_SEEN;
          sent := Pass(c, 0, start, []);
        case SendContentLength(len) =>
          if L.EARLY_HEADERS == phase {
            contentLength := Some(len);
            sent := 0;
          } else {
            sent := Pass(c, 0, start, []);
          }
        case CompleteHeader =>
          phase := L.DATA;
          sent := ReleaseHeld();
          ghost var done := L.LengthCalls(contentLength) + L.HeaderCalls(headers);
          headers := [];
          sent := Pass(c, sent, start, done);
        case _ =>
          sent := Pass(c, 0, start, []);
      }
    }

    /** The part of `complete_header` that sends what was held. */
    method ReleaseHeld() returns (sent: int)
      requires Valid()
      modifies decoratee.repr
      ensures Valid()
      ensures decoratee.View() ==
        L.ChunkRun(Conf(), old(decoratee.View()), L.LengthCalls(contentLength) + L.HeaderCalls(headers)).0
      ensures sent == L.ChunkRun(Conf(), old(decoratee.View()), L.LengthCalls(contentLength) + L.HeaderCalls(headers)).1
    {
      ghost var start, len := decoratee.View(), L.LengthCalls(contentLength);
      sent := 0;
      if contentLength.Some? {
        sent := Pass(L.SendContentLength(contentLength.value), sent, start, []);
        assert [] + [L.SendContentLength(contentLength.value)] == len;
      }
      sent := ReleaseHeaders(sent, start, len);
    }

    /** The loop over the held headers. */
    method ReleaseHeaders(sentBefore: int, ghost start: L.ChunkState, ghost done: seq<L.Call>) returns (sent: int)
      requires Valid()
      requires decoratee.View() == L.ChunkRun(Conf(), start, done).0 && sentBefore == L.ChunkRun(Conf(), start, done).1
      modifies decoratee.repr
      ensures Valid()
      ensures decoratee.View() == L.ChunkRun(Conf(), start, done + L.HeaderCalls(headers)).0
      ensures sent == L.ChunkRun(Conf(), start, done + L.HeaderCalls(headers)).1
    {
      sent := sentBefore;
      ghost var calls := done;
      assert done + L.HeaderCalls(headers[..0]) == done;
      for i := 0 to |headers|
        invariant Valid() && calls == done + L.HeaderCalls(headers[..i])
        invariant decoratee.View() == L.ChunkRun(Conf(), start, calls).0 && sent == L.ChunkRun(Conf(), start, calls).1
      {
        HeaderCallsSnoc(headers, i);
        sent := Pass(L.SendHeader(headers[i]), sent, start, calls);
        calls := calls + [L.SendHeader(headers[i])];
        assert calls == done + L.HeaderCalls(headers[..i + 1]);
      }
      assert headers[..|headers|] == headers;
    }
  }

  lemma HeaderCallsSnoc(headers: seq<L.Header>, i: nat)
    requires i < |headers|
    ensures L.HeaderCalls(headers[..i + 1]) == L.HeaderCalls(headers[..i]) + [L.SendHeader(headers[i])]
  {
    assert headers[..i + 1] == headers[..i] + [headers[i]];
    L.Snoc(headers[..i], headers[i]);
  }

  class AccountingFilter {
    var enabled: bool
    var totalSent: int
    const decoratee: ReorderingFilter
    ghost const repr: set<object>

    ghost predicate Valid()
      reads this, repr
    {
      && this in repr && decoratee in repr && decoratee.repr == repr - {this} && decoratee.Valid()
      && 0 <= totalSent < A.UINT64
    }

    ghost function View(): A.AccountState
      requires Valid()
      reads this, repr
    {
      A.AccountState(enabled, totalSent, decoratee.View())
    }

    constructor (decoratee: ReorderingFilter)
      requires decoratee.Valid()
      ensures Valid() && this.decoratee == decoratee && fresh(this)
      ensures View() == A.AccountState(false, 0, decoratee.View())
    {
      this.decoratee, enabled, totalSent := decoratee, false, 0;
      repr := decoratee.repr + {this};
    }

    /** `set_account`. */
    method SetAccount(enabled: bool)
      requires Valid()
      modifies this
      ensures Valid() && View() == old(View()).(enabled := enabled)
    {
      this.enabled := enabled;
    }

    method Handle(c: L.Call) returns (sent: int)
      requires Valid() && Fits(c)
      modifies repr
      ensures Valid()
      ensures View() == A.AccountStep(decoratee.Conf(), old(View()), c).0
      ensures sent == A.AccountStep(decoratee.Conf(), old(View()), c).1
      ensures enabled == old(enabled)
      ensures totalSent == if enabled then (old(totalSent) + sent) % A.UINT64 else old(totalSent)
    {
      sent := decoratee.Handle(c);
      if enabled {
        totalSent := (totalSent + sent) % A.UINT64;
      }
    }
  }

  lemma ReorderRunSnoc(conf: L.Conf, s: L.ReorderState, cs: seq<L.Call>, c: L.Call)
    ensures L.ReorderRun(conf, s, cs + [c]).0 == L.ReorderStep(conf, L.ReorderRun(conf, s, cs).0, c).0
  {
    L.Snoc(cs, c);
  }

  /** Calls on the stack, one after another. */
  method Drive(io: ReorderingFilter, cs: seq<L.Call>)
    requires io.Valid() && forall c :: c in cs ==> Fits(c)
    modifies io.repr
    ensures io.Valid() && io.View() == L.ReorderRun(io.Conf(), old(io.View()), cs).0
  {
    for i := 0 to |cs|
      invariant io.Valid() && io.View() == L.ReorderRun(io.Conf(), old(io.View()), cs[..i]).0
    {
      assert cs[..i + 1] == cs[..i] + [cs[i]];
      ReorderRunSnoc(io.Conf(), old(io.View()), cs[..i], cs[i]);
      var _ := io.Handle(cs[i]);
    }
    assert cs[..|cs|] == cs;
  }

  /** A legal response driven through a fresh stack of objects, with a buffer of any size: the
      connection has received its normal form, and nothing else. */
  method Respond(wire: Wire, size: nat, env: N.Env, r: N.Response)
    requires size >= 1 && wire.bytes == ""
    requires N.Legal(r) && forall c :: c in N.CallsOf(r) ==> Fits(c)
    modifies wire
    ensures wire.bytes == L.TextOf(N.ClientConf(size, env), N.Normal(r))
  {
    var client := new ClientIO(wire, size, env);
    var conlen := new ConLenControllingFilter(client);
    var chunking := new ChunkingFilter(conlen);
    var io := new ReorderingFilter(chunking);
    Drive(io, N.CallsOf(r));
    N.WireIsNormalForm(client.Conf(), r);
    assert io.View().below.below.out == client.View();
  }
}
