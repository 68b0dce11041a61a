/** What the calls return and what the accounting filter adds up: the bytes on the wire and in the
    buffer, short of the error results of content lengths sent before any status. */
module HttpAccounting {
  import opened Wrappers
  import opened ChunkedCoding
  import opened HttpLayers
  import opened HttpNormalForm

  /** `total_sent` is a `uint64_t`, and results are converted to it. */
  const UINT64: int := 0x1_0000_0000_0000_0000

  datatype AccountState = AccountState(enabled: bool, total: int, below: ReorderState)

  function Account(enabled: bool, total: int, sent: int): int {
    if enabled then (total + sent) % UINT64 else total
  }

  function AccountStep(conf: Conf, s: AccountState, c: Call): (AccountState, int) {
    var (below, sent) := ReorderStep(conf, s.below, c);
    (AccountState(s.enabled, Account(s.enabled, s.total, sent), below), sent)
  }

  function AccountRun(conf: Conf, s: AccountState, cs: seq<Call>): AccountState {
    if cs == [] then s else AccountStep(conf, AccountRun(conf, s, cs[..|cs| - 1]), cs[|cs| - 1]).0
  }

  const FRESH_ACCOUNT := AccountState(true, 0, FRESH)

  // ---- Error results ----

  /** How many content lengths fail at the content-length filter. */
  function Errors(a: Action, cs: seq<Call>): nat {
    if cs == [] then 0
    else
      var front := cs[..|cs| - 1];
      Errors(a, front) + if Fails(ConLenAll(a, front).0, cs[|cs| - 1]) then 1 else 0
  }

  function ErrorsIn(cs: seq<Call>): nat {
    Errors(UNKNOWN, ChunkAll(false, ReorderAll(FRESH.own, cs).1).1)
  }

  lemma {:induction false} ConLenSum(conf: Conf, s: ConLenState, cs: seq<Call>)
    ensures ConLenRun(conf, s, cs).1 == |TextOf(conf, ConLenAll(s.action, cs).1)| - EINVAL * Errors(s.action, cs)
  {
    if cs != [] {
      var n := |cs| - 1;
      ConLenSum(conf, s, cs[..n]);
      ConLenRunIsAll(conf, s, cs[..n]);
      var (a, out) := ConLenAll(s.action, cs[..n]);
      TextOfAppend(conf, out, ConLenCalls(a, cs[n]).1);
    }
  }

  lemma {:induction false} ChunkSum(conf: Conf, s: ChunkState, cs: seq<Call>)
    ensures ChunkRun(conf, s, cs).1 == ConLenRun(conf, s.below, ChunkAll(s.enabled, cs).1).1
  {
    if cs != [] {
      var n := |cs| - 1;
      ChunkSum(conf, s, cs[..n]);
      ChunkRunIsAll(conf, s, cs[..n]);
      var (e, out) := ChunkAll(s.enabled, cs[..n]);
      ConLenRunAppend(conf, s.below, out, ChunkCalls(e, cs[n]).1);
    }
  }

  lemma {:induction false} ReorderSum(conf: Conf, s: ReorderState, cs: seq<Call>)
    ensures ReorderRun(conf, s, cs).1 == ChunkRun(conf, s.below, ReorderAll(s.own, cs).1).1
  {
    if cs != [] {
      var n := |cs| - 1;
      ReorderSum(conf, s, cs[..n]);
      ReorderRunIsAll(conf, s, cs[..n]);
      var (r, out) := ReorderAll(s.own, cs[..n]);
      ChunkRunAppend(conf, s.below, out, ReorderCalls(r, cs[n]).1);
    }
  }

  /** The results of any calls add up to the bytes generated less EINVAL for each failure. */
  lemma ResultsAddUp(conf: Conf, cs: seq<Call>)
    requires Plain(conf)
    ensures ReorderRun(conf, FRESH, cs).1 == |All(OutAfter(conf, cs))| - EINVAL * ErrorsIn(cs)
  {
    ReorderSum(conf, FRESH, cs);
    ChunkSum(conf, FRESH.below, ReorderAll(FRESH.own, cs).1);
    ConLenSum(conf, FRESH.below.below, ChunkAll(false, ReorderAll(FRESH.own, cs).1).1);
    StackIsBottom(conf, cs);
    BytesKept(conf, Out("", ""), Bottom(cs));
  }

  lemma ModAdd(a: int, b: int)
    ensures (a % UINT64 + b) % UINT64 == (a + b) % UINT64
  {
    var q := a / UINT64;
    assert a == UINT64 * q + a % UINT64;
    assert (a % UINT64 + b) + UINT64 * q == a + b;
    ModShift(a % UINT64 + b, q);
  }

  lemma {:induction false} ModShift(x: int, q: int)
    ensures (x + UINT64 * q) % UINT64 == x % UINT64
    decreases if q < 0 then -q else q
  {
    if q > 0 {
      ModShift(x, q - 1);
      assert x + UINT64 * q == (x + UINT64 * (q - 1)) + UINT64;
    } else if q < 0 {
      ModShift(x, q + 1);
      assert x + UINT64 * q == (x + UINT64 * (q + 1)) - UINT64;
    }
  }

  lemma {:induction false} TotalIsSum(conf: Conf, cs: seq<Call>)
    ensures AccountRun(conf, FRESH_ACCOUNT, cs).enabled
    ensures AccountRun(conf, FRESH_ACCOUNT, cs).below == ReorderRun(conf, FRESH, cs).0
    ensures AccountRun(conf, FRESH_ACCOUNT, cs).total == ReorderRun(conf, FRESH, cs).1 % UINT64
  {
    if cs != [] {
      var n := |cs| - 1;
      TotalIsSum(conf, cs[..n]);
      var (t, m) := ReorderRun(conf, FRESH, cs[..n]);
      ModAdd(m, ReorderStep(conf, t, cs[n]).1);
    }
  }

  /** For any calls in any order: the total is the bytes on the wire and in the buffer, less EINVAL for
      each content length that failed, as a 64-bit number. */
  lemma TotalOfAnyRun(conf: Conf, cs: seq<Call>)
    requires Plain(conf)
    ensures AccountRun(conf, FRESH_ACCOUNT, cs).total == (|All(OutAfter(conf, cs))| - EINVAL * ErrorsIn(cs)) % UINT64
  {
    TotalIsSum(conf, cs);
    ResultsAddUp(conf, cs);
  }

  // ---- When a content length fails ----

  /** The calls before the first status. */
  function BeforeStatus(cs: seq<Call>): seq<Call> {
    if cs == [] || cs[0].SendStatus? then [] else [cs[0]] + BeforeStatus(cs[1..])
  }

  predicate HasLength(cs: seq<Call>) {
    exists i :: 0 <= i < |cs| && cs[i].SendContentLength?
  }

  predicate HasEnd(cs: seq<Call>) {
    exists i :: 0 <= i < |cs| && cs[i].CompleteHeader?
  }

  lemma {:induction false} ErrorsAppend(a: Action, x: seq<Call>, y: seq<Call>)
    ensures Errors(a, x + y) == Errors(a, x) + Errors(ConLenAll(a, x).0, y)
  {
    if y == [] {
      assert x + y == x;
    } else {
      SplitLast(x, y);
      ErrorsAppend(a, x, y[..|y| - 1]);
      ConLenAllAppend(a, x, y[..|y| - 1]);
    }
  }

  lemma {:induction false} NoLengthNoErrors(a: Action, cs: seq<Call>)
    requires forall i :: 0 <= i < |cs| ==> !cs[i].SendStatus? && !cs[i].SendContentLength?
    ensures Errors(a, cs) == 0 && ConLenAll(a, cs).0 == a
  {
    if cs != [] { NoLengthNoErrors(a, cs[..|cs| - 1]); }
  }

  lemma ErrorsOne(a: Action, c: Call)
    ensures Errors(a, [c]) == if Fails(a, c) then 1 else 0
    ensures ConLenAll(a, [c]).0 == ConLenCalls(a, c).0
  {
    assert [c][..0] == [];
    ConLenOne(a, c);
  }

  lemma ErrorsOfChunkCalls(b: Action, f: bool, c: Call)
    ensures Errors(b, ChunkCalls(f, c).1) == if Fails(b, c) then 1 else 0
    ensures ConLenAll(b, ChunkCalls(f, c).1).0 == ConLenCalls(b, c).0
  {
    if c.SendStatus? || c.SendContentLength? {
      ErrorsOne(b, c);
    } else {
      NoLengthNoErrors(b, ChunkCalls(f, c).1);
    }
  }

  /** The chunking filter neither makes nor hides a failure. */
  lemma {:induction false} ErrorsThroughChunk(a: Action, e: bool, cs: seq<Call>)
    ensures Errors(a, ChunkAll(e, cs).1) == Errors(a, cs)
    ensures ConLenAll(a, ChunkAll(e, cs).1).0 == ConLenAll(a, cs).0
  {
    if cs != [] {
      var n := |cs| - 1;
      ErrorsThroughChunk(a, e, cs[..n]);
      var (f, out) := ChunkAll(e, cs[..n]);
      var more := ChunkCalls(f, cs[n]).1;
      ErrorsAppend(a, out, more);
      ConLenAllAppend(a, out, more);
      ErrorsOfChunkCalls(ConLenAll(a, out).0, f, cs[n]);
    }
  }

  lemma {:induction false} AfterStatusNoErrors(a: Action, cs: seq<Call>)
    requires a != UNKNOWN
    ensures Errors(a, cs) == 0 && ConLenAll(a, cs).0 != UNKNOWN
  {
    if cs != [] { AfterStatusNoErrors(a, cs[..|cs| - 1]); }
  }

  lemma HasSnoc(cs: seq<Call>, c: Call)
    ensures HasLength(cs + [c]) <==> HasLength(cs) || c.SendContentLength?
    ensures HasEnd(cs + [c]) <==> HasEnd(cs) || c.CompleteHeader?
  {
    var x := cs + [c];
    assert x[|cs|] == c;
    if HasLength(cs) {
      var i :| 0 <= i < |cs| && cs[i].SendContentLength?;
      assert x[i].SendContentLength?;
    }
    if HasEnd(cs) {
      var i :| 0 <= i < |cs| && cs[i].CompleteHeader?;
      assert x[i].CompleteHeader?;
    }
  }

  lemma ErrorsOfEnd(len: Option<nat>, rest: seq<Call>)
    requires forall i :: 0 <= i < |rest| ==> !rest[i].SendStatus? && !rest[i].SendContentLength?
    ensures ConLenAll(UNKNOWN, LengthCalls(len) + rest).0 == UNKNOWN
    ensures Errors(UNKNOWN, LengthCalls(len) + rest) == if len.Some? then 1 else 0
  {
    ErrorsAppend(UNKNOWN, LengthCalls(len), rest);
    ConLenAllAppend(UNKNOWN, LengthCalls(len), rest);
    NoLengthNoErrors(UNKNOWN, rest);
    if len.Some? { ErrorsOne(UNKNOWN, SendContentLength(len.value)); }
  }

  /** What the calls passed on for one call do to the failures while no status has been seen. */
  lemma ErrorsOfStep(r: Reorder, c: Call)
    requires !c.SendStatus?
    ensures ConLenAll(UNKNOWN, ReorderCalls(r, c).1).0 == UNKNOWN
    ensures Errors(UNKNOWN, ReorderCalls(r, c).1) > 0 <==>
      (c.SendContentLength? && r.phase != EARLY_HEADERS) || (c.CompleteHeader? && r.contentLength.Some?)
  {
    if c.CompleteHeader? {
      var rest := HeaderCalls(r.headers) + [c];
      HeaderCallsAreHeaders(r.headers);
      ErrorsOfEnd(r.contentLength, rest);
      assert ReorderCalls(r, c).1 == LengthCalls(r.contentLength) + rest;
    } else {
      ErrorsOne(UNKNOWN, c);
    }
  }

  /** Before any status: what the reordering filter remembers, and when something has failed. */
  lemma {:induction false} ErrorsBeforeStatus(cs: seq<Call>)
    requires forall i :: 0 <= i < |cs| ==> !cs[i].SendStatus?
    ensures var (r, out) := ReorderAll(FRESH.own, cs);
      && ConLenAll(UNKNOWN, out).0 == UNKNOWN
      && (r.phase == if HasEnd(cs) then DATA else EARLY_HEADERS)
      && (r.contentLength.Some? ==> HasLength(cs))
      && (HasLength(cs) && !HasEnd(cs) ==> r.contentLength.Some?)
      && (Errors(UNKNOWN, out) > 0 <==> HasLength(cs) && HasEnd(cs))
  {
    if cs != [] {
      var n := |cs| - 1;
      var c := cs[n];
      ErrorsBeforeStatus(cs[..n]);
      var (r, out) := ReorderAll(FRESH.own, cs[..n]);
      var more := ReorderCalls(r, c).1;
      ErrorsOfStep(r, c);
      ErrorsAppend(UNKNOWN, out, more);
      ConLenAllAppend(UNKNOWN, out, more);
      HasSnoc(cs[..n], c);
      assert cs == cs[..n] + [c];
    }
  }

  lemma {:induction false} BeforeStatusSplits(cs: seq<Call>)
    ensures BeforeStatus(cs) <= cs
    ensures forall i :: 0 <= i < |BeforeStatus(cs)| ==> !BeforeStatus(cs)[i].SendStatus?
    ensures |BeforeStatus(cs)| < |cs| ==> cs[|BeforeStatus(cs)|].SendStatus?
  {
    if cs != [] && !cs[0].SendStatus? {
      BeforeStatusSplits(cs[1..]);
      assert cs == [cs[0]] + cs[1..];
    }
  }

  /** From the first status on nothing fails. */
  lemma {:induction false} ErrorsFromStatus(r: Reorder, rest: seq<Call>)
    requires rest != [] && rest[0].SendStatus?
    ensures ConLenAll(UNKNOWN, ReorderAll(r, rest).1).0 != UNKNOWN
    ensures Errors(UNKNOWN, ReorderAll(r, rest).1) == 0
  {
    var n := |rest| - 1;
    if n == 0 {
      assert rest == [rest[0]];
      ReorderOne(r, rest[0]);
      ErrorsOne(UNKNOWN, rest[0]);
    } else {
      ErrorsFromStatus(r, rest[..n]);
      var (q, out) := ReorderAll(r, rest[..n]);
      var more := ReorderCalls(q, rest[n]).1;
      ErrorsAppend(UNKNOWN, out, more);
      ConLenAllAppend(UNKNOWN, out, more);
      AfterStatusNoErrors(ConLenAll(UNKNOWN, out).0, more);
    }
  }

  lemma ErrorsAreBeforeStatus(pre: seq<Call>, rest: seq<Call>)
    requires ConLenAll(UNKNOWN, ReorderAll(FRESH.own, pre).1).0 == UNKNOWN
    requires rest != [] && rest[0].SendStatus?
    ensures Errors(UNKNOWN, ReorderAll(FRESH.own, pre + rest).1) == Errors(UNKNOWN, ReorderAll(FRESH.own, pre).1)
  {
    var (r, out) := ReorderAll(FRESH.own, pre);
    var back := ReorderAll(r, rest).1;
    ErrorsFromStatus(r, rest);
    ReorderAllAppend(FRESH.own, pre, rest);
    ErrorsAppend(UNKNOWN, out, back);
  }

  /** Some call fails exactly when both a content length and the end of the header come before the
      first status, in either order. */
  lemma FailsIffEndedBeforeStatus(cs: seq<Call>)
    ensures ErrorsIn(cs) > 0 <==> HasLength(BeforeStatus(cs)) && HasEnd(BeforeStatus(cs))
  {
    ErrorsThroughChunk(UNKNOWN, false, ReorderAll(FRESH.own, cs).1);
    BeforeStatusSplits(cs);
    ErrorsBeforeStatus(BeforeStatus(cs));
    ErrorsUpToStatus(cs);
  }

  lemma ErrorsUpToStatus(cs: seq<Call>)
    ensures Errors(UNKNOWN, ReorderAll(FRESH.own, cs).1) == Errors(UNKNOWN, ReorderAll(FRESH.own, BeforeStatus(cs)).1)
  {
    var pre := BeforeStatus(cs);
    BeforeStatusSplits(cs);
    ErrorsBeforeStatus(pre);
    if |pre| < |cs| {
      assert cs == pre + cs[|pre|..];
      ErrorsAreBeforeStatus(pre, cs[|pre|..]);
    } else {
      assert cs == pre;
    }
  }

  lemma LengthThenEndResult(conf: Conf, len: nat)
    ensures ReorderStep(conf, ReorderStep(conf, FRESH, SendContentLength(len)).0, CompleteHeader).1 ==
      |conf.text(CompleteHeader)| - EINVAL
  {
    var a, b := SendContentLength(len), CompleteHeader;
    var s := ReorderStep(conf, FRESH, a).0;
    assert s.below == FRESH.below && s.own == Reorder(EARLY_HEADERS, Some(len), []);
    assert ReorderCalls(s.own, b).1 == [a, b];
    var (t, n) := ChunkStep(conf, FRESH.below, a);
    assert [a, b][..1] == [a] && [a][..0] == [];
    assert ChunkCalls(false, a).1 == [a] && ChunkCalls(false, b).1 == [b];
    assert ConLenRun(conf, FRESH.below.below, [a]).1 == -EINVAL;
    assert ChunkRun(conf, FRESH.below, [a]) == (t, n) && n == -EINVAL;
    TextOfOne(conf, b);
    assert ConLenRun(conf, t.below, [b]).1 == |conf.text(b)|;
  }

  lemma TextOfOne(conf: Conf, c: Call)
    ensures TextOf(conf, [c]) == conf.text(c)
  {
    assert [c][..0] == [];
    assert "" + conf.text(c) == conf.text(c);
  }

  /** Ending the header with a content length and no status: the call returns 22 less than the bytes it
      sends, and the total is off. */
  lemma LengthWithoutStatusFails(conf: Conf, len: nat)
    ensures ErrorsIn([SendContentLength(len), CompleteHeader]) > 0
    ensures ReorderStep(conf, ReorderStep(conf, FRESH, SendContentLength(len)).0, CompleteHeader).1 ==
      |conf.text(CompleteHeader)| - EINVAL
  {
    var cs := [SendContentLength(len), CompleteHeader];
    LengthThenEndResult(conf, len);
    FailsIffEndedBeforeStatus(cs);
    assert cs[1..] == [CompleteHeader] && [CompleteHeader][1..] == [];
    assert BeforeStatus([CompleteHeader]) == [CompleteHeader] + BeforeStatus([]);
    assert BeforeStatus(cs) == [SendContentLength(len)] + [CompleteHeader];
    assert BeforeStatus(cs)[0].SendContentLength? && BeforeStatus(cs)[1].CompleteHeader?;
  }

  lemma {:induction false} BeforeStatusOfPrefix(start: seq<Call>, status: Call, rest: seq<Call>, cs: seq<Call>)
    requires status.SendStatus? && cs <= start + [status] + rest
    requires forall i :: 0 <= i < |start| ==> !start[i].SendStatus?
    ensures BeforeStatus(cs) <= start
  {
    if cs == [] || start == [] {
    } else {
      assert cs[0] == start[0];
      assert (start + [status] + rest)[1..] == start[1..] + [status] + rest;
      BeforeStatusOfPrefix(start[1..], status, rest, cs[1..]);
      assert start == [start[0]] + start[1..];
    }
  }

  /** No call of a legal response fails. */
  lemma LegalNeverFails(r: Response, cs: seq<Call>)
    requires Legal(r) && cs <= CallsOf(r)
    ensures ErrorsIn(cs) == 0
  {
    var start, status := Start(r) + r.early, SendStatus(r.status, r.name);
    forall i | 0 <= i < |start| ensures !start[i].SendStatus? && !start[i].CompleteHeader? {
      if i >= |Start(r)| { assert EarlyCall(r.early[i - |Start(r)|]); }
    }
    var rest := r.late + [CompleteHeader] + (r.tail + [CompleteRequest]);
    assert CallsOf(r) == start + [status] + rest;
    BeforeStatusOfPrefix(start, status, rest, cs);
    FailsIffEndedBeforeStatus(cs);
  }

  /** With accounting on and outermost: at every point of every legal response the total is the number
      of bytes on the wire and in the output buffer, although held headers return 0 and are counted
      when they go out. */
  lemma AccountingConserves(conf: Conf, r: Response, cs: seq<Call>)
    requires Plain(conf) && Legal(r) && cs <= CallsOf(r)
    ensures var out := OutAfter(conf, cs);
      AccountRun(conf, FRESH_ACCOUNT, cs).total == (|out.wire| + |out.buf|) % UINT64
  {
    TotalOfAnyRun(conf, cs);
    LegalNeverFails(r, cs);
  }

  /** And each call returns exactly the bytes it added, never the error. */
  lemma ResultIsGrowth(conf: Conf, r: Response, cs: seq<Call>, c: Call)
    requires Plain(conf) && Legal(r) && cs + [c] <= CallsOf(r)
    ensures ReorderStep(conf, ReorderRun(conf, FRESH, cs).0, c).1 ==
      |All(OutAfter(conf, cs + [c]))| - |All(OutAfter(conf, cs))|
    ensures ReorderStep(conf, ReorderRun(conf, FRESH, cs).0, c).1 >= 0
  {
    Snoc(cs, c);
    assert cs <= CallsOf(r);
    ResultsAddUp(conf, cs);
    ResultsAddUp(conf, cs + [c]);
    LegalNeverFails(r, cs);
    LegalNeverFails(r, cs + [c]);
    ByteOrder(conf, r, cs);
    ByteOrder(conf, r, cs + [c]);
    var more := BottomPrefix(cs, [c]);
    TextOfAppend(conf, Bottom(cs), more);
  }
}
