/** The select loop woken through its own pipe. Callers change the registered set or the stop flag
    and then write to the pipe; the loop snapshots the set, blocks in select, dispatches and drains.
    Every list of actions is a run; an action that is not possible leaves the state as it is. */
module SelectLoop {
  import opened Wrappers

  /** A descriptor number. */
  datatype Fd = Fd(n: nat)
  type Handler = nat

  /** Where the loop stands in `entry`. `Selecting` holds the snapshot in the descriptor set. */
  datatype Pc =
    | Testing
    | Building
    | Selecting(snapshot: set<Fd>)
    | Woken(ready: set<Fd>, pipeReady: bool)
    | Dispatching(todo: set<Fd>, pipeReady: bool)
    | Exited

  /** Who holds the mutex. A caller has changed the set and may or may not have signalled yet. */
  datatype Holder = Free | ByLoop | ByCaller(fd: Fd, unregisters: bool, signalled: bool)

  datatype Event = Registered(fd: Fd, h: Handler) | Unregistered(fd: Fd) | Called(fd: Fd, h: Handler)

  /** `io` is the map of callbacks and `pipe` the unread bytes. `admitted` holds the registrations
      that passed the unlocked test; `stopping` counts callers of `stop` between setting the flag and
      signalling. `log` is history. */
  datatype State = State(
    io: map<Fd, Handler>,
    stopped: bool,
    pipe: nat,
    pc: Pc,
    holder: Holder,
    admitted: multiset<(Fd, Handler)>,
    stopping: nat,
    log: seq<Event>)

  datatype Action =
    | RegisterTest(fd: Fd, h: Handler)
    | RegisterInsert(fd: Fd, h: Handler)
    | UnregisterErase(fd: Fd)
    | CallerSignal
    | CallerUnlock
    | StopSet
    | StopSignal
    | LoopTest
    | Build
    | SelectReturns(ready: set<Fd>)
    | LoopLock
    | Callback(fd: Fd)
    | DrainAndUnlock

  const INITIAL := State(map[], false, 0, Testing, Free, multiset{}, 0, [])

  /** One signal is a `uint32_t`; one drain reads at most 256 bytes. */
  const SIGNAL_BYTES: nat := 4
  const DRAIN_BYTES: nat := 256

  function Next(s: State, a: Action): State {
    match a
    case RegisterTest(fd, h) =>
      if s.stopped then s else s.(admitted := s.admitted + multiset{(fd, h)})
    case RegisterInsert(fd, h) =>
      if (fd, h) in s.admitted && s.holder.Free? then
        s.(admitted := s.admitted - multiset{(fd, h)}, io := Inserted(s.io, fd, h),
           holder := ByCaller(fd, false, false), log := s.log + [Registered(fd, h)])
      else s
    case UnregisterErase(fd) =>
      if s.holder.Free? then s.(io := s.io - {fd}, holder := ByCaller(fd, true, false)) else s
    case CallerSignal =>
      if s.holder.ByCaller? && !s.holder.signalled then
        s.(pipe := s.pipe + SIGNAL_BYTES, holder := s.holder.(signalled := true))
      else s
    case CallerUnlock =>
      if s.holder.ByCaller? && s.holder.signalled then
        s.(holder := Free, log := if s.holder.unregisters then s.log + [Unregistered(s.holder.fd)] else s.log)
      else s
    case StopSet =>
      s.(stopped := true, stopping := s.stopping + 1)
    case StopSignal =>
      if s.stopping > 0 then s.(stopping := s.stopping - 1, pipe := s.pipe + SIGNAL_BYTES) else s
    case LoopTest =>
      if !s.pc.Testing? then s
      else if !s.stopped || s.io != map[] then s.(pc := Building)
      else s.(pc := Exited)
    case Build =>
      if s.pc.Building? && s.holder.Free? then s.(pc := Selecting(s.io.Keys)) else s
    case SelectReturns(ready) =>
      if s.pc.Selecting? && ready <= s.pc.snapshot && (ready != {} || s.pipe > 0) then
        s.(pc := Woken(ready, s.pipe > 0))
      else s
    case LoopLock =>
      if s.pc.Woken? && s.holder.Free? then
        s.(pc := Dispatching(s.io.Keys * s.pc.ready, s.pc.pipeReady), holder := ByLoop)
      else s
    case Callback(fd) =>
      if s.pc.Dispatching? && fd in s.pc.todo && fd in s.io then
        s.(pc := s.pc.(todo := s.pc.todo - {fd}), log := s.log + [Called(fd, s.io[fd])])
      else s
    case DrainAndUnlock =>
      if s.pc.Dispatching? && s.pc.todo == {} then
        s.(pc := Testing, holder := Free, pipe := if s.pc.pipeReady then Drained(s.pipe) else s.pipe)
      else s
  }

  /** `std::map::insert` keeps an entry that is already there. */
  function Inserted(io: map<Fd, Handler>, fd: Fd, h: Handler): map<Fd, Handler> {
    if fd in io then io else io[fd := h]
  }

  function Drained(bytes: nat): nat {
    if bytes <= DRAIN_BYTES then 0 else bytes - DRAIN_BYTES
  }

  function Exec(run: seq<Action>): State {
    if run == [] then INITIAL else Next(Exec(run[..|run| - 1]), run[|run| - 1])
  }

  // ---- Wake-ups ----

  /** A caller stands between its change and its signal. */
  predicate SignalComing(s: State) {
    (s.holder.ByCaller? && !s.holder.signalled) || s.stopping > 0
  }

  predicate ShouldExit(s: State) {
    s.stopped && s.io == map[]
  }

  ghost predicate Awake(s: State) {
    && (s.holder.ByLoop? <==> s.pc.Dispatching?)
    && (s.pc.Selecting? && s.pc.snapshot != s.io.Keys ==> s.pipe > 0 || SignalComing(s))
    && (s.pc.Building? || s.pc.Selecting? ==> ShouldExit(s) ==> s.pipe > 0 || SignalComing(s))
  }

  lemma StepKeepsAwake(s: State, a: Action)
    requires Awake(s)
    ensures Awake(Next(s, a))
  {
  }

  lemma {:induction false} AwakeAlways(run: seq<Action>)
    ensures Awake(Exec(run))
  {
    if run != [] {
      AwakeAlways(run[..|run| - 1]);
      StepKeepsAwake(Exec(run[..|run| - 1]), run[|run| - 1]);
    }
  }

  /** In every run: while the loop is in select on an outdated snapshot, or when it should exit, the
      pipe holds a byte or a caller is about to write one. */
  lemma NoLostWakeUp(run: seq<Action>)
    requires Exec(run).pc.Selecting?
    requires Exec(run).pc.snapshot != Exec(run).io.Keys || ShouldExit(Exec(run))
    ensures Exec(run).pipe > 0 || SignalComing(Exec(run))
  {
    AwakeAlways(run);
  }

  /** Once no caller is about to signal, select is free to return on the pipe alone. */
  lemma OutdatedSelectReturns(run: seq<Action>)
    requires Exec(run).pc.Selecting? && !SignalComing(Exec(run))
    requires Exec(run).pc.snapshot != Exec(run).io.Keys || ShouldExit(Exec(run))
    ensures Next(Exec(run), SelectReturns({})).pc == Woken({}, true)
  {
    AwakeAlways(run);
  }

  lemma ExitStep(s: State, a: Action)
    requires !s.pc.Exited? && Next(s, a).pc.Exited?
    ensures ShouldExit(Next(s, a))
  {
  }

  /** The loop ended at the `n`th step of the run, with the flag set and nothing registered. */
  ghost predicate EndsAt(run: seq<Action>, n: nat) {
    0 < n <= |run| && !Exec(run[..n - 1]).pc.Exited? && Exec(run[..n]).pc.Exited? && ShouldExit(Exec(run[..n]))
  }

  lemma EndsAtPrefix(run: seq<Action>, m: nat, n: nat)
    requires m <= |run| && EndsAt(run[..m], n)
    ensures EndsAt(run, n)
  {
    assert run[..m][..n] == run[..n] && run[..m][..n - 1] == run[..n - 1];
  }

  /** In every run in which the loop has ended there is such a step. */
  lemma {:induction false} ExitsOnlyWhenDone(run: seq<Action>) returns (n: nat)
    requires Exec(run).pc.Exited?
    ensures EndsAt(run, n)
  {
    var m := |run| - 1;
    if Exec(run[..m]).pc.Exited? {
      n := ExitsOnlyWhenDone(run[..m]);
      EndsAtPrefix(run, m, n);
    } else {
      n := m + 1;
      assert run[..n] == run;
      ExitStep(Exec(run[..m]), run[m]);
    }
  }

  ghost predicate StoppedOnceExited(s: State) {
    s.pc.Exited? ==> s.stopped && !s.holder.ByLoop?
  }

  lemma {:induction false} StoppedAlways(run: seq<Action>)
    ensures StoppedOnceExited(Exec(run))
  {
    if run != [] {
      StoppedAlways(run[..|run| - 1]);
      AwakeAlways(run[..|run| - 1]);
    }
  }

  /** What callers still do to the history of a loop that has ended. */
  ghost predicate NoCallsAdded(s: State, t: State) {
    s.log <= t.log && forall i :: |s.log| <= i < |t.log| ==> !t.log[i].Called?
  }

  lemma ExitedStep(s: State, a: Action)
    requires s.pc.Exited? && s.stopped
    ensures Next(s, a).pc.Exited? && Next(s, a).stopped && NoCallsAdded(s, Next(s, a))
  {
  }

  function Steps(s: State, acts: seq<Action>): State
    decreases |acts|
  {
    if acts == [] then s else Steps(Next(s, acts[0]), acts[1..])
  }

  lemma {:induction false} NothingAfterExit(s: State, more: seq<Action>)
    requires s.pc.Exited? && s.stopped
    ensures Steps(s, more).pc.Exited? && Steps(s, more).stopped && NoCallsAdded(s, Steps(s, more))
    decreases |more|
  {
    if more != [] {
      ExitedStep(s, more[0]);
      NothingAfterExit(Next(s, more[0]), more[1..]);
    }
  }

  /** Once the loop has ended it stays ended with the flag set, and no callback is called ever after,
      whatever callers still do. */
  lemma ExitedForGood(run: seq<Action>, more: seq<Action>)
    requires Exec(run).pc.Exited?
    ensures var s, t := Exec(run), Steps(Exec(run), more); t.pc.Exited? && t.stopped && NoCallsAdded(s, t)
  {
    StoppedAlways(run);
    NothingAfterExit(Exec(run), more);
  }

  /** But a registration that passed the test before `stop` can come in after the end: it returns 0 and
      its handler is never called. */
  lemma LateRegistrationIsNotServed(fd: Fd, h: Handler, more: seq<Action>)
    ensures var s := Steps(INITIAL, [RegisterTest(fd, h), StopSet, LoopTest, RegisterInsert(fd, h)]);
      s.pc.Exited? && fd in s.io && NoCallsAdded(s, Steps(s, more))
  {
    FourSteps(INITIAL, RegisterTest(fd, h), StopSet, LoopTest, RegisterInsert(fd, h));
    var s := Steps(INITIAL, [RegisterTest(fd, h), StopSet, LoopTest, RegisterInsert(fd, h)]);
    NothingAfterExit(s, more);
  }

  // ---- Service ----

  /** A call of `h` for `fd` comes on the way from `s` to `t`. */
  ghost predicate CallAdded(s: State, t: State, fd: Fd, h: Handler) {
    exists i :: |s.log| <= i < |t.log| && t.log[i] == Called(fd, h)
  }

  /** The loop can go on to call `h` for `fd`. */
  ghost predicate CanServe(s: State, fd: Fd, h: Handler) {
    exists more :: CallAdded(s, Steps(s, more), fd, h)
  }

  lemma LogGrows(s: State, a: Action)
    ensures |s.log| <= |Next(s, a).log|
  {
  }

  lemma ServeLater(s: State, a: Action, fd: Fd, h: Handler)
    requires CanServe(Next(s, a), fd, h)
    ensures CanServe(s, fd, h)
  {
    var t := Next(s, a);
    var more :| CallAdded(t, Steps(t, more), fd, h);
    assert ([a] + more)[1..] == more;
    LogGrows(s, a);
    assert CallAdded(s, Steps(s, [a] + more), fd, h);
  }

  lemma ServeNow(s: State, fd: Fd)
    requires s.pc.Dispatching? && fd in s.pc.todo && fd in s.io
    ensures CanServe(s, fd, s.io[fd])
  {
    var t := Next(s, Callback(fd));
    assert [Callback(fd)][1..] == [] && Steps(t, []) == t;
    assert t.log[|s.log|] == Called(fd, s.io[fd]);
    assert CallAdded(s, Steps(s, [Callback(fd)]), fd, s.io[fd]);
  }

  /** Select can return with just this descriptor ready. */
  lemma ServeSelecting(s: State, fd: Fd)
    requires s.pc.Selecting? && fd in s.pc.snapshot && fd in s.io && s.holder.Free?
    ensures CanServe(s, fd, s.io[fd])
  {
    var t := Next(s, SelectReturns({fd}));
    ServeNow(Next(t, LoopLock), fd);
    ServeLater(t, LoopLock, fd, s.io[fd]);
    ServeLater(s, SelectReturns({fd}), fd, s.io[fd]);
  }

  lemma ServeBuilding(s: State, fd: Fd)
    requires s.pc.Building? && fd in s.io && s.holder.Free?
    ensures CanServe(s, fd, s.io[fd])
  {
    ServeSelecting(Next(s, Build), fd);
    ServeLater(s, Build, fd, s.io[fd]);
  }

  lemma ServeTesting(s: State, fd: Fd)
    requires s.pc.Testing? && fd in s.io && s.holder.Free?
    ensures CanServe(s, fd, s.io[fd])
  {
    ServeBuilding(Next(s, LoopTest), fd);
    ServeLater(s, LoopTest, fd, s.io[fd]);
  }

  lemma {:induction false} ServeDispatching(s: State, fd: Fd)
    requires s.pc.Dispatching? && s.pc.todo <= s.io.Keys && fd in s.io
    ensures CanServe(s, fd, s.io[fd])
    decreases |s.pc.todo|
  {
    if fd in s.pc.todo {
      ServeNow(s, fd);
    } else if s.pc.todo == {} {
      ServeTesting(Next(s, DrainAndUnlock), fd);
      ServeLater(s, DrainAndUnlock, fd, s.io[fd]);
    } else {
      var x :| x in s.pc.todo;
      ServeDispatching(Next(s, Callback(x)), fd);
      ServeLater(s, Callback(x), fd, s.io[fd]);
    }
  }

  lemma ServeWoken(s: State, fd: Fd)
    requires s.pc.Woken? && fd in s.io && s.holder.Free?
    ensures CanServe(s, fd, s.io[fd])
  {
    ServeDispatching(Next(s, LoopLock), fd);
    ServeLater(s, LoopLock, fd, s.io[fd]);
  }

  /** In select without the descriptor: the pipe wakes the loop, if need be after `stop` has signalled. */
  lemma ServeOutdated(s: State, fd: Fd)
    requires s.pc.Selecting? && fd in s.io && s.holder.Free? && (s.pipe > 0 || s.stopping > 0)
    ensures CanServe(s, fd, s.io[fd])
    decreases s.stopping
  {
    if s.pipe > 0 {
      ServeWoken(Next(s, SelectReturns({})), fd);
      ServeLater(s, SelectReturns({}), fd, s.io[fd]);
    } else {
      ServeOutdated(Next(s, StopSignal), fd);
      ServeLater(s, StopSignal, fd, s.io[fd]);
    }
  }

  lemma ServeFree(s: State, fd: Fd)
    requires Awake(s) && fd in s.io && s.holder.Free? && !s.pc.Exited?
    ensures CanServe(s, fd, s.io[fd])
  {
    match s.pc
    case Testing => ServeTesting(s, fd);
    case Building => ServeBuilding(s, fd);
    case Selecting(snapshot) =>
      if fd in snapshot { ServeSelecting(s, fd); } else { ServeOutdated(s, fd); }
    case Woken(_, _) => ServeWoken(s, fd);
  }

  /** A caller that holds the mutex signals and unlocks first. */
  lemma ServeHeld(s: State, fd: Fd)
    requires Awake(s) && fd in s.io && s.holder.ByCaller? && !s.pc.Exited?
    ensures CanServe(s, fd, s.io[fd])
    decreases !s.holder.signalled
  {
    var a := if s.holder.signalled then CallerUnlock else CallerSignal;
    StepKeepsAwake(s, a);
    if s.holder.signalled {
      ServeFree(Next(s, a), fd);
    } else {
      ServeHeld(Next(s, a), fd);
    }
    ServeLater(s, a, fd, s.io[fd]);
  }

  ghost predicate TodoRegistered(s: State) {
    s.pc.Dispatching? ==> s.pc.todo <= s.io.Keys
  }

  lemma {:induction false} TodoAlways(run: seq<Action>)
    ensures TodoRegistered(Exec(run))
  {
    if run != [] {
      TodoAlways(run[..|run| - 1]);
      AwakeAlways(run[..|run| - 1]);
    }
  }

  /** In every run, a registered descriptor can still be served, with its own handler, exactly when the
      loop has not ended, whatever the callers and the loop are in the middle of. */
  lemma ServedIffNotExited(run: seq<Action>, fd: Fd)
    requires fd in Exec(run).io
    ensures CanServe(Exec(run), fd, Exec(run).io[fd]) <==> !Exec(run).pc.Exited?
  {
    var s := Exec(run);
    AwakeAlways(run);
    TodoAlways(run);
    if s.pc.Exited? {
      forall more ensures !CallAdded(s, Steps(s, more), fd, s.io[fd]) {
        ExitedForGood(run, more);
      }
    } else if s.holder.Free? {
      ServeFree(s, fd);
    } else if s.holder.ByCaller? {
      ServeHeld(s, fd);
    } else {
      ServeDispatching(s, fd);
    }
  }

  // ---- Callbacks ----

  /** The handler registered for `fd` and not unregistered since: the first one, if there were several. */
  function Current(log: seq<Event>, fd: Fd): Option<Handler> {
    if log == [] then None
    else
      var before := Current(log[..|log| - 1], fd);
      match log[|log| - 1]
      case Registered(f, h) => if f == fd && before.None? then Some(h) else before
      case Unregistered(f) => if f == fd then None else before
      case Called(_, _) => before
  }

  /** Every call in the log was of the handler registered at that time. */
  ghost predicate CallsCurrent(log: seq<Event>) {
    forall i :: 0 <= i < |log| && log[i].Called? ==> Current(log[..i], log[i].fd) == Some(log[i].h)
  }

  ghost predicate Faithful(s: State) {
    && (s.holder.ByCaller? && s.holder.unregisters ==> s.holder.fd !in s.io)
    && (forall fd :: fd in s.io ==> Current(s.log, fd) == Some(s.io[fd]))
    && (forall fd :: fd !in s.io && !(s.holder.ByCaller? && s.holder.unregisters && s.holder.fd == fd) ==>
          Current(s.log, fd) == None)
    && CallsCurrent(s.log)
  }

  lemma CallsSnoc(log: seq<Event>, e: Event)
    requires CallsCurrent(log) && (e.Called? ==> Current(log, e.fd) == Some(e.h))
    ensures CallsCurrent(log + [e])
  {
    var more := log + [e];
    forall i | 0 <= i < |more| && more[i].Called? ensures Current(more[..i], more[i].fd) == Some(more[i].h) {
      assert more[..i] == log[..i];
      if i == |log| { assert log[..i] == log; }
    }
  }

  lemma CurrentSnoc(log: seq<Event>, e: Event, fd: Fd)
    ensures Current(log + [e], fd) ==
      (match e
       case Registered(f, h) => if f == fd && Current(log, fd).None? then Some(h) else Current(log, fd)
       case Unregistered(f) => if f == fd then None else Current(log, fd)
       case Called(_, _) => Current(log, fd))
  {
    assert (log + [e])[..|log|] == log;
  }

  lemma LoggedStep(s: State, t: State, e: Event)
    requires Faithful(s) && t.log == s.log + [e]
    requires e.Called? ==> e.fd in s.io && e.h == s.io[e.fd]
    requires match e
      case Registered(fd, h) =>
        s.holder.Free? && t.io == Inserted(s.io, fd, h) && t.holder == ByCaller(fd, false, false)
      case Unregistered(fd) =>
        s.holder.ByCaller? && s.holder.unregisters && s.holder.fd == fd && t.io == s.io && t.holder.Free?
      case Called(_, _) => t.io == s.io && t.holder == s.holder
    ensures Faithful(t)
  {
    forall fd ensures Current(t.log, fd) == Current(s.log + [e], fd) {}
    forall fd ensures fd in t.io ==> Current(t.log, fd) == Some(t.io[fd]) {
      CurrentSnoc(s.log, e, fd);
    }
    forall fd | fd !in t.io && !(t.holder.ByCaller? && t.holder.unregisters && t.holder.fd == fd)
      ensures Current(t.log, fd) == None
    {
      CurrentSnoc(s.log, e, fd);
    }
    CallsSnoc(s.log, e);
  }

  lemma StepKeepsFaithful(s: State, a: Action)
    requires Faithful(s) && Awake(s)
    ensures Faithful(Next(s, a))
  {
    var t := Next(s, a);
    if t.log != s.log {
      LoggedStep(s, t, t.log[|s.log|]);
    }
  }

  lemma {:induction false} FaithfulAlways(run: seq<Action>)
    ensures Faithful(Exec(run))
  {
    if run != [] {
      FaithfulAlways(run[..|run| - 1]);
      AwakeAlways(run[..|run| - 1]);
      StepKeepsFaithful(Exec(run[..|run| - 1]), run[|run| - 1]);
    }
  }

  /** The call at `i` is of the handler registered at `j`, with no unregistration in between. */
  ghost predicate RegisteredSince(log: seq<Event>, j: int, i: int)
    requires 0 <= i < |log| && log[i].Called?
  {
    && 0 <= j < i && log[j] == Registered(log[i].fd, log[i].h)
    && forall k :: j < k < i ==> log[k] != Unregistered(log[i].fd)
  }

  /** In every run, a callback runs only for a descriptor that is registered at that point, with the
      handler it was registered with: none after `unregister_fd` has returned, until it is
      registered again. */
  lemma NoCallAfterUnregister(run: seq<Action>, i: nat)
    requires i < |Exec(run).log| && Exec(run).log[i].Called?
    ensures var e := Exec(run).log[i]; Current(Exec(run).log[..i], e.fd) == Some(e.h)
    ensures exists j :: RegisteredSince(Exec(run).log, j, i)
  {
    FaithfulAlways(run);
    var log := Exec(run).log;
    var j := CurrentSince(log[..i], log[i].fd);
    assert log[..i][j] == log[j];
    forall k | j < k < i ensures log[k] != Unregistered(log[i].fd) {
      assert log[..i][k] == log[k];
    }
    assert RegisteredSince(log, j, i);
  }

  lemma {:induction false} CurrentSince(log: seq<Event>, fd: Fd) returns (j: nat)
    requires Current(log, fd).Some?
    ensures j < |log| && log[j] == Registered(fd, Current(log, fd).value)
    ensures forall k :: j < k < |log| ==> log[k] != Unregistered(fd)
  {
    var n := |log| - 1;
    if Current(log[..n], fd).None? {
      j := n;
    } else {
      j := CurrentSince(log[..n], fd);
      assert log[..n][j] == log[j];
      forall k | j < k < n ensures log[k] != Unregistered(fd) {
        assert log[..n][k] == log[k];
      }
    }
  }

  // ---- The object ----

  lemma ThreeSteps(s: State, a: Action, b: Action, c: Action)
    ensures Steps(s, [a, b, c]) == Next(Next(Next(s, a), b), c)
  {
    assert [a, b, c][1..] == [b, c] && [b, c][1..] == [c] && [c][1..] == [];
    var t := Next(Next(s, a), b);
    assert Steps(t, [c]) == Next(t, c);
  }

  lemma FourSteps(s: State, a: Action, b: Action, c: Action, d: Action)
    ensures Steps(s, [a, b, c, d]) == Next(Next(Next(Next(s, a), b), c), d)
  {
    assert [a, b, c, d][1..] == [b, c, d];
    ThreeSteps(Next(s, a), b, c, d);
  }

  /** `TaskManager`. Each method is a stretch of code between two points where another thread can
      come in, and takes the step of the same name. */
  class TaskManager {
    var ioCallback: map<Fd, Handler>
    var stopped: bool
    var pipe: nat
    ghost var pc: Pc
    ghost var holder: Holder
    ghost var admitted: multiset<(Fd, Handler)>
    ghost var stopping: nat
    ghost var log: seq<Event>

    ghost function View(): State
      reads this
    {
      State(ioCallback, stopped, pipe, pc, holder, admitted, stopping, log)
    }

    constructor ()
      ensures View() == INITIAL
    {
      ioCallback, stopped, pipe := map[], false, 0;
      pc, holder, admitted, stopping, log := Testing, Free, multiset{}, 0, [];
    }

    /** The write of `signal_thread` on behalf of the caller that holds the mutex. */
    method SignalThread()
      requires holder.ByCaller? && !holder.signalled
      modifies this`pipe, this`holder
      ensures View() == Next(old(View()), CallerSignal)
    {
      pipe := pipe + SIGNAL_BYTES;
      holder := holder.(signalled := true);
    }

    /** The end of the scope of the lock in a caller. */
    method Unlock()
      requires holder.ByCaller? && holder.signalled
      modifies this`holder, this`log
      ensures View() == Next(old(View()), CallerUnlock)
    {
      log := if holder.unregisters then log + [Unregistered(holder.fd)] else log;
      holder := Free;
    }

    /** The change that `register_fd` makes under the lock. */
    method InsertLocked(fd: Fd, h: Handler)
      requires holder.Free? && (fd, h) in admitted
      modifies this`ioCallback, this`admitted, this`holder, this`log
      ensures View() == Next(old(View()), RegisterInsert(fd, h))
    {
      admitted, holder, log := admitted - multiset{(fd, h)}, ByCaller(fd, false, false), log + [Registered(fd, h)];
      if fd !in ioCallback {
        ioCallback := ioCallback[fd := h];
      }
    }

    /** `register_fd`, with no other thread in between. */
    method RegisterFd(fd: Fd, h: Handler) returns (ret: int)
      requires holder.Free?
      modifies this
      ensures ret == if old(stopped) then -1 else 0
      ensures old(stopped) ==> View() == old(View())
      ensures !old(stopped) ==> View() == Steps(old(View()),
        [RegisterTest(fd, h), RegisterInsert(fd, h), CallerSignal, CallerUnlock])
      ensures !old(stopped) ==> fd in ioCallback && pipe == old(pipe) + 4 && holder.Free?
      ensures !old(stopped) ==>
        ioCallback == if fd in old(ioCallback) then old(ioCallback) else old(ioCallback)[fd := h]
      ensures stopped == old(stopped)
    {
      if stopped {
        return -1;
      }
      ghost var s := View();
      admitted := admitted + multiset{(fd, h)};
      assert View() == Next(s, RegisterTest(fd, h));
      InsertLocked(fd, h);
      SignalThread();
      Unlock();
      FourSteps(s, RegisterTest(fd, h), RegisterInsert(fd, h), CallerSignal, CallerUnlock);
      return 0;
    }

    /** `unregister_fd`, with no other thread in between. */
    method UnregisterFd(fd: Fd)
      requires holder.Free?
      modifies this
      ensures View() == Steps(old(View()), [UnregisterErase(fd), CallerSignal, CallerUnlock])
      ensures ioCallback == old(ioCallback) - {fd} && pipe == old(pipe) + 4 && holder.Free? && stopped == old(stopped)
    {
      ghost var s := View();
      holder := ByCaller(fd, true, false);
      ioCallback := ioCallback - {fd};
      assert View() == Next(s, UnregisterErase(fd));
      SignalThread();
      Unlock();
      ThreeSteps(s, UnregisterErase(fd), CallerSignal, CallerUnlock);
    }

    /** `stop`, with no other thread in between. */
    method StopLoop()
      modifies this
      ensures View() == if old(stopped) then old(View()) else Next(Next(old(View()), StopSet), StopSignal)
      ensures stopped && ioCallback == old(ioCallback) && pipe == if old(stopped) then old(pipe) else old(pipe) + 4
    {
      if stopped {
        return;
      }
      stopped := true;
      pipe := pipe + SIGNAL_BYTES;
    }

    /** The test of the loop and the building of the descriptor set. */
    method EntryBuild() returns (fdread: set<Fd>)
      requires pc.Testing? && holder.Free?
      modifies this`pc
      ensures pc.Exited? ==> View() == Next(old(View()), LoopTest) && fdread == {}
      ensures !pc.Exited? ==> View() == Next(Next(old(View()), LoopTest), Build) && pc == Selecting(fdread)
    {
      fdread := {};
      if !(!stopped || ioCallback != map[]) {
        pc := Exited;
        return;
      }
      fdread := ioCallback.Keys;
      pc := Selecting(fdread);
    }

    /** Everything after select: the callbacks of the ready descriptors that are still registered,
        each once, then the drain. */
    method EntryDispatch(ready: set<Fd>, pipeReady: bool) returns (called: seq<Event>)
      requires pc == Woken(ready, pipeReady) && holder.Free?
      modifies this`pipe, this`pc, this`holder, this`log
      ensures pc.Testing? && holder.Free? && log == old(log) + called
      ensures pipe == if pipeReady then Drained(old(pipe)) else old(pipe)
      ensures pipeReady && old(pipe) <= 256 ==> pipe == 0
      ensures pipeReady && old(pipe) > 256 ==> pipe == old(pipe) - 256
      ensures ioCallback == old(ioCallback) && stopped == old(stopped)
      ensures forall e :: e in called <==> e.Called? && e.fd in ready && e.fd in ioCallback && e.h == ioCallback[e.fd]
      ensures forall i, j :: 0 <= i < j < |called| ==> called[i] != called[j]
    {
      var todo: set<Fd> := ioCallback.Keys * ready;
      pc, holder := Dispatching(todo, pipeReady), ByLoop;
      called := [];
      while todo != {}
        invariant pipe == old(pipe) && ioCallback == old(ioCallback)
        invariant todo <= ioCallback.Keys * ready && pc == Dispatching(todo, pipeReady)
        invariant log == old(log) + called
        invariant forall e :: e in called <==>
          e.Called? && e.fd in ready && e.fd in ioCallback && e.fd !in todo && e.h == ioCallback[e.fd]
        invariant forall i, j :: 0 <= i < j < |called| ==> called[i] != called[j]
        decreases todo
      {
        var fd :| fd in todo;
        var e := Called(fd, ioCallback[fd]);
        assert e !in called;
        called := called + [e];
        log := log + [e];
        todo := todo - {fd};
        pc := Dispatching(todo, pipeReady);
      }
      if pipeReady {
        pipe := Drained(pipe);
      }
      pc, holder := Testing, Free;
    }
  }
}
