/** The task queue with a mutex and a condition variable: callers push and stop, one worker swaps
    the queue out under the lock and runs the batch outside it. Every list of actions is a run; an
    action that is not possible in a state leaves it as it is. */
module TaskQueue {

  /** Where the worker stands in `entry`. It holds the mutex in `Testing` and `Taking`. */
  datatype Worker = Starting | Testing | Waiting(notified: bool) | Taking | Running | Returned

  /** `admitted` holds tasks whose caller passed the unlocked test of `stopped` and has not pushed yet.
      `ran` and `pushed` are history; `final` is the number of pushes when the worker returned. */
  datatype State<T> = State(
    task: seq<T>,
    stopped: bool,
    batch: seq<T>,
    worker: Worker,
    admitted: multiset<T>,
    ran: seq<T>,
    pushed: seq<T>,
    final: nat)

  datatype Action<T> =
    | AddTest(t: T)
    | AddPush(t: T)
    | Stop
    | Lock
    | Test
    | Wake
    | Swap
    | RunOne

  function Init<T>(): State<T> {
    State([], false, [], Starting, multiset{}, [], [], 0)
  }

  predicate MutexFree<T>(s: State<T>) {
    !s.worker.Testing? && !s.worker.Taking?
  }

  function Notify(w: Worker): Worker {
    if w.Waiting? then Waiting(true) else w
  }

  /** The predicate handed to `cond.wait`, and the loop test. */
  predicate Ready<T>(s: State<T>) {
    s.task != [] || s.stopped
  }

  function Next<T(==)>(s: State<T>, a: Action<T>): State<T> {
    match a
    case AddTest(t) =>
      if s.stopped then s else s.(admitted := s.admitted + multiset{t})
    case AddPush(t) =>
      if t in s.admitted && MutexFree(s) then
        s.(admitted := s.admitted - multiset{t}, task := s.task + [t], pushed := s.pushed + [t],
           worker := Notify(s.worker))
      else s
    case Stop =>
      if MutexFree(s) then s.(stopped := true, worker := Notify(s.worker)) else s
    case Lock =>
      if s.worker.Starting? || (s.worker.Running? && s.batch == []) then s.(worker := Testing) else s
    case Test =>
      if !s.worker.Testing? then s
      else if s.stopped && s.task == [] then s.(worker := Returned, final := |s.pushed|)
      else if Ready(s) then s.(worker := Taking)
      else s.(worker := Waiting(false))
    case Wake =>
      if !s.worker.Waiting? then s
      else if Ready(s) then s.(worker := Taking)
      else s.(worker := Waiting(false))
    case Swap =>
      if s.worker.Taking? then s.(batch := s.task, task := [], worker := Running) else s
    case RunOne =>
      if s.worker.Running? && s.batch != [] then s.(ran := s.ran + [s.batch[0]], batch := s.batch[1..]) else s
  }

  function Exec<T(==)>(run: seq<Action<T>>): State<T> {
    if run == [] then Init() else Next(Exec(run[..|run| - 1]), run[|run| - 1])
  }

  ghost predicate Inv<T>(s: State<T>) {
    && s.ran + s.batch + s.task == s.pushed
    && (s.batch != [] ==> s.worker.Running?)
    && (s.worker.Waiting? && Ready(s) ==> s.worker.notified)
    && (s.worker.Returned? ==> s.stopped && |s.ran| == s.final <= |s.pushed| && s.ran == s.pushed[..s.final])
  }

  lemma StepKeepsInv<T>(s: State<T>, a: Action<T>)
    requires Inv(s)
    ensures Inv(Next(s, a))
  {
    var t := Next(s, a);
    match a {
      case AddPush(x) => Pushed(s.ran + s.batch, s.task, x);
      case RunOne => if s.batch != [] { RunFirst(s.ran, s.batch); }
      case _ => Swapped(s.ran, s.task);
    }
  }

  lemma Pushed<T>(front: seq<T>, task: seq<T>, x: T)
    ensures front + (task + [x]) == front + task + [x]
  {
  }

  lemma RunFirst<T>(ran: seq<T>, batch: seq<T>)
    requires batch != []
    ensures ran + [batch[0]] + batch[1..] == ran + batch
  {
  }

  lemma Swapped<T>(ran: seq<T>, task: seq<T>)
    ensures ran + task + [] == ran + [] + task
  {
  }

  lemma {:induction false} InvAlways<T>(run: seq<Action<T>>)
    ensures Inv(Exec(run))
  {
    if run != [] {
      InvAlways(run[..|run| - 1]);
      StepKeepsInv(Exec(run[..|run| - 1]), run[|run| - 1]);
    }
  }

  /** In every interleaving no task is lost, repeated or reordered. */
  lemma NothingLost<T>(run: seq<Action<T>>)
    ensures Exec(run).ran + Exec(run).batch + Exec(run).task == Exec(run).pushed
  {
    InvAlways(run);
  }

  /** When the worker has returned, exactly the tasks pushed before it returned have run; a task
      pushed later stays in the queue. */
  lemma RanWhatWasPushed<T>(run: seq<Action<T>>)
    requires Exec(run).worker.Returned?
    ensures var s := Exec(run);
      && s.stopped && s.final <= |s.pushed| && s.batch == []
      && s.ran == s.pushed[..s.final] && s.task == s.pushed[s.final..]
  {
    InvAlways(run);
    var s := Exec(run);
    assert s.ran + s.batch + s.task == s.ran + s.task;
  }

  /** The worker returns only with `stopped` set and an empty queue. */
  lemma ReturnsOnlyWhenDrained<T>(run: seq<Action<T>>, a: Action<T>)
    requires !Exec(run).worker.Returned? && Exec(run + [a]).worker.Returned?
    ensures var s := Exec(run + [a]);
      s.stopped && s.task == [] && s.batch == [] && s.ran == s.pushed && s.final == |s.pushed|
  {
    assert (run + [a])[..|run|] == run;
    InvAlways(run);
    var s := Exec(run);
    assert s.ran + [] + [] == s.ran;
  }

  /** A waiting worker with work, or with `stopped` set, has been notified. */
  lemma {:induction false} NoLostWakeUp<T>(run: seq<Action<T>>)
    requires Exec(run).worker.Waiting? && (Exec(run).task != [] || Exec(run).stopped)
    ensures Exec(run).worker.notified
    ensures Next(Exec(run), Wake).worker.Taking?
  {
    InvAlways(run);
  }

  // ---- What the calls of a run come to ----

  /** Some call of `stop` has got the mutex. */
  ghost predicate StopCalled<T>(run: seq<Action<T>>) {
    if run == [] then false
    else
      var front, a := run[..|run| - 1], run[|run| - 1];
      StopCalled(front) || (a.Stop? && MutexFree(Exec(front)))
  }

  /** The tasks of the calls of `add_task` that were not turned away, in the order of their tests. */
  ghost function Passed<T>(run: seq<Action<T>>): seq<T> {
    if run == [] then []
    else
      var front, a := run[..|run| - 1], run[|run| - 1];
      if a.AddTest? && !StopCalled(front) then Passed(front) + [a.t] else Passed(front)
  }

  /** The tasks whose push, after its test was passed, found the mutex free, in that order. */
  ghost function Accepted<T>(run: seq<Action<T>>): seq<T> {
    if run == [] then []
    else
      var front, a := run[..|run| - 1], run[|run| - 1];
      if a.AddPush? && MutexFree(Exec(front)) && multiset(Accepted(front))[a.t] < multiset(Passed(front))[a.t] then
        Accepted(front) + [a.t]
      else Accepted(front)
  }

  /** The state stands for what was called: the flag, the pushed tasks, each once and in the order of the
      pushes, and the calls that have still to push. */
  ghost predicate StandsFor<T>(s: State<T>, stopped: bool, passed: seq<T>, accepted: seq<T>) {
    s.stopped == stopped && s.pushed == accepted && s.admitted + multiset(accepted) == multiset(passed)
  }

  lemma CallsSnoc<T>(run: seq<Action<T>>, a: Action<T>)
    ensures StopCalled(run + [a]) == (StopCalled(run) || (a.Stop? && MutexFree(Exec(run))))
    ensures Passed(run + [a]) == if a.AddTest? && !StopCalled(run) then Passed(run) + [a.t] else Passed(run)
    ensures Accepted(run + [a]) ==
      if a.AddPush? && MutexFree(Exec(run)) && multiset(Accepted(run))[a.t] < multiset(Passed(run))[a.t]
      then Accepted(run) + [a.t] else Accepted(run)
  {
    assert (run + [a])[..|run|] == run;
  }

  lemma PushedCall<T>(s: State<T>, t: T, passed: multiset<T>)
    requires s.admitted + multiset(s.pushed) == passed
    ensures t in s.admitted <==> multiset(s.pushed)[t] < passed[t]
    ensures t in s.admitted ==> (s.admitted - multiset{t}) + multiset(s.pushed + [t]) == passed
  {
  }

  lemma StandsForTest<T>(s: State<T>, t: T, passed: seq<T>)
    requires StandsFor(s, false, passed, s.pushed)
    ensures StandsFor(Next(s, AddTest(t)), false, passed + [t], s.pushed)
  {
    assert multiset(passed + [t]) == multiset(passed) + multiset{t};
  }

  lemma StandsForPush<T>(s: State<T>, t: T, passed: seq<T>)
    requires StandsFor(s, s.stopped, passed, s.pushed)
    ensures StandsFor(Next(s, AddPush(t)), s.stopped, passed,
      if MutexFree(s) && multiset(s.pushed)[t] < multiset(passed)[t] then s.pushed + [t] else s.pushed)
  {
    PushedCall(s, t, multiset(passed));
  }

  lemma StandsForOther<T>(s: State<T>, a: Action<T>, passed: seq<T>)
    requires StandsFor(s, s.stopped, passed, s.pushed) && !a.AddPush? && (a.AddTest? ==> s.stopped)
    ensures StandsFor(Next(s, a), s.stopped || (a.Stop? && MutexFree(s)), passed, s.pushed)
  {
  }

  /** In every run the state stands for what was called in it. */
  lemma {:induction false} StateOfCalls<T>(run: seq<Action<T>>)
    ensures StandsFor(Exec(run), StopCalled(run), Passed(run), Accepted(run))
  {
    if run != [] {
      var front, a := run[..|run| - 1], run[|run| - 1];
      StateOfCalls(front);
      var s := Exec(front);
      assert front + [a] == run;
      CallsSnoc(front, a);
      match a {
        case AddTest(t) =>
          if s.stopped { StandsForOther(s, a, Passed(front)); } else { StandsForTest(s, t, Passed(front)); }
        case AddPush(t) => StandsForPush(s, t, Passed(front));
        case _ => StandsForOther(s, a, Passed(front));
      }
    }
  }

  // ---- The worker can always go on ----

  function Steps<T(==)>(s: State<T>, acts: seq<Action<T>>): State<T>
    decreases |acts|
  {
    if acts == [] then s else Steps(Next(s, acts[0]), acts[1..])
  }

  predicate OfWorker<T>(a: Action<T>) {
    !a.AddTest? && !a.AddPush? && !a.Stop?
  }

  /** All that was pushed in `s` has run in `t`, and the worker waits, or has returned if it should. */
  ghost predicate Finished<T>(s: State<T>, t: State<T>) {
    t.pushed == s.pushed && t.ran == s.pushed && t.worker == if s.stopped then Returned else Waiting(false)
  }

  /** The worker's own steps can bring it there. */
  ghost predicate CanFinish<T(!new)>(s: State<T>) {
    exists acts: seq<Action<T>> :: (forall i :: 0 <= i < |acts| ==> OfWorker(acts[i])) && Finished(s, Steps(s, acts))
  }

  lemma FinishLater<T(!new)>(s: State<T>, a: Action<T>)
    requires CanFinish(Next(s, a)) && OfWorker(a)
    ensures CanFinish(s)
  {
    var t := Next(s, a);
    var acts :| (forall i :: 0 <= i < |acts| ==> OfWorker(acts[i])) && Finished(t, Steps(t, acts));
    assert ([a] + acts)[1..] == acts;
    assert Finished(s, Steps(s, [a] + acts));
  }

  lemma FinishNow<T(!new)>(s: State<T>)
    requires Finished(s, s)
    ensures CanFinish(s)
  {
    assert Steps(s, []) == s;
  }

  lemma FinishTesting<T(!new)>(s: State<T>)
    requires Inv(s) && s.worker.Testing?
    ensures CanFinish(s)
    decreases 2 * |s.task|, 1
  {
    StepKeepsInv(s, Test);
    var t := Next(s, Test);
    if t.worker.Taking? {
      FinishTaking(t);
    } else {
      assert s.ran + [] + [] == s.ran;
      FinishNow(t);
    }
    FinishLater(s, Test);
  }

  lemma FinishTaking<T(!new)>(s: State<T>)
    requires Inv(s) && s.worker.Taking? && Ready(s)
    ensures CanFinish(s)
    decreases 2 * |s.task|, 0
  {
    StepKeepsInv(s, Swap);
    if s.task == [] {
      FinishDrained(Next(s, Swap));
    } else {
      FinishRunning(Next(s, Swap));
    }
    FinishLater(s, Swap);
  }

  /** Nothing is left in queue and batch: one more test. */
  lemma FinishDrained<T(!new)>(s: State<T>)
    requires Inv(s) && s.task == [] && s.batch == [] && (s.worker.Running? || s.worker.Starting?)
    ensures CanFinish(s)
  {
    var t := Next(s, Lock);
    assert s.ran + [] + [] == s.ran;
    FinishNow(Next(t, Test));
    FinishLater(t, Test);
    FinishLater(s, Lock);
  }

  lemma {:induction false} FinishRunning<T(!new)>(s: State<T>)
    requires Inv(s) && s.worker.Running?
    ensures CanFinish(s)
    decreases 2 * |s.task| + |s.batch|, 2
  {
    if s.batch != [] {
      StepKeepsInv(s, RunOne);
      FinishRunning(Next(s, RunOne));
      FinishLater(s, RunOne);
    } else {
      StepKeepsInv(s, Lock);
      FinishTesting(Next(s, Lock));
      FinishLater(s, Lock);
    }
  }

  /** In every run, whatever the callers and the worker are in the middle of: unless it has returned, the
      worker's own steps run all that was pushed, and then it waits, or returns if `stop` was called. */
  lemma WorkerFinishes<T(!new)>(run: seq<Action<T>>)
    requires !Exec(run).worker.Returned?
    ensures CanFinish(Exec(run))
  {
    InvAlways(run);
    TakingIsReady(run);
    var s := Exec(run);
    match s.worker
    case Starting =>
      StepKeepsInv(s, Lock);
      FinishTesting(Next(s, Lock));
      FinishLater(s, Lock);
    case Testing => FinishTesting(s);
    case Taking => FinishTaking(s);
    case Running => FinishRunning(s);
    case Waiting(_) =>
      StepKeepsInv(s, Wake);
      var t := Next(s, Wake);
      if Ready(s) {
        FinishTaking(t);
      } else {
        assert s.ran + [] + [] == s.ran;
        FinishNow(t);
      }
      FinishLater(s, Wake);
  }

  lemma {:induction false} TakingIsReady<T>(run: seq<Action<T>>)
    ensures Exec(run).worker.Taking? ==> Ready(Exec(run))
  {
    if run != [] { TakingIsReady(run[..|run| - 1]); }
  }

  // ---- The object ----

  /** `TaskManager`. Each method is one stretch of code that runs with the mutex held, or the
      unlocked test in front of it; what the worker thread and the callers are in the middle of is
      kept in ghost fields, and every method takes the step of the same name. */
  class TaskManager<T(==)> {
    var task: seq<T>
    var stopped: bool
    /** The local `tmp` of `entry`, less the tasks already run. */
    var tmp: seq<T>
    ghost var worker: Worker
    ghost var admitted: multiset<T>
    ghost var ran: seq<T>
    ghost var pushed: seq<T>
    ghost var final: nat

    ghost function View(): State<T>
      reads this
    {
      State(task, stopped, tmp, worker, admitted, ran, pushed, final)
    }

    constructor ()
      ensures View() == Init()
    {
      task, stopped, tmp := [], false, [];
      worker, admitted, ran, pushed, final := Starting, multiset{}, [], [], 0;
    }

    /** The test at the head of `add_task`. */
    method AddTaskTest(t: T) returns (ret: int)
      modifies this
      ensures View() == Next(old(View()), AddTest(t))
      ensures task == old(task) && stopped == old(stopped)
      ensures ret == if old(stopped) then -1 else 0
    {
      if stopped {
        return -1;
      }
      admitted := admitted + multiset{t};
      return 0;
    }

    /** The locked part of `add_task`. */
    method AddTaskPush(t: T)
      requires t in admitted && MutexFree(View())
      modifies this
      ensures View() == Next(old(View()), AddPush(t))
      ensures task == old(task) + [t] && pushed == old(pushed) + [t] && stopped == old(stopped)
      ensures old(worker).Waiting? ==> worker == Waiting(true)
    {
      task := task + [t];
      admitted, pushed, worker := admitted - multiset{t}, pushed + [t], Notify(worker);
    }

    method StopAll()
      requires MutexFree(View())
      modifies this
      ensures View() == Next(old(View()), Stop)
      ensures stopped && task == old(task)
      ensures old(worker).Waiting? ==> worker == Waiting(true)
    {
      stopped := true;
      worker := Notify(worker);
    }

    /** The loop test and the first evaluation inside `cond.wait`, with the mutex held. */
    method EntryTest() returns (done: bool, blocked: bool)
      requires worker.Testing?
      modifies this
      ensures View() == Next(old(View()), Test)
      ensures done == worker.Returned? && blocked == worker.Waiting?
      ensures done <==> stopped && task == []
      ensures blocked <==> !stopped && task == []
      ensures task == old(task) && stopped == old(stopped)
    {
      if !(!stopped || task != []) {
        worker, final := Returned, |pushed|;
        return true, false;
      }
      if !(task != [] || stopped) {
        worker := Waiting(false);
        return false, true;
      }
      worker := Taking;
      return false, false;
    }

    /** The swap and the unlock. */
    method EntrySwap()
      requires worker.Taking? && tmp == []
      modifies this
      ensures View() == Next(old(View()), Swap)
      ensures tmp == old(task) && task == [] && worker == Running
    {
      tmp, task := task, tmp;
      worker := Running;
    }

    /** `_process`, with no other thread in between: it runs the batch in order. */
    method Process()
      requires worker.Running?
      modifies this`tmp, this`ran
      ensures tmp == [] && ran == old(ran) + old(tmp)
    {
      while tmp != []
        invariant ran + tmp == old(ran) + old(tmp)
        decreases |tmp|
      {
        ran := ran + [tmp[0]];
        tmp := tmp[1..];
      }
    }
  }
}
