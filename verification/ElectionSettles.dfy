/** Left alone, the election comes to rest: without new starts, interruptions, expiries and stops only so
    many steps are possible, and when none is left the leader is the one the strings pick. */
module ElectionSettles {
  import opened Wrappers
  import opened NodeNames
  import opened Election

  /** The steps of the protocol itself. */
  predicate Calm(a: Action) {
    !a.Start? && !a.Interrupt? && !a.Expire? && !a.Stop?
  }

  // ---- What a worker still has to do ----

  function Bit(b: bool): nat {
    if b then 1 else 0
  }

  /** How many nodes it will create at most. */
  function ToCreate(w: Worker): nat {
    Bit(w.stateChanges) + Bit(w.pc == Creating || w.pc == Resetting)
  }

  /** How many other steps it can take, if no node is created by anyone. */
  function ToDo(w: Worker): nat {
    3 * w.pending + 3 * Bit(w.stateChanges) + Bit(!w.connected) +
    match w.pc
    case Idle => 0
    case Resetting => 2
    case Creating => 1
    case Reading(_) => 2
    case Deciding(_, _) => 1
  }

  /** `k` is what one creation counts for: the events it makes, and one more step of its worker. */
  function Weight(w: Worker, k: nat): nat {
    k * ToCreate(w) + ToDo(w)
  }

  ghost function Total(ws: map<MemberId, Worker>, k: nat): nat {
    if ws == map[] then 0
    else
      var m :| m in ws;
      Weight(ws[m], k) + Total(ws - {m}, k)
  }

  lemma {:induction false} TotalWithout(ws: map<MemberId, Worker>, k: nat, m: MemberId)
    requires m in ws
    ensures Total(ws, k) == Weight(ws[m], k) + Total(ws - {m}, k)
    decreases |ws|
  {
    var x :| x in ws && Total(ws, k) == Weight(ws[x], k) + Total(ws - {x}, k);
    if x != m {
      TotalWithout(ws - {x}, k, m);
      TotalWithout(ws - {m}, k, x);
      assert ws - {x} - {m} == ws - {m} - {x};
    }
  }

  lemma TotalUpdate(ws: map<MemberId, Worker>, k: nat, m: MemberId, v: Worker)
    requires m in ws
    ensures Total(ws[m := v], k) == Total(ws, k) - Weight(ws[m], k) + Weight(v, k)
  {
    TotalWithout(ws, k, m);
    TotalWithout(ws[m := v], k, m);
    assert ws[m := v] - {m} == ws - {m};
  }

  /** The events of one change of the nodes count for three steps each. */
  lemma {:induction false} TotalFired(ws: map<MemberId, Worker>, k: nat, sessions: set<nat>)
    ensures Total(Fired(ws, sessions), k) <= Total(ws, k) + 3 * |ws|
    decreases |ws|
  {
    if ws == map[] {
      assert Fired(ws, sessions) == map[];
    } else {
      var m :| m in ws;
      TotalFired(ws - {m}, k, sessions);
      TotalWithout(ws, k, m);
      TotalWithout(Fired(ws, sessions), k, m);
      assert Fired(ws, sessions) - {m} == Fired(ws - {m}, sessions);
      assert |ws - {m}| == |ws| - 1;
    }
  }

  // ---- Every step makes the measure smaller ----

  ghost function Measure(s: System): nat {
    Total(s.workers, 3 * |s.workers| + 2)
  }

  lemma CreateDescends(s: System, m: MemberId, seqNo: nat)
    requires Next(s, Create(m, seqNo)) != s
    ensures Next(s, Create(m, seqNo)).workers.Keys == s.workers.Keys
    ensures Measure(Next(s, Create(m, seqNo))) < Measure(s)
  {
    var t, w, k := Next(s, Create(m, seqNo)), s.workers[m], 3 * |s.workers| + 2;
    var v := w.(pc := Reading(MainLoop));
    var made := s.workers[m := v];
    assert t.workers == Fired(made, s.sessions);
    assert made.Keys == s.workers.Keys && t.workers.Keys == s.workers.Keys;
    SameSize(made, s.workers);
    SameSize(t.workers, s.workers);
    TotalUpdate(s.workers, k, m, v);
    TotalFired(made, k, s.sessions);
    OneLess(w, v, k);
  }

  lemma OneLess(w: Worker, v: Worker, k: nat)
    requires w.pc == Creating && v == w.(pc := Reading(MainLoop))
    ensures Weight(v, k) == Weight(w, k) - k + 1
  {
    assert ToCreate(w) == ToCreate(v) + 1;
    assert k * ToCreate(w) == k * ToCreate(v) + k;
  }

  lemma SameSize<V, W>(a: map<MemberId, V>, b: map<MemberId, W>)
    requires a.Keys == b.Keys
    ensures |a| == |b|
  {
    assert |a| == |a.Keys| && |b| == |b.Keys|;
  }

  /** The other steps touch one worker. */
  lemma LocalStep(s: System, a: Action)
    requires Calm(a) && !a.Create? && Next(s, a) != s
    ensures a.m in s.workers && a.m in Next(s, a).workers
    ensures Next(s, a).workers == s.workers[a.m := Next(s, a).workers[a.m]]
  {
  }

  ghost predicate LessToDo(w: Worker, v: Worker) {
    ToCreate(v) <= ToCreate(w) && ToDo(v) < ToDo(w)
  }

  lemma ElectDescends(s: System, a: Action)
    requires (a.Read? || a.Decide? || a.FailCall?) && Next(s, a) != s && a.m in s.workers && a.m in Next(s, a).workers
    ensures LessToDo(s.workers[a.m], Next(s, a).workers[a.m])
  {
  }

  lemma SessionDescends(s: System, a: Action)
    requires (a.Reconnect? || a.Deliver? || a.ReinitZk? || a.ReinitHa?) && Next(s, a) != s
    requires a.m in s.workers && a.m in Next(s, a).workers
    ensures LessToDo(s.workers[a.m], Next(s, a).workers[a.m])
  {
  }

  /** Every step of the protocol that changes anything makes the measure smaller. */
  lemma CalmStepDescends(s: System, a: Action)
    requires Calm(a) && Next(s, a) != s
    ensures Next(s, a).workers.Keys == s.workers.Keys && Measure(Next(s, a)) < Measure(s)
  {
    if a.Create? {
      CreateDescends(s, a.m, a.seqNo);
    } else {
      LocalStep(s, a);
      if a.Read? || a.Decide? || a.FailCall? { ElectDescends(s, a); } else { SessionDescends(s, a); }
      var t, k := Next(s, a), 3 * |s.workers| + 2;
      var w, v := s.workers[a.m], t.workers[a.m];
      assert t.workers.Keys == s.workers.Keys;
      SameSize(t.workers, s.workers);
      TotalUpdate(s.workers, k, a.m, v);
      WeightDescends(w, v, k);
    }
  }

  lemma WeightDescends(w: Worker, v: Worker, k: nat)
    requires LessToDo(w, v)
    ensures Weight(v, k) < Weight(w, k)
  {
    assert k * ToCreate(v) <= k * ToCreate(w);
  }

  // ---- Runs of such steps ----

  ghost function After(s: System, acts: seq<Action>): System
    decreases |acts|
  {
    if acts == [] then s else After(Next(s, acts[0]), acts[1..])
  }

  /** Steps of the protocol, each of which changes something. */
  ghost predicate Effective(s: System, acts: seq<Action>)
    decreases |acts|
  {
    acts == [] || (Calm(acts[0]) && Next(s, acts[0]) != s && Effective(Next(s, acts[0]), acts[1..]))
  }

  ghost predicate NothingLeft(s: System) {
    forall a :: Calm(a) ==> Next(s, a) == s
  }

  /** From any state, in whatever order the steps come, there are at most as many as the measure says. */
  lemma {:induction false} CalmRunsEnd(s: System, acts: seq<Action>)
    requires Effective(s, acts)
    ensures |acts| <= Measure(s)
    decreases |acts|
  {
    if acts != [] {
      CalmStepDescends(s, acts[0]);
      CalmRunsEnd(Next(s, acts[0]), acts[1..]);
    }
  }

  /** So going on as long as possible comes to an end. */
  lemma {:induction false} ComesToRest(s: System) returns (acts: seq<Action>)
    ensures Effective(s, acts) && NothingLeft(After(s, acts))
    decreases Measure(s)
  {
    if NothingLeft(s) {
      acts := [];
    } else {
      var a :| Calm(a) && Next(s, a) != s;
      CalmStepDescends(s, a);
      var rest := ComesToRest(Next(s, a));
      acts := [a] + rest;
      assert acts[1..] == rest;
    }
  }

  // ---- Who goes on ----

  /** A worker ends exactly when it is told to, when its main loop is inside `elect` and a call fails for
      want of the session, and when that finds an empty list of nodes. Handling a session change ends
      none. */
  lemma StopsOnlyInElect(s: System, a: Action, m: MemberId)
    requires m in s.workers && s.workers[m].running
    ensures m in Next(s, a).workers
    ensures !Next(s, a).workers[m].running <==>
      var w := s.workers[m];
      || a == Stop(m)
      || (a == FailCall(m) && (w.pc == Creating || w.pc == Reading(MainLoop)) &&
          !(w.session in s.sessions && w.connected))
      || (a == Decide(m) && w.pc == Deciding(MainLoop, {}))
  {
  }

  /** Nodes come only with their worker's creation, one at a time, and go only with their session. */
  lemma NodesOfStep(s: System, a: Action, n: Node)
    ensures n in Next(s, a).nodes && n !in s.nodes ==>
      a == Create(n.member, n.seqNo) && n.member in s.workers && n.session == s.workers[n.member].session
    ensures n in s.nodes ==> (n !in Next(s, a).nodes <==> a == Expire(n.session))
  {
  }

  /** A worker gets a new session only when it reconnects without its old one; resuming a live session
      loses no node, watch or event. */
  lemma SessionOfStep(s: System, a: Action, m: MemberId)
    requires m in s.workers
    ensures Next(s, a).workers[m].session != s.workers[m].session ==>
      a.Reconnect? && a.m == m && !s.workers[m].connected && (!a.sameSession || s.workers[m].session !in s.sessions)
    ensures a == Reconnect(m, true) && s.workers[m].session in s.sessions ==>
      Next(s, a) == s.(workers := s.workers[m := s.workers[m].(connected := true)])
  {
    if a == Reconnect(m, true) && s.workers[m].connected {
      assert s.workers[m].(connected := true) == s.workers[m];
      assert s.workers[m := s.workers[m]] == s.workers;
    }
  }

  /** A running, idle worker with a live session and a session change to handle. */
  ghost predicate ToReregister(m: MemberId, s: System) {
    && m in s.workers && s.workers[m].running && s.workers[m].pc == Idle && s.workers[m].stateChanges
    && s.workers[m].connected && s.workers[m].session in s.sessions
  }

  /** The handling of a session change, with no other step in between: the worker goes on running, owns a
      new node of its present session, and leads exactly when it is picked. It is quiet unless an event
      was left over or its old watch told it of its own node. */
  lemma Reregisters(s: System, m: MemberId, k: nat)
    requires ToReregister(m, s) && s.nextSeq <= k <= MAX_SEQ
    ensures var t := After(s, [ReinitZk(m), ReinitHa(m), Create(m, k), Read(m), Decide(m)]);
      && m in t.workers && t.workers[m].running && t.workers[m].pc == Idle && !t.workers[m].stateChanges
      && t.workers[m].session == s.workers[m].session && t.workers[m].session in t.sessions
      && t.nodes == s.nodes + {Node(k, m, s.workers[m].session)}
      && (t.workers[m].isLeader <==> Picks(m, t.nodes))
      && (Quiet(t.workers[m], t) <==> s.workers[m].pending == 0 && !s.workers[m].armed)
  {
    var acts := [ReinitZk(m), ReinitHa(m), Create(m, k), Read(m), Decide(m)];
    var s1 := Next(s, ReinitZk(m));
    var s2 := Next(s1, ReinitHa(m));
    assert acts[1..] == [ReinitHa(m), Create(m, k), Read(m), Decide(m)];
    assert acts[1..][1..] == [Create(m, k), Read(m), Decide(m)];
    GivenUp(s, m);
    CreatesAndElects(s2, m, k);
  }

  lemma GivenUp(s: System, m: MemberId)
    requires ToReregister(m, s)
    ensures Next(Next(s, ReinitZk(m)), ReinitHa(m)) ==
      s.(workers := s.workers[m := s.workers[m].(stateChanges := false, isLeader := false, pc := Creating)])
  {
  }

  lemma CreatesAndElects(s: System, m: MemberId, k: nat)
    requires m in s.workers && s.workers[m].running && s.workers[m].pc == Creating && s.nextSeq <= k <= MAX_SEQ
    requires s.workers[m].connected && s.workers[m].session in s.sessions
    ensures var t, w := After(s, [Create(m, k), Read(m), Decide(m)]), s.workers[m];
      && m in t.workers && t.sessions == s.sessions && t.nodes == s.nodes + {Node(k, m, w.session)}
      && t.workers[m] == w.(pc := Idle, armed := true, pending := w.pending + Bit(w.armed),
           isLeader := Picks(m, t.nodes), electedOn := t.workers[m].electedOn)
  {
    assert [Create(m, k), Read(m), Decide(m)][1..] == [Read(m), Decide(m)];
    var t := Next(s, Create(m, k));
    CreatesOne(s, m, k);
    assert Node(k, m, s.workers[m].session) in t.nodes;
    ReadsAndDecides(t, m);
  }

  lemma CreatesOne(s: System, m: MemberId, k: nat)
    requires m in s.workers && s.workers[m].running && s.workers[m].pc == Creating && s.nextSeq <= k <= MAX_SEQ
    requires s.workers[m].connected && s.workers[m].session in s.sessions
    ensures var t, w := Next(s, Create(m, k)), s.workers[m];
      && m in t.workers && t.sessions == s.sessions && t.nodes == s.nodes + {Node(k, m, w.session)}
      && t.workers[m] == w.(pc := Reading(MainLoop), armed := false, pending := w.pending + Bit(w.armed))
  {
  }

  lemma ReadsAndDecides(s: System, m: MemberId)
    requires m in s.workers && s.workers[m].pc.Reading? && s.nodes != {}
    requires s.workers[m].connected && s.workers[m].session in s.sessions
    ensures var t, w := After(s, [Read(m), Decide(m)]), s.workers[m];
      && m in t.workers && t.sessions == s.sessions && t.nodes == s.nodes
      && t.workers[m] ==
           w.(pc := Idle, armed := true, isLeader := Picks(m, s.nodes), electedOn := t.workers[m].electedOn)
  {
    assert [Read(m), Decide(m)][1..] == [Decide(m)] && [Decide(m)][1..] == [];
    var t := Next(s, Read(m));
    assert t.workers[m].pc.Deciding? && t.workers[m].pc.snapshot == s.nodes;
    assert After(t, [Decide(m)]) == Next(t, Decide(m));
  }

  // ---- What is there in the end ----

  /** No running worker takes a dead session for alive. */
  ghost predicate Noticed(s: System) {
    forall m :: m in s.workers && s.workers[m].running && s.workers[m].connected ==> s.workers[m].session in s.sessions
  }

  lemma CalmKeepsNoticed(s: System, a: Action)
    requires Noticed(s) && Calm(a)
    ensures Noticed(Next(s, a))
  {
  }

  lemma {:induction false} StaysNoticed(s: System, acts: seq<Action>)
    requires Noticed(s) && Effective(s, acts)
    ensures Noticed(After(s, acts))
    decreases |acts|
  {
    if acts != [] {
      CalmKeepsNoticed(s, acts[0]);
      StaysNoticed(Next(s, acts[0]), acts[1..]);
    }
  }

  /** A worker with no step left is quiet, unless the sequence numbers are used up. */
  lemma NothingLeftMeansQuiet(s: System, m: MemberId)
    requires NothingLeft(s) && Noticed(s) && s.nextSeq <= MAX_SEQ
    requires m in s.workers && s.workers[m].running
    ensures Quiet(s.workers[m], s)
  {
    var w := s.workers[m];
    assert Next(s, Reconnect(m, false)) == s;
    assert Next(s, Create(m, s.nextSeq)) == s && Next(s, Read(m)) == s && Next(s, Decide(m)) == s;
    assert Next(s, Deliver(m)) == s && Next(s, ReinitZk(m)) == s && Next(s, ReinitHa(m)) == s;
    assert w.connected;
  }

  lemma {:induction false} AfterRun(run: seq<Action>, acts: seq<Action>)
    ensures After(Exec(run), acts) == Exec(run + acts)
    decreases |acts|
  {
    if acts == [] {
      assert run + acts == run;
    } else {
      assert (run + [acts[0]])[..|run|] == run;
      assert run + acts == run + [acts[0]] + acts[1..];
      AfterRun(run + [acts[0]], acts[1..]);
    }
  }

  /** After any run, once the protocol has been left to itself until nothing is left, in any order, the
      only running leader is the worker the strings pick: with plain ids only, the owner of the lowest
      node. */
  lemma ElectionSettles(run: seq<Action>, acts: seq<Action>, m: MemberId)
    requires Noticed(Exec(run)) && Effective(Exec(run), acts) && NothingLeft(After(Exec(run), acts))
    requires var t := After(Exec(run), acts); t.nextSeq <= MAX_SEQ && m in t.workers && t.workers[m].running
    ensures After(Exec(run), acts).nodes != {}
    ensures var t := After(Exec(run), acts); var winner := PairOf(FirstNode(t.nodes)).1;
      forall k :: k in t.workers && t.workers[k].running ==> (t.workers[k].isLeader <==> k == winner)
    ensures var t := After(Exec(run), acts);
      AllPlain(t.workers.Keys) ==> PairOf(FirstNode(t.nodes)).1 == LowestNode(t.nodes).member
  {
    var t := After(Exec(run), acts);
    StaysNoticed(Exec(run), acts);
    AfterRun(run, acts);
    forall k | k in t.workers && t.workers[k].running ensures Quiet(t.workers[k], t) {
      NothingLeftMeansQuiet(t, k);
    }
    OneLeaderWhenQuiet(run + acts, m);
  }
}
