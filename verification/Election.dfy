/** Leader election over ephemeral sequential nodes: every worker process, its ZooKeeper client and
    the server, as one state machine. Any list of actions is a run; an action that is not possible
    in a state leaves it as it is. */
module Election {
  import opened Wrappers
  import opened NodeNames

  type MemberId = string

  datatype Node = Node(seqNo: nat, member: MemberId, session: nat)

  /** Which thread is inside `_elect`: the worker's main loop, or the client's watch thread. */
  datatype Caller = MainLoop | WatchThread

  /** Where a worker stands. Reading the children (and arming the watch) and deciding from the
      snapshot are separate steps. */
  datatype Pc =
    | Idle
    | Resetting
    | Creating
    | Reading(caller: Caller)
    | Deciding(caller: Caller, snapshot: set<Node>)

  /** `isLeader` is HAMaster's field and `stateChanges` ZKBase's. `armed` and `pending` are the child
      watch and the child events not yet delivered. `electedOn` is history: the node that came first
      in the snapshot of the last election this worker won. */
  datatype Worker = Worker(
    running: bool,
    isLeader: bool,
    stateChanges: bool,
    connected: bool,
    session: nat,
    pc: Pc,
    armed: bool,
    pending: nat,
    electedOn: Option<Node>)

  datatype System = System(
    nodes: set<Node>,
    nextSeq: nat,
    sessions: set<nat>,
    nextSession: nat,
    workers: map<MemberId, Worker>)

  datatype Action =
    | Start(m: MemberId)
    | Create(m: MemberId, seqNo: nat)
    | Read(m: MemberId)
    | Decide(m: MemberId)
    | FailCall(m: MemberId)
    | Interrupt(m: MemberId, keepWatch: bool, keepEvents: nat)
    | Reconnect(m: MemberId, sameSession: bool)
    | Expire(session: nat)
    | Deliver(m: MemberId)
    | ReinitZk(m: MemberId)
    | ReinitHa(m: MemberId)
    | Stop(m: MemberId)

  // ---- The lowest node ----

  predicate IsLowest(n: Node, nodes: set<Node>) {
    n in nodes && forall k :: k in nodes ==> n.seqNo <= k.seqNo
  }

  /** The lowest node carries `m`. */
  predicate Leads(m: MemberId, nodes: set<Node>) {
    exists n :: n in nodes && n.member == m && IsLowest(n, nodes)
  }

  lemma {:induction false} LowestExists(nodes: set<Node>)
    requires nodes != {}
    ensures exists n :: IsLowest(n, nodes)
    decreases |nodes|
  {
    var n :| n in nodes;
    var rest := nodes - {n};
    if rest == {} {
      assert nodes == {n};
      assert IsLowest(n, nodes);
    } else {
      LowestExists(rest);
      var k :| IsLowest(k, rest);
      assert IsLowest(if k.seqNo < n.seqNo then k else n, nodes);
    }
  }

  ghost function LowestNode(nodes: set<Node>): (n: Node)
    requires nodes != {}
    ensures IsLowest(n, nodes)
  {
    LowestExists(nodes);
    var n :| IsLowest(n, nodes); n
  }

  // ---- The node that the strings put first ----

  function PairOf(n: Node): (string, string) {
    NamePair(n.member, n.seqNo)
  }

  predicate IsFirst(n: Node, nodes: set<Node>) {
    n in nodes && forall k :: k in nodes ==> !TupleLess(PairOf(k), PairOf(n))
  }

  lemma {:induction false} FirstExists(nodes: set<Node>)
    requires nodes != {}
    ensures exists n :: IsFirst(n, nodes)
    decreases |nodes|
  {
    var n :| n in nodes;
    var rest := nodes - {n};
    TupleLessIrreflexive(PairOf(n));
    if rest == {} {
      assert nodes == {n};
      assert IsFirst(n, nodes);
    } else {
      FirstExists(rest);
      var k :| IsFirst(k, rest);
      FirstOf(n, k, rest);
      assert nodes == rest + {n};
      assert IsFirst(if TupleLess(PairOf(n), PairOf(k)) then n else k, nodes);
    }
  }

  lemma FirstOf(n: Node, k: Node, rest: set<Node>)
    requires IsFirst(k, rest)
    ensures IsFirst(if TupleLess(PairOf(n), PairOf(k)) then n else k, rest + {n})
  {
    TupleLessIrreflexive(PairOf(n));
    if TupleLess(PairOf(n), PairOf(k)) {
      forall j | j in rest ensures !TupleLess(PairOf(j), PairOf(n)) {
        if TupleLess(PairOf(j), PairOf(n)) { TupleLessTransitive(PairOf(j), PairOf(n), PairOf(k)); }
      }
    }
  }

  ghost function FirstNode(nodes: set<Node>): (n: Node)
    requires nodes != {}
    ensures IsFirst(n, nodes)
  {
    FirstExists(nodes);
    var n :| IsFirst(n, nodes); n
  }

  /** `min(node_list)[1]` is `m`. */
  ghost predicate Picks(m: MemberId, nodes: set<Node>) {
    nodes != {} && PairOf(FirstNode(nodes)).1 == m
  }

  // ---- Steps ----

  /** A child change fires the armed watches of the sessions that are still alive, once each. */
  function Fired(workers: map<MemberId, Worker>, sessions: set<nat>): map<MemberId, Worker> {
    map m | m in workers :: Notified(workers[m], sessions)
  }

  function Notified(w: Worker, sessions: set<nat>): Worker {
    if w.armed && w.session in sessions then w.(armed := false, pending := w.pending + 1) else w
  }

  /** The outcome of `_elect` (lines 111-122) for member `m`. An empty list makes `min` raise: that
      ends the main loop, and on the watch thread it is swallowed. */
  ghost function Decided(m: MemberId, w: Worker): Worker
    requires w.pc.Deciding?
  {
    if w.pc.snapshot == {} then Failed(w)
    else if Picks(m, w.pc.snapshot) then
      w.(isLeader := true, electedOn := Some(FirstNode(w.pc.snapshot)), pc := Idle)
    else w.(isLeader := false, pc := Idle)
  }

  /** An exception inside `elect`, `_elect` or `reinit`. */
  function Failed(w: Worker): Worker {
    var onWatch := (w.pc.Reading? || w.pc.Deciding?) && w.pc.caller == WatchThread;
    w.(pc := Idle, running := w.running && onWatch)
  }

  function Fresh(session: nat): Worker {
    Worker(true, false, false, true, session, Creating, false, 0, None)
  }

  ghost function Next(s: System, a: Action): System {
    match a
    case Start(m) =>
      if m in s.workers then s
      else s.(workers := s.workers[m := Fresh(s.nextSession)],
              sessions := s.sessions + {s.nextSession}, nextSession := s.nextSession + 1)
    case Expire(session) =>
      var sessions := s.sessions - {session};
      var nodes := set n | n in s.nodes && n.session != session;
      s.(sessions := sessions, nodes := nodes,
         workers := if nodes == s.nodes then s.workers else Fired(s.workers, sessions))
    case _ =>
      if a.m in s.workers then StepOf(s, a.m, s.workers[a.m], a) else s
  }

  /** The step of one worker. Calls to the server need its session to be alive. */
  ghost function StepOf(s: System, m: MemberId, w: Worker, a: Action): System
    requires m in s.workers && s.workers[m] == w && !a.Start? && !a.Expire?
  {
    var alive := w.session in s.sessions && w.connected;
    match a
    case Create(_, seqNo) =>
      if w.running && w.pc == Creating && alive && s.nextSeq <= seqNo <= MAX_SEQ then
        var made := s.workers[m := w.(pc := Reading(MainLoop))];
        s.(nodes := s.nodes + {Node(seqNo, m, w.session)}, nextSeq := seqNo + 1,
           workers := Fired(made, s.sessions))
      else s
    case Read(_) =>
      if w.pc.Reading? && alive then
        s.(workers := s.workers[m := w.(pc := Deciding(w.pc.caller, s.nodes), armed := true)])
      else s
    case Decide(_) =>
      if w.pc.Deciding? then s.(workers := s.workers[m := Decided(m, w)]) else s
    case FailCall(_) =>
      if (w.pc == Creating || w.pc.Reading?) && !alive then s.(workers := s.workers[m := Failed(w)]) else s
    case Interrupt(_, keepWatch, keepEvents) =>
      s.(workers := s.workers[m := w.(connected := false, stateChanges := true,
         armed := w.armed && keepWatch, pending := if keepEvents < w.pending then keepEvents else w.pending)])
    case Reconnect(_, sameSession) =>
      if w.connected then s
      else if sameSession && w.session in s.sessions then s.(workers := s.workers[m := w.(connected := true)])
      else s.(workers := s.workers[m := w.(connected := true, session := s.nextSession, armed := false)],
              sessions := s.sessions + {s.nextSession}, nextSession := s.nextSession + 1)
    case Deliver(_) =>
      if w.pc == Idle && w.pending > 0 then
        s.(workers := s.workers[m := w.(pending := w.pending - 1, pc := Reading(WatchThread))])
      else s
    case ReinitZk(_) =>
      if w.running && w.pc == Idle && w.stateChanges && w.connected then
        s.(workers := s.workers[m := w.(stateChanges := false, pc := Resetting)])
      else s
    case ReinitHa(_) =>
      if w.pc == Resetting then s.(workers := s.workers[m := w.(isLeader := false, pc := Creating)]) else s
    case Stop(_) =>
      s.(workers := s.workers[m := w.(running := false)])
  }

  const INITIAL: System := System({}, 0, {}, 0, map[])

  ghost function Exec(run: seq<Action>): System {
    if run == [] then INITIAL else Next(Exec(run[..|run| - 1]), run[|run| - 1])
  }

  // ---- Safety ----

  /** Sequence numbers are unique and fit ten digits. */
  ghost predicate Numbered(nodes: set<Node>) {
    && (forall n :: n in nodes ==> n.seqNo <= MAX_SEQ)
    && (forall n, k :: n in nodes && k in nodes && n.seqNo == k.seqNo ==> n == k)
  }

  ghost predicate AllPlain(ids: set<MemberId>) {
    forall m :: m in ids ==> PlainId(m)
  }

  /** The nodes are numbered and their ids split back out of the names. */
  ghost predicate Nameable(nodes: set<Node>) {
    Numbered(nodes) && forall n :: n in nodes ==> PlainId(n.member)
  }

  ghost predicate OfWorkers(nodes: set<Node>, s: System) {
    forall n :: n in nodes ==> n.member in s.workers
  }

  ghost predicate NodesOk(s: System) {
    Numbered(s.nodes) && OfWorkers(s.nodes, s) && forall n :: n in s.nodes ==> n.seqNo < s.nextSeq
  }

  /** Every live node outside `seen` is younger than all of `seen`. */
  ghost predicate Stable(seen: set<Node>, s: System) {
    && (forall n :: n in seen ==> n.seqNo < s.nextSeq)
    && (forall n, k :: n in seen && k in s.nodes && k !in seen ==> n.seqNo < k.seqNo)
  }

  /** No node with a plain id is lower. */
  ghost predicate IsLowestPlain(n: Node, nodes: set<Node>) {
    n in nodes && forall k :: k in nodes && PlainId(k.member) ==> n.seqNo <= k.seqNo
  }

  /** The node a leader was elected on has its id in front; if it is the leader's own, it stays the
      lowest of those with plain ids for as long as it lives. */
  ghost predicate Rightful(m: MemberId, w: Worker, s: System) {
    && w.electedOn.Some?
    && CutId(w.electedOn.value.member) == m
    && w.electedOn.value.member in s.workers
    && w.electedOn.value.seqNo < s.nextSeq
    && (PlainId(w.electedOn.value.member) && w.electedOn.value in s.nodes ==> IsLowestPlain(w.electedOn.value, s.nodes))
  }

  ghost predicate SafeWorker(m: MemberId, w: Worker, s: System) {
    && (w.pc.Deciding? ==> Numbered(w.pc.snapshot) && OfWorkers(w.pc.snapshot, s) && Stable(w.pc.snapshot, s))
    && (w.isLeader ==> Rightful(m, w, s))
  }

  ghost predicate Safe(s: System) {
    NodesOk(s) && forall m :: m in s.workers ==> SafeWorker(m, s.workers[m], s)
  }

  /** Nodes only disappear, or appear with a number from the counter on. */
  ghost predicate Grows(s: System, t: System) {
    && s.nextSeq <= t.nextSeq && s.workers.Keys <= t.workers.Keys
    && forall n :: n in t.nodes ==> n in s.nodes || s.nextSeq <= n.seqNo
  }

  lemma StaysSafe(m: MemberId, w: Worker, v: Worker, s: System, t: System)
    requires SafeWorker(m, w, s) && Grows(s, t)
    requires v.pc.Deciding? ==> v.pc == w.pc
    requires v.isLeader ==> w.isLeader && v.electedOn == w.electedOn
    ensures SafeWorker(m, v, t)
  {
  }

  lemma SafeNodes(s: System, a: Action)
    requires Safe(s)
    ensures NodesOk(Next(s, a)) && Grows(s, Next(s, a))
  {
    if a.Create? && a.m in s.workers {
      assert SafeWorker(a.m, s.workers[a.m], s);
    }
  }

  /** Among plain ids, the string order is that of the numbers. */
  lemma FirstIsLowestPlain(n: Node, nodes: set<Node>)
    requires Numbered(nodes) && IsFirst(n, nodes)
    ensures PlainId(n.member) ==> IsLowestPlain(n, nodes)
  {
    if PlainId(n.member) {
      forall k | k in nodes && PlainId(k.member) ensures n.seqNo <= k.seqNo {
        SeqFieldOrder(k.seqNo, n.seqNo);
      }
    }
  }

  lemma SafeDecision(m: MemberId, w: Worker, s: System)
    requires SafeWorker(m, w, s) && w.pc.Deciding?
    ensures SafeWorker(m, Decided(m, w), s)
  {
    if Picks(m, w.pc.snapshot) {
      var first := FirstNode(w.pc.snapshot);
      FirstIsLowestPlain(first, w.pc.snapshot);
      if PlainId(first.member) && first in s.nodes {
        assert IsLowestPlain(first, s.nodes);
      }
    }
  }

  /** A worker that does not act is left alone, or its watch fires. */
  lemma Bystander(s: System, a: Action, m: MemberId)
    requires m in s.workers && (a.Expire? || a.m != m)
    ensures m in Next(s, a).workers
    ensures var t := Next(s, a); t.workers[m] == s.workers[m] || t.workers[m] == Notified(s.workers[m], t.sessions)
  {
  }

  lemma SafeActor(s: System, a: Action)
    requires Safe(s) && !a.Expire? && !a.Start? && a.m in s.workers
    ensures a.m in Next(s, a).workers && SafeWorker(a.m, Next(s, a).workers[a.m], Next(s, a))
  {
    var t, w := Next(s, a), s.workers[a.m];
    assert SafeWorker(a.m, w, s);
    SafeNodes(s, a);
    if a.Decide? {
      if w.pc.Deciding? { SafeDecision(a.m, w, s); }
    } else if a.Read? {
      StaysSafe(a.m, w, w, s, t);
    } else {
      StaysSafe(a.m, w, t.workers[a.m], s, t);
    }
  }

  lemma SafeStep(s: System, a: Action)
    requires Safe(s)
    ensures Safe(Next(s, a))
  {
    var t := Next(s, a);
    SafeNodes(s, a);
    forall m | m in t.workers ensures SafeWorker(m, t.workers[m], t) {
      if m in s.workers {
        assert SafeWorker(m, s.workers[m], s);
        if a.Expire? || a.m != m {
          Bystander(s, a, m);
          StaysSafe(m, s.workers[m], t.workers[m], s, t);
        } else if a.Start? {
          StaysSafe(m, s.workers[m], t.workers[m], s, t);
        } else {
          SafeActor(s, a);
        }
      }
    }
  }

  lemma {:induction false} SafeAlways(run: seq<Action>)
    ensures Safe(Exec(run))
  {
    if run != [] {
      SafeAlways(run[..|run| - 1]);
      SafeStep(Exec(run[..|run| - 1]), run[|run| - 1]);
    }
  }

  /** In every run, the node a leader was elected on bears its id in front; if it is its own, it is the
      lowest of those with plain ids while it lives. With plain ids only, it is its own and the lowest. */
  lemma LeaderHoldsLowestNode(run: seq<Action>, m: MemberId)
    requires m in Exec(run).workers && Exec(run).workers[m].isLeader
    ensures Rightful(m, Exec(run).workers[m], Exec(run))
    ensures AllPlain(Exec(run).workers.Keys) ==>
      var on := Exec(run).workers[m].electedOn.value;
      on.member == m && (on in Exec(run).nodes ==> IsLowest(on, Exec(run).nodes))
  {
    SafeAlways(run);
    assert SafeWorker(m, Exec(run).workers[m], Exec(run));
  }

  /** Some id is cut to that of another worker, and there is a third that can be elected. */
  ghost predicate Clash(ids: set<MemberId>) {
    exists a, b, c :: ClashOf(ids, a, b, c)
  }

  ghost predicate ClashOf(ids: set<MemberId>, a: MemberId, b: MemberId, c: MemberId) {
    a in ids && b in ids && c in ids && a != b && PlainId(a) && !PlainId(c) && CutId(c) == b
  }

  ghost predicate LeadsOnLiveNode(m: MemberId, s: System) {
    m in s.workers && s.workers[m].isLeader && s.workers[m].electedOn.Some? && s.workers[m].electedOn.value in s.nodes
  }

  /** In every run, at most one worker has `is_leader` set while the node it was elected on lives, unless
      the ids clash. */
  lemma AtMostOneLeader(run: seq<Action>, a: MemberId, b: MemberId)
    requires LeadsOnLiveNode(a, Exec(run)) && LeadsOnLiveNode(b, Exec(run))
    requires !Clash(Exec(run).workers.Keys)
    ensures a == b
  {
    SafeAlways(run);
    var s := Exec(run);
    assert SafeWorker(a, s.workers[a], s) && SafeWorker(b, s.workers[b], s);
    var n, k := s.workers[a].electedOn.value, s.workers[b].electedOn.value;
    assert a == PairOf(n).1 && b == PairOf(k).1;
    assert !ClashOf(s.workers.Keys, b, a, n.member) && !ClashOf(s.workers.Keys, a, b, k.member);
  }

  // ---- Quiescence ----

  /** Nothing about the session is left for the worker to handle. */
  ghost predicate Settled(w: Worker, s: System) {
    w.running && !w.stateChanges && w.session in s.sessions
  }

  ghost predicate Owns(m: MemberId, w: Worker, nodes: set<Node>) {
    exists n :: n in nodes && n.member == m && n.session == w.session
  }

  /** The watch still stands for what the worker has seen, or an event tells otherwise. */
  ghost predicate Informed(m: MemberId, w: Worker, s: System) {
    match w.pc
    case Idle => Owns(m, w, s.nodes) && (w.pending > 0 || (w.armed && (w.isLeader <==> Picks(m, s.nodes))))
    case Reading(_) => Owns(m, w, s.nodes)
    case Deciding(_, snapshot) =>
      Owns(m, w, s.nodes) && Owns(m, w, snapshot) && (w.pending > 0 || (w.armed && snapshot == s.nodes))
    case _ => true
  }

  ghost predicate LiveWorker(m: MemberId, w: Worker, s: System) {
    && w.session < s.nextSession
    && (!w.connected ==> w.stateChanges)
    && (Settled(w, s) ==> Informed(m, w, s))
  }

  ghost predicate Live(s: System) {
    && (forall x :: x in s.sessions ==> x < s.nextSession)
    && (forall m :: m in s.workers ==> LiveWorker(m, s.workers[m], s))
  }

  lemma LeadsIsLowest(m: MemberId, nodes: set<Node>)
    requires Nameable(nodes) && nodes != {}
    ensures Leads(m, nodes) <==> LowestNode(nodes).member == m
  {
    if Leads(m, nodes) {
      var k :| k in nodes && k.member == m && IsLowest(k, nodes);
      assert k.seqNo == LowestNode(nodes).seqNo;
    }
  }

  /** With plain ids only, the strings pick the owner of the lowest node. */
  lemma PicksIsLeads(m: MemberId, nodes: set<Node>)
    requires Nameable(nodes)
    ensures Picks(m, nodes) <==> Leads(m, nodes)
  {
    if nodes != {} {
      FirstIsLowestPlain(FirstNode(nodes), nodes);
      LeadsIsLowest(m, nodes);
    }
  }

  lemma OwnsStill(m: MemberId, w: Worker, v: Worker, before: set<Node>, after: set<Node>)
    requires Owns(m, w, before) && v.session == w.session
    requires forall n :: n in before && n.session == w.session ==> n in after
    ensures Owns(m, v, after)
  {
    var n :| n in before && n.member == m && n.session == w.session;
    assert n in after;
  }

  /** A change of the node set keeps a bystander informed: its watch was armed, so it fires. */
  lemma BystanderStaysLive(m: MemberId, s: System, t: System)
    requires Live(s) && m in s.workers && m in t.workers
    requires t.workers[m] == s.workers[m] || t.workers[m] == Notified(s.workers[m], t.sessions)
    requires s.nextSession <= t.nextSession
    requires s.workers[m].session in t.sessions ==> s.workers[m].session in s.sessions
    requires t.workers[m] == s.workers[m] && s.workers[m].armed && s.workers[m].session in t.sessions ==>
      t.nodes == s.nodes
    requires forall n :: n in s.nodes && n.session in t.sessions ==> n in t.nodes
    ensures LiveWorker(m, t.workers[m], t)
  {
    var w, v := s.workers[m], t.workers[m];
    assert LiveWorker(m, w, s);
    if Settled(v, t) && (w.pc.Idle? || w.pc.Reading? || w.pc.Deciding?) {
      OwnsStill(m, w, v, s.nodes, t.nodes);
      if w.pc.Deciding? { OwnsStill(m, w, v, w.pc.snapshot, w.pc.snapshot); }
    }
  }

  lemma LiveExpire(s: System, session: nat)
    requires Live(s)
    ensures Live(Next(s, Expire(session)))
  {
    var t := Next(s, Expire(session));
    forall m | m in t.workers ensures LiveWorker(m, t.workers[m], t) {
      BystanderStaysLive(m, s, t);
    }
  }

  lemma LiveCreate(s: System, m: MemberId, seqNo: nat)
    requires Live(s)
    ensures Live(Next(s, Create(m, seqNo)))
  {
    var t := Next(s, Create(m, seqNo));
    if t != s {
      var mine := Node(seqNo, m, s.workers[m].session);
      assert mine in t.nodes;
      forall k | k in t.workers ensures LiveWorker(k, t.workers[k], t) {
        if k != m {
          BystanderStaysLive(k, s, t);
        } else {
          assert LiveWorker(m, s.workers[m], s);
          assert Owns(m, t.workers[m], t.nodes);
        }
      }
    }
  }

  lemma LiveDecider(m: MemberId, w: Worker, s: System)
    requires LiveWorker(m, w, s) && w.pc.Deciding?
    ensures LiveWorker(m, Decided(m, w), s)
  {
    var v := Decided(m, w);
    if Settled(v, s) {
      assert w.pc.snapshot != {};
      assert v == w.(pc := Idle, isLeader := Picks(m, w.pc.snapshot), electedOn := v.electedOn);
      OwnsStill(m, w, v, s.nodes, s.nodes);
    }
  }

  lemma LiveDecide(s: System, m: MemberId)
    requires Live(s)
    ensures Live(Next(s, Decide(m)))
  {
    var t := Next(s, Decide(m));
    if t != s {
      LiveDecider(m, s.workers[m], s);
      forall k | k in t.workers ensures LiveWorker(k, t.workers[k], t) {
        if k != m { BystanderStaysLive(k, s, t); }
      }
    }
  }

  /** The other steps touch one worker and leave the nodes alone. */
  lemma LiveLocal(s: System, a: Action)
    requires Live(s)
    requires !a.Expire? && !a.Create? && !a.Decide?
    ensures Live(Next(s, a))
  {
    var t := Next(s, a);
    forall k | k in t.workers ensures LiveWorker(k, t.workers[k], t) {
      if k != a.m {
        BystanderStaysLive(k, s, t);
      } else if k in s.workers {
        var w, v := s.workers[k], t.workers[k];
        assert LiveWorker(k, w, s);
        if Settled(w, s) && (w.pc.Idle? || w.pc.Reading? || w.pc.Deciding?) && v.session == w.session {
          OwnsStill(k, w, v, s.nodes, t.nodes);
          if w.pc.Deciding? { OwnsStill(k, w, v, w.pc.snapshot, w.pc.snapshot); }
        }
      }
    }
  }

  lemma {:induction false} LiveAlways(run: seq<Action>)
    ensures Live(Exec(run))
  {
    if run != [] {
      var s, a := Exec(run[..|run| - 1]), run[|run| - 1];
      LiveAlways(run[..|run| - 1]);
      match a {
        case Expire(session) => LiveExpire(s, session);
        case Create(m, seqNo) => LiveCreate(s, m, seqNo);
        case Decide(m) => LiveDecide(s, m);
        case _ => LiveLocal(s, a);
      }
    }
  }

  /** A running worker with nothing left to handle: no undelivered child event, no election in
      flight, no session change unseen or unhandled. */
  ghost predicate Quiet(w: Worker, s: System) {
    w.running && w.pc == Idle && w.pending == 0 && !w.stateChanges && w.session in s.sessions
  }

  lemma PlainNodes(run: seq<Action>)
    requires AllPlain(Exec(run).workers.Keys)
    ensures Nameable(Exec(run).nodes)
  {
    SafeAlways(run);
  }

  /** In every run, a quiet worker is leader exactly when the strings pick it from the live nodes: with
      plain ids only, when the lowest live node carries its id. */
  lemma QuietWorkersAgree(run: seq<Action>, m: MemberId)
    requires m in Exec(run).workers && Quiet(Exec(run).workers[m], Exec(run))
    ensures Exec(run).workers[m].isLeader <==> Picks(m, Exec(run).nodes)
    ensures AllPlain(Exec(run).workers.Keys) ==> (Exec(run).workers[m].isLeader <==> Leads(m, Exec(run).nodes))
  {
    LiveAlways(run);
    assert LiveWorker(m, Exec(run).workers[m], Exec(run));
    if AllPlain(Exec(run).workers.Keys) {
      PlainNodes(run);
      PicksIsLeads(m, Exec(run).nodes);
    }
  }

  /** `w` is wrong about the nodes, by the strings or, with plain ids only, by the numbers. */
  ghost predicate Disagrees(m: MemberId, w: Worker, s: System) {
    w.isLeader != Picks(m, s.nodes) || (AllPlain(s.workers.Keys) && w.isLeader != Leads(m, s.nodes))
  }

  /** The inductive core: a running, idle worker that disagrees with the nodes has an event or a
      session change still to come. */
  lemma DisagreementIsPending(run: seq<Action>, m: MemberId)
    requires m in Exec(run).workers
    requires var w := Exec(run).workers[m]; w.running && w.pc == Idle && Disagrees(m, w, Exec(run))
    ensures var w := Exec(run).workers[m]; w.pending > 0 || w.stateChanges || w.session !in Exec(run).sessions
  {
    if Quiet(Exec(run).workers[m], Exec(run)) { QuietWorkersAgree(run, m); }
  }

  /** When every running worker is quiet and there is one, the only running leader is the worker that
      the strings pick: with plain ids only, the owner of the lowest node. */
  lemma OneLeaderWhenQuiet(run: seq<Action>, m: MemberId)
    requires var s := Exec(run); forall k :: k in s.workers && s.workers[k].running ==> Quiet(s.workers[k], s)
    requires m in Exec(run).workers && Exec(run).workers[m].running
    ensures Exec(run).nodes != {}
    ensures var s := Exec(run); var winner := PairOf(FirstNode(s.nodes)).1;
      forall k :: k in s.workers && s.workers[k].running ==> (s.workers[k].isLeader <==> k == winner)
    ensures var s := Exec(run);
      AllPlain(s.workers.Keys) ==> PairOf(FirstNode(s.nodes)).1 == LowestNode(s.nodes).member
  {
    var s := Exec(run);
    LiveAlways(run);
    assert LiveWorker(m, s.workers[m], s);
    var own :| own in s.nodes && own.member == m;
    forall k | k in s.workers && s.workers[k].running
      ensures s.workers[k].isLeader <==> k == PairOf(FirstNode(s.nodes)).1
    {
      QuietWorkersAgree(run, k);
    }
    if AllPlain(s.workers.Keys) {
      PlainNodes(run);
      PicksIsLeads(LowestNode(s.nodes).member, s.nodes);
    }
  }

  /** `min` never sees an empty list unless the session changed under the worker. */
  lemma EmptySnapshotMeansSessionChange(run: seq<Action>, m: MemberId)
    requires m in Exec(run).workers
    requires var w := Exec(run).workers[m]; w.running && w.pc.Deciding? && w.pc.snapshot == {}
    ensures var w := Exec(run).workers[m]; w.stateChanges || w.session !in Exec(run).sessions
  {
    LiveAlways(run);
    assert LiveWorker(m, Exec(run).workers[m], Exec(run));
  }

  // ---- What get_children returns ----

  /** The children in any order, each listed once or more. */
  ghost predicate IsListing(names: seq<string>, nodes: set<Node>) {
    && (forall i :: 0 <= i < |names| ==> HasNodeNamed(names[i], nodes))
    && (forall n :: n in nodes ==> NodeName(n.member, n.seqNo) in names)
  }

  ghost predicate HasNodeNamed(name: string, nodes: set<Node>) {
    exists n :: n in nodes && name == NodeName(n.member, n.seqNo)
  }

  ghost function NodeNamed(name: string, nodes: set<Node>): (n: Node)
    requires HasNodeNamed(name, nodes)
    ensures n in nodes && name == NodeName(n.member, n.seqNo)
  {
    var n :| n in nodes && name == NodeName(n.member, n.seqNo); n
  }

  lemma EmptyListing(names: seq<string>, nodes: set<Node>)
    requires IsListing(names, nodes)
    ensures names == [] <==> nodes == {}
  {
    if names != [] {
      var n := NodeNamed(names[0], nodes);
      assert n in nodes;
    }
  }

  /** A listing splits into the pairs of all the nodes, in some order. */
  lemma ListingSplits(nodes: set<Node>, names: seq<string>) returns (l: seq<(string, string)>, from: seq<Node>)
    requires IsListing(names, nodes)
    ensures SplitAll(names) == Some(l) && |l| == |from| == |names|
    ensures forall i :: 0 <= i < |l| ==> from[i] in nodes && l[i] == PairOf(from[i])
    ensures forall n :: n in nodes ==> PairOf(n) in l
  {
    from := seq(|names|, i requires 0 <= i < |names| => NodeNamed(names[i], nodes));
    l := seq(|names|, i requires 0 <= i < |names| => PairOf(from[i]));
    SplitAllIs(names, l);
    forall n | n in nodes ensures PairOf(n) in l {
      var at :| 0 <= at < |names| && names[at] == NodeName(n.member, n.seqNo);
      assert SplitName(names[at]) == Some(l[at]);
    }
  }

  /** On a listing of the children in any order, `min(node_list)[1]` is the same: the id in front of the
      first node. */
  lemma StringMinIsFirstNode(nodes: set<Node>, names: seq<string>)
    requires nodes != {} && IsListing(names, nodes)
    ensures SplitAll(names).Some? && SplitAll(names).value != []
    ensures MinTuple(SplitAll(names).value) == PairOf(FirstNode(nodes))
  {
    EmptyListing(names, nodes);
    var l, from := ListingSplits(nodes, names);
    MinTupleIs(l, PairOf(FirstNode(nodes)));
  }

  /** With plain ids only, that is the member of the numerically lowest node. */
  lemma StringMinIsLowestNode(nodes: set<Node>, names: seq<string>)
    requires Nameable(nodes) && nodes != {} && IsListing(names, nodes)
    ensures SplitAll(names).Some? && SplitAll(names).value != []
    ensures MinTuple(SplitAll(names).value).1 == LowestNode(nodes).member
  {
    StringMinIsFirstNode(nodes, names);
    LeadsIsLowest(LowestNode(nodes).member, nodes);
    PicksIsLeads(LowestNode(nodes).member, nodes);
  }

  /** So in every run the string computation of a deciding worker names the first node it saw: with
      plain ids only, the lowest. */
  lemma DecisionIsNumeric(run: seq<Action>, m: MemberId, names: seq<string>)
    requires m in Exec(run).workers
    requires var w := Exec(run).workers[m]; w.pc.Deciding? && w.pc.snapshot != {} && IsListing(names, w.pc.snapshot)
    ensures SplitAll(names).Some? && SplitAll(names).value != []
    ensures MinTuple(SplitAll(names).value) == PairOf(FirstNode(Exec(run).workers[m].pc.snapshot))
    ensures AllPlain(Exec(run).workers.Keys) ==>
      MinTuple(SplitAll(names).value).1 == LowestNode(Exec(run).workers[m].pc.snapshot).member
  {
    SafeAlways(run);
    var w := Exec(run).workers[m];
    assert SafeWorker(m, w, Exec(run));
    StringMinIsFirstNode(w.pc.snapshot, names);
    if AllPlain(Exec(run).workers.Keys) { StringMinIsLowestNode(w.pc.snapshot, names); }
  }
}
