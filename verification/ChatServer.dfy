/** The chat server: sessions with a write queue of which one write is in flight, and a server that
    posts to all of them. Handlers run one at a time; every list of events is a run, and an event
    that is not possible in a state leaves it as it is. */
module ChatServer {

  import opened Wrappers

  const WELCOME := "Welcome to chat\n\r"

  /** What `server::post` was called for. */
  datatype Post<S> = Newcomer | OneLess(who: S) | Said(who: S, text: string)

  function Text<S>(p: Post<S>): string {
    match p
    case Newcomer => "We have a newcomer\n\r"
    case OneLess(_) => "We are one less\n\r"
    case Said(_, text) => text
  }

  /** `outgoing` is the queue; `writing` and `reading` say whether a write and a read are in flight.
      The rest is history: what the peer was sent, whether a write failed, and the lengths of the
      server's log when the session was inserted into and erased from the clients. */
  datatype Session = Session(
    outgoing: seq<string>,
    writing: bool,
    reading: bool,
    delivered: seq<string>,
    failed: bool,
    join: nat,
    leave: Option<nat>)

  /** `log` is all that `server::post` was ever called with. */
  datatype Chat<!S> = Chat(sessions: map<S, Session>, clients: set<S>, log: seq<Post<S>>)

  datatype Event<S> =
    | Accept(s: S)
    | ReadOk(s: S, text: string)
    | ReadError(s: S)
    | WriteOk(s: S)
    | WriteError(s: S)

  function Posted(s: Session, message: string): Session {
    s.(outgoing := s.outgoing + [message], writing := s.writing || s.outgoing == [])
  }

  function Broadcast<S(==)>(c: Chat<S>, p: Post<S>): Chat<S> {
    c.(sessions := map x | x in c.sessions :: if x in c.clients then Posted(c.sessions[x], Text(p)) else c.sessions[x],
       log := c.log + [p])
  }

  function Welcomed(log: nat): Session {
    Posted(Session([], false, true, [], false, log, None), WELCOME)
  }

  /** `on_error` of a session: only the first one finds it among the clients. */
  function Dropped<S(==)>(c: Chat<S>, x: S): Chat<S>
    requires x in c.sessions
  {
    if x in c.clients then
      Broadcast(c.(clients := c.clients - {x}, sessions := c.sessions[x := c.sessions[x].(leave := Some(|c.log|))]),
                OneLess(x))
    else c
  }

  function Next<S(==)>(c: Chat<S>, e: Event<S>): Chat<S> {
    match e
    case Accept(x) =>
      if x in c.sessions then c
      else
        var d := Broadcast(c, Newcomer);
        d.(sessions := d.sessions[x := Welcomed(|d.log|)], clients := d.clients + {x})
    case ReadOk(x, text) =>
      if x in c.sessions && c.sessions[x].reading then Broadcast(c, Said(x, text)) else c
    case ReadError(x) =>
      if x in c.sessions && c.sessions[x].reading then
        Dropped(c.(sessions := c.sessions[x := c.sessions[x].(reading := false)]), x)
      else c
    case WriteOk(x) =>
      if x in c.sessions && c.sessions[x].writing then
        c.(sessions := c.sessions[x := Delivered(c.sessions[x])])
      else c
    case WriteError(x) =>
      if x in c.sessions && c.sessions[x].writing then
        Dropped(c.(sessions := c.sessions[x := c.sessions[x].(writing := false, failed := true)]), x)
      else c
  }

  /** `on_write` without an error. */
  function Delivered(s: Session): Session {
    if s.outgoing == [] then s
    else s.(outgoing := s.outgoing[1..], writing := |s.outgoing| > 1, delivered := s.delivered + [s.outgoing[0]])
  }

  function Exec<S(==)>(run: seq<Event<S>>): Chat<S> {
    if run == [] then Chat(map[], {}, []) else Next(Exec(run[..|run| - 1]), run[|run| - 1])
  }

  // ---- The invariant ----

  function Texts<S>(log: seq<Post<S>>): (t: seq<string>)
    ensures |t| == |log|
  {
    seq(|log|, i requires 0 <= i < |log| => Text(log[i]))
  }

  /** The part of the log that a session was among the clients for. */
  ghost predicate Ordered<S>(s: Session, log: seq<Post<S>>) {
    var end := if s.leave.Some? then s.leave.value else |log|;
    && s.join <= end <= |log|
    && s.delivered + s.outgoing == [WELCOME] + Texts(log[s.join..end])
  }

  /** One write is in flight as long as there is something to send, until a write fails. */
  ghost predicate OneWrite(s: Session) {
    && (s.writing ==> s.outgoing != [])
    && (!s.failed ==> (s.writing <==> s.outgoing != []))
    && (s.failed ==> !s.writing && s.leave.Some?)
  }

  ghost predicate Announced<S>(x: S, c: Chat<S>) {
    multiset(c.log)[OneLess(x)] == if x in c.sessions && x !in c.clients then 1 else 0
  }

  /** The departures are announced once `p` is in the log as well. */
  ghost predicate AnnouncedWith<S>(x: S, c: Chat<S>, p: Post<S>) {
    multiset(c.log)[OneLess(x)] + (if p == OneLess(x) then 1 else 0) ==
      if x in c.sessions && x !in c.clients then 1 else 0
  }

  ghost predicate Inv<S(!new)>(c: Chat<S>) {
    && c.clients <= c.sessions.Keys
    && (forall x :: x in c.sessions ==> Ordered(c.sessions[x], c.log) && OneWrite(c.sessions[x]))
    && (forall x :: x in c.sessions ==> (x in c.clients <==> c.sessions[x].leave.None?))
    && (forall x :: Announced(x, c))
  }

  lemma OrderedPosted<S>(s: Session, log: seq<Post<S>>, p: Post<S>)
    requires Ordered(s, log) && s.leave.None?
    ensures Ordered(Posted(s, Text(p)), log + [p])
  {
    var more := log + [p];
    assert more[s.join..] == log[s.join..] + [p];
    assert more[s.join..|more|] == more[s.join..] && log[s.join..|log|] == log[s.join..];
    assert Texts(log[s.join..] + [p]) == Texts(log[s.join..]) + [Text(p)];
    assert s.delivered + (s.outgoing + [Text(p)]) == s.delivered + s.outgoing + [Text(p)];
  }

  lemma OrderedStays<S>(s: Session, log: seq<Post<S>>, p: Post<S>)
    requires Ordered(s, log) && s.leave.Some?
    ensures Ordered(s, log + [p])
  {
    assert (log + [p])[s.join..s.leave.value] == log[s.join..s.leave.value];
  }

  lemma OrderedLeaves<S>(s: Session, t: Session, log: seq<Post<S>>)
    requires Ordered(s, log) && s.leave.None?
    requires t.leave == Some(|log|) && t.join == s.join && t.delivered + t.outgoing == s.delivered + s.outgoing
    ensures Ordered(t, log)
  {
  }

  lemma OrderedDelivered<S>(s: Session, log: seq<Post<S>>)
    requires Ordered(s, log)
    ensures Ordered(Delivered(s), log)
  {
    if s.outgoing != [] {
      assert s.delivered + [s.outgoing[0]] + s.outgoing[1..] == s.delivered + s.outgoing;
    }
  }

  /** A post keeps the invariant, but for the departure it may announce. */
  lemma BroadcastKeeps<S(!new)>(c: Chat<S>, p: Post<S>)
    requires c.clients <= c.sessions.Keys
    requires forall x :: x in c.sessions ==> Ordered(c.sessions[x], c.log) && OneWrite(c.sessions[x])
    requires forall x :: x in c.sessions ==> (x in c.clients <==> c.sessions[x].leave.None?)
    requires forall x :: AnnouncedWith(x, c, p)
    ensures Inv(Broadcast(c, p))
  {
    var d := Broadcast(c, p);
    forall x | x in d.sessions ensures Ordered(d.sessions[x], d.log) && OneWrite(d.sessions[x]) {
      if x in c.clients { OrderedPosted(c.sessions[x], c.log, p); } else { OrderedStays(c.sessions[x], c.log, p); }
    }
    forall x ensures Announced(x, d) {
      assert AnnouncedWith(x, c, p);
      assert multiset(d.log) == multiset(c.log) + multiset{p};
    }
  }

  /** One session replaced by a record with the same history of clients. */
  lemma ReplaceKeeps<S(!new)>(c: Chat<S>, x: S, t: Session)
    requires Inv(c) && x in c.sessions
    requires Ordered(t, c.log) && OneWrite(t) && t.leave == c.sessions[x].leave
    ensures Inv(c.(sessions := c.sessions[x := t]))
  {
    var d := c.(sessions := c.sessions[x := t]);
    forall y ensures Announced(y, d) {
      assert Announced(y, c);
    }
  }

  /** A session leaves the clients with record `t`, and its departure is posted. */
  lemma DepartureKeeps<S(!new)>(c: Chat<S>, x: S, t: Session)
    requires Inv(c) && x in c.clients
    requires Ordered(t, c.log) && OneWrite(t) && t.leave.Some?
    ensures Inv(Broadcast(c.(clients := c.clients - {x}, sessions := c.sessions[x := t]), OneLess(x)))
  {
    var d := c.(clients := c.clients - {x}, sessions := c.sessions[x := t]);
    forall y ensures AnnouncedWith(y, d, OneLess(x)) {
      assert Announced(y, c);
    }
    BroadcastKeeps(d, OneLess(x));
  }

  lemma DropKeeps<S(!new)>(c: Chat<S>, x: S, t: Session)
    requires Inv(c) && x in c.sessions
    requires var s := c.sessions[x];
      t == s.(reading := false) || (s.writing && t == s.(writing := false, failed := true))
    ensures Inv(Dropped(c.(sessions := c.sessions[x := t]), x))
  {
    var s, d := c.sessions[x], c.(sessions := c.sessions[x := t]);
    if x in c.clients {
      var gone := t.(leave := Some(|c.log|));
      OrderedLeaves(s, gone, c.log);
      assert d.sessions[x := gone] == c.sessions[x := gone];
      DepartureKeeps(c, x, gone);
    } else {
      ReplaceKeeps(c, x, t);
    }
  }

  lemma AcceptKeeps<S(!new)>(c: Chat<S>, x: S)
    requires Inv(c) && x !in c.sessions
    ensures Inv(Next(c, Accept(x)))
  {
    forall y ensures AnnouncedWith(y, c, Newcomer) {
      assert Announced(y, c);
    }
    BroadcastKeeps(c, Newcomer);
    var d, e := Broadcast(c, Newcomer), Next(c, Accept(x));
    assert d.log[|d.log|..] == [];
    forall y ensures Announced(y, e) {
      assert Announced(y, d);
    }
  }

  lemma StepKeeps<S(!new)>(c: Chat<S>, e: Event<S>)
    requires Inv(c)
    ensures Inv(Next(c, e))
  {
    match e {
      case Accept(x) => if x !in c.sessions { AcceptKeeps(c, x); }
      case ReadOk(x, text) =>
        forall y ensures AnnouncedWith(y, c, Said(x, text)) {
          assert Announced(y, c);
        }
        BroadcastKeeps(c, Said(x, text));
      case ReadError(x) =>
        if x in c.sessions { DropKeeps(c, x, c.sessions[x].(reading := false)); }
      case WriteOk(x) =>
        if x in c.sessions {
          OrderedDelivered(c.sessions[x], c.log);
          if c.sessions[x].writing { ReplaceKeeps(c, x, Delivered(c.sessions[x])); }
        }
      case WriteError(x) =>
        if x in c.sessions && c.sessions[x].writing {
          DropKeeps(c, x, c.sessions[x].(writing := false, failed := true));
        }
    }
  }

  lemma {:induction false} InvAlways<S(!new)>(run: seq<Event<S>>)
    ensures Inv(Exec(run))
  {
    if run != [] {
      InvAlways(run[..|run| - 1]);
      StepKeeps(Exec(run[..|run| - 1]), run[|run| - 1]);
    } else {
      forall x ensures Announced(x, Exec(run)) {}
    }
  }

  // ---- What every run keeps ----

  /** In every run, what a session was sent and still has to send is the welcome followed by one
      contiguous slice of the server's log, from its joining to its leaving or to now. */
  lemma TotalOrder<S(!new)>(run: seq<Event<S>>, x: S)
    requires x in Exec(run).sessions
    ensures var c := Exec(run); var s := c.sessions[x]; var end := if x in c.clients then |c.log| else s.leave.GetOr(0);
      && s.join <= end <= |c.log|
      && s.delivered + s.outgoing == [WELCOME] + Texts(c.log[s.join..end])
  {
    InvAlways(run);
  }

  /** Until a write has failed, a write is in flight exactly when there is something to send. */
  lemma {:induction false} OneWriteInFlight<S(!new)>(run: seq<Event<S>>, x: S)
    requires x in Exec(run).sessions && !Exec(run).sessions[x].failed
    ensures Exec(run).sessions[x].writing <==> Exec(run).sessions[x].outgoing != []
  {
    InvAlways(run);
  }

  /** Each departure is announced exactly once, and nobody else's is. */
  lemma DepartureAnnouncedOnce<S(!new)>(run: seq<Event<S>>, x: S)
    ensures multiset(Exec(run).log)[OneLess(x)] ==
      if x in Exec(run).sessions && x !in Exec(run).clients then 1 else 0
  {
    InvAlways(run);
    assert Announced(x, Exec(run));
  }

  /** Two sessions both present for a stretch of the log have been sent, or have queued, the very
      same messages for it in the same order. */
  lemma SameOrderForAll<S(!new)>(run: seq<Event<S>>, x: S, y: S, from: nat, to: nat)
    requires x in Exec(run).sessions && y in Exec(run).sessions
    requires var c := Exec(run); from <= to && Present(c, x, from, to) && Present(c, y, from, to)
    ensures to <= |Exec(run).log|
    ensures Stretch(Exec(run).sessions[x], from, to) == Texts(Exec(run).log[from..to])
    ensures Stretch(Exec(run).sessions[y], from, to) == Texts(Exec(run).log[from..to])
  {
    InvAlways(run);
    StretchOfLog(Exec(run), x, from, to);
    StretchOfLog(Exec(run), y, from, to);
  }

  ghost predicate Present<S>(c: Chat<S>, x: S, from: nat, to: nat)
    requires x in c.sessions
  {
    c.sessions[x].join <= from && to <= if x in c.clients then |c.log| else c.sessions[x].leave.GetOr(0)
  }

  /** The messages of a session for the log entries from `from` to `to`. */
  ghost function Stretch(s: Session, from: nat, to: nat): seq<string> {
    var all := s.delivered + s.outgoing;
    var lo, hi := 1 + from - s.join, 1 + to - s.join;
    if 0 <= lo <= hi <= |all| then all[lo..hi] else []
  }

  lemma SliceOfTexts<S>(all: seq<string>, log: seq<Post<S>>, join: nat, end: nat, from: nat, to: nat)
    requires join <= from <= to <= end <= |log| && all == [WELCOME] + Texts(log[join..end])
    ensures all[1 + from - join..1 + to - join] == Texts(log[from..to])
  {
    forall i | 0 <= i < to - from ensures all[1 + from - join..][i] == Texts(log[from..to])[i] {
      assert all[1 + from - join + i] == Texts(log[join..end])[from - join + i];
    }
  }

  lemma StretchOfLog<S(!new)>(c: Chat<S>, x: S, from: nat, to: nat)
    requires Inv(c) && x in c.sessions && from <= to && Present(c, x, from, to)
    ensures to <= |c.log| && Stretch(c.sessions[x], from, to) == Texts(c.log[from..to])
  {
    var s := c.sessions[x];
    var end := if x in c.clients then |c.log| else s.leave.GetOr(0);
    SliceOfTexts(s.delivered + s.outgoing, c.log, s.join, end, from, to);
  }

  // ---- What the events of a run come to ----

  /** Who was accepted, whose reads have not failed, who is still a client, and all that was posted: without
      the sessions and their queues. */
  datatype Roll<!S> = Roll(joined: set<S>, reading: set<S>, members: set<S>, log: seq<Post<S>>)

  function Left<S(==)>(r: Roll<S>, x: S): Roll<S> {
    if x in r.members then r.(members := r.members - {x}, log := r.log + [OneLess(x)]) else r
  }

  /** Every new session is announced and every line read is posted, both to all; a session leaves with its
      first failure. */
  function Entered<S(==)>(r: Roll<S>, e: Event<S>, inFlight: bool): Roll<S> {
    match e
    case Accept(x) =>
      if x in r.joined then r
      else Roll(r.joined + {x}, r.reading + {x}, r.members + {x}, r.log + [Newcomer])
    case ReadOk(x, text) => if x in r.reading then r.(log := r.log + [Said(x, text)]) else r
    case ReadError(x) => if x in r.reading then Left(r.(reading := r.reading - {x}), x) else r
    case WriteOk(_) => r
    case WriteError(x) => if inFlight then Left(r, x) else r
  }

  predicate InFlight<S>(c: Chat<S>, x: S) {
    x in c.sessions && c.sessions[x].writing
  }

  function RollOf<S(==)>(run: seq<Event<S>>): Roll<S> {
    if run == [] then Roll({}, {}, {}, [])
    else
      var front, e := run[..|run| - 1], run[|run| - 1];
      Entered(RollOf(front), e, InFlight(Exec(front), e.s))
  }

  ghost predicate StandsFor<S>(c: Chat<S>, r: Roll<S>) {
    && c.sessions.Keys == r.joined && c.clients == r.members && c.log == r.log
    && r.members <= r.joined && r.reading <= r.joined
    && forall x :: x in c.sessions ==> (c.sessions[x].reading <==> x in r.reading)
  }

  lemma BroadcastStands<S>(c: Chat<S>, r: Roll<S>, p: Post<S>)
    requires StandsFor(c, r)
    ensures StandsFor(Broadcast(c, p), r.(log := r.log + [p]))
  {
    assert Broadcast(c, p).sessions.Keys == c.sessions.Keys;
  }

  lemma LeftStands<S>(c: Chat<S>, r: Roll<S>, x: S)
    requires StandsFor(c, r) && x in c.sessions
    ensures StandsFor(Dropped(c, x), Left(r, x))
  {
    if x in c.clients {
      var d := c.(clients := c.clients - {x}, sessions := c.sessions[x := c.sessions[x].(leave := Some(|c.log|))]);
      BroadcastStands(d, r.(members := r.members - {x}), OneLess(x));
    }
  }

  lemma StandsStep<S>(c: Chat<S>, r: Roll<S>, e: Event<S>)
    requires StandsFor(c, r)
    ensures StandsFor(Next(c, e), Entered(r, e, InFlight(c, e.s)))
  {
    match e
    case Accept(x) => BroadcastStands(c, r, Newcomer);
    case ReadOk(x, text) => BroadcastStands(c, r, Said(x, text));
    case ReadError(x) =>
      if x in r.reading {
        var d := c.(sessions := c.sessions[x := c.sessions[x].(reading := false)]);
        LeftStands(d, r.(reading := r.reading - {x}), x);
      }
    case WriteOk(x) =>
    case WriteError(x) =>
      if InFlight(c, x) {
        var d := c.(sessions := c.sessions[x := c.sessions[x].(writing := false, failed := true)]);
        LeftStands(d, r, x);
      }
  }

  /** In every run the log, the clients and the reads are what the events of the run say: each line read
      was posted once, in order, and so was each arrival and each first failure. */
  lemma {:induction false} LogOfRun<S>(run: seq<Event<S>>)
    ensures StandsFor(Exec(run), RollOf(run))
  {
    if run != [] {
      var front := run[..|run| - 1];
      LogOfRun(front);
      StandsStep(Exec(front), RollOf(front), run[|run| - 1]);
    }
  }

  /** The lines of the log. */
  function SaidOnly<S>(log: seq<Post<S>>): seq<Post<S>> {
    if log == [] then []
    else
      var front, p := SaidOnly(log[..|log| - 1]), log[|log| - 1];
      if p.Said? then front + [p] else front
  }

  /** The lines that the sessions read, in the order of the run. */
  function LinesRead<S(==)>(run: seq<Event<S>>): seq<Post<S>> {
    if run == [] then []
    else
      var front, e := run[..|run| - 1], run[|run| - 1];
      if e.ReadOk? && e.s in RollOf(front).reading then LinesRead(front) + [Said(e.s, e.text)] else LinesRead(front)
  }

  lemma SaidOnlySnoc<S>(log: seq<Post<S>>, p: Post<S>)
    ensures SaidOnly(log + [p]) == if p.Said? then SaidOnly(log) + [p] else SaidOnly(log)
  {
    assert (log + [p])[..|log|] == log;
  }

  /** So the lines posted are exactly the lines read, and the announcements as many as the sessions. */
  lemma {:induction false} PostsOfRun<S>(run: seq<Event<S>>)
    ensures SaidOnly(Exec(run).log) == LinesRead(run)
    ensures multiset(Exec(run).log)[Newcomer] == |Exec(run).sessions|
  {
    LogOfRun(run);
    RollPosts(run);
    assert |Exec(run).sessions| == |Exec(run).sessions.Keys|;
  }

  lemma {:induction false} RollPosts<S>(run: seq<Event<S>>)
    ensures SaidOnly(RollOf(run).log) == LinesRead(run)
    ensures multiset(RollOf(run).log)[Newcomer] == |RollOf(run).joined|
  {
    if run != [] {
      var front, e := run[..|run| - 1], run[|run| - 1];
      RollPosts(front);
      EnteredPosts(RollOf(front), e, InFlight(Exec(front), e.s));
    }
  }

  lemma EnteredPosts<S>(r: Roll<S>, e: Event<S>, inFlight: bool)
    ensures var q := Entered(r, e, inFlight);
      && SaidOnly(q.log) ==
           (if e.ReadOk? && e.s in r.reading then SaidOnly(r.log) + [Said(e.s, e.text)] else SaidOnly(r.log))
      && multiset(q.log)[Newcomer] - multiset(r.log)[Newcomer] == |q.joined| - |r.joined|
  {
    var q := Entered(r, e, inFlight);
    if q.log != r.log {
      var p := q.log[|r.log|];
      assert q.log == r.log + [p];
      SaidOnlySnoc(r.log, p);
      assert multiset(q.log) == multiset(r.log) + multiset{p};
    }
  }

  /** How many writes of a session have succeeded. */
  function Written<S(==)>(run: seq<Event<S>>, x: S): nat {
    if run == [] then 0
    else
      var front, e := run[..|run| - 1], run[|run| - 1];
      Written(front, x) + if e == WriteOk(x) && InFlight(Exec(front), x) then 1 else 0
  }

  lemma DeliveredStep<S(!new)>(c: Chat<S>, e: Event<S>, x: S)
    requires Inv(c)
    ensures x in c.sessions ==> x in Next(c, e).sessions
    ensures x in Next(c, e).sessions ==>
      |Next(c, e).sessions[x].delivered| ==
        (if x in c.sessions then |c.sessions[x].delivered| else 0) + if e == WriteOk(x) && InFlight(c, x) then 1 else 0
  {
  }

  /** Each of them has delivered one message: with the total order, the first ones of the slice. */
  lemma {:induction false} DeliveredOfRun<S(!new)>(run: seq<Event<S>>, x: S)
    ensures Written(run, x) == if x in Exec(run).sessions then |Exec(run).sessions[x].delivered| else 0
  {
    if run != [] {
      var front := run[..|run| - 1];
      DeliveredOfRun(front, x);
      InvAlways(front);
      DeliveredStep(Exec(front), run[|run| - 1], x);
    }
  }

  // ---- The objects ----

  /** All that a session was and will be sent. */
  function Stream(s: Session): seq<string> {
    s.delivered + s.outgoing
  }

  lemma PostedStream(s: Session, message: string)
    ensures Stream(Posted(s, message)) == Stream(s) + [message]
  {
    assert s.delivered + (s.outgoing + [message]) == s.delivered + s.outgoing + [message];
  }

  class Client {
    var outgoing: seq<string>
    var writing: bool
    var reading: bool
    ghost var delivered: seq<string>
    ghost var failed: bool
    ghost var join: nat
    ghost var leave: Option<nat>

    ghost function View(): Session
      reads this
    {
      Session(outgoing, writing, reading, delivered, failed, join, leave)
    }

    constructor ()
      ensures View() == Session([], false, false, [], false, 0, None)
    {
      outgoing, writing, reading := [], false, false;
      delivered, failed, join, leave := [], false, 0, None;
    }

    /** `session::post`; `async_write` puts a write in flight. */
    method PostMessage(message: string)
      modifies this`outgoing, this`writing
      ensures View() == Posted(old(View()), message)
      ensures outgoing == old(outgoing) + [message] && writing == (old(writing) || old(outgoing) == [])
    {
      var idle := outgoing == [];
      outgoing := outgoing + [message];
      if idle {
        writing := true;
      }
    }

    /** `on_write` without an error. */
    method OnWritten()
      requires writing && outgoing != []
      modifies this`outgoing, this`writing, this`delivered
      ensures View() == Delivered(old(View()))
      ensures delivered == old(delivered) + [old(outgoing[0])] && outgoing == old(outgoing[1..])
      ensures writing <==> outgoing != []
    {
      delivered := delivered + [outgoing[0]];
      writing := false;
      outgoing := outgoing[1..];
      if outgoing != [] {
        writing := true;
      }
    }
  }

  lemma AcceptedIs<S>(c: Chat<S>, x: S, t: Chat<S>)
    requires x !in c.sessions
    requires t.sessions ==
      Broadcast(c, Newcomer).sessions[x := Session([WELCOME], true, true, [], false, |c.log| + 1, None)]
    requires t.clients == c.clients + {x} && t.log == c.log + [Newcomer]
    ensures t == Next(c, Accept(x))
  {
    assert [] + [WELCOME] == [WELCOME];
  }

  class Server {
    var clients: set<Client>
    /** Every session ever accepted. */
    ghost var known: set<Client>
    ghost var log: seq<Post<Client>>

    ghost predicate Valid()
      reads this
    {
      clients <= known
    }

    ghost function View(): Chat<Client>
      reads this, known
    {
      Chat(map x | x in known :: x.View(), clients, log)
    }

    constructor ()
      ensures Valid() && known == {} && View() == Chat(map[], {}, [])
    {
      clients, known, log := {}, {}, [];
    }

    /** `server::post`, for the reason `p`. */
    method PostAll(message: string, ghost p: Post<Client>)
      requires Valid() && message == Text(p)
      modifies this`log, clients
      ensures Valid() && View() == Broadcast(old(View()), p)
      ensures log == old(log) + [p]
      ensures forall x :: x in known ==>
        Stream(x.View()) == old(Stream(x.View())) + if x in clients then [message] else []
    {
      var rest := clients;
      while rest != {}
        invariant rest <= clients && log == old(log)
        invariant forall x :: x in known ==>
          x.View() == if x in clients - rest then Posted(old(x.View()), message) else old(x.View())
        decreases rest
      {
        var client :| client in rest;
        client.PostMessage(message);
        rest := rest - {client};
      }
      log := log + [p];
      ghost var want, now := Broadcast(old(View()), p), View();
      forall x | x in known ensures now.sessions[x] == want.sessions[x] {
        assert old(View()).sessions[x] == old(x.View());
      }
      assert now.sessions == want.sessions;
      forall x | x in known ensures Stream(x.View()) == old(Stream(x.View())) + if x in clients then [message] else [] {
        if x in clients { PostedStream(old(x.View()), message); }
      }
    }

    /** The accept handler, after it has made the session object. */
    method OnAccept(client: Client)
      requires Valid() && client !in known && client.View() == Session([], false, false, [], false, 0, None)
      modifies this, clients, client
      ensures Valid() && known == old(known) + {client}
      ensures View() == Next(old(View()), Accept(client))
      ensures log == old(log) + [Newcomer] && clients == old(clients) + {client} && client.reading && client.writing
      ensures Stream(client.View()) == [WELCOME]
      ensures forall x :: x in old(known) ==>
        Stream(x.View()) == old(Stream(x.View())) + if x in old(clients) then ["We have a newcomer\n\r"] else []
    {
      ghost var before := View();
      Greet(client);
      PostAll("We have a newcomer\n\r", Newcomer);
      Enroll(client);
      AcceptedIs(before, client, View());
    }

    /** Lines 116-117: a session that nobody else knows yet. */
    method Greet(client: Client)
      requires Valid() && client !in known && client.outgoing == []
      modifies client`outgoing, client`writing
      ensures View() == old(View())
      ensures client.outgoing == [WELCOME] && client.writing
    {
      client.PostMessage(WELCOME);
      assert View().sessions == old(View()).sessions;
    }

    /** Line 120, and the start of the first read. */
    method Enroll(client: Client)
      requires Valid() && client !in known
      modifies this`clients, this`known, client`reading, client`join
      ensures Valid() && known == old(known) + {client} && clients == old(clients) + {client}
      ensures client.View() == old(client.View()).(reading := true, join := |log|)
      ensures View() == Chat(old(View()).sessions[client := client.View()], clients, log)
    {
      clients := clients + {client};
      client.reading := true;
      client.join := |log|;
      known := known + {client};
      assert View().sessions == old(View()).sessions[client := client.View()];
    }

    /** `on_error`, bound to its session when the session was accepted. */
    method OnError(client: Client)
      requires Valid() && client in known
      modifies this`clients, this`log, known
      ensures Valid() && View() == Dropped(old(View()), client)
      ensures clients == old(clients) - {client}
      ensures log == old(log) + if old(client in clients) then [OneLess(client)] else []
      ensures forall x :: x in known ==>
        Stream(x.View()) ==
          old(Stream(x.View())) + if old(client in clients) && x in clients then ["We are one less\n\r"] else []
    {
      if client in clients {
        clients := clients - {client};
        client.leave := Some(|log|);
        assert View().sessions == old(View()).sessions[client := old(View()).sessions[client].(leave := Some(|log|))];
        PostAll("We are one less\n\r", OneLess(client));
      }
    }

    /** `on_read`; `text` is the peer's address and what it sent. */
    method OnRead(client: Client, error: bool, text: string)
      requires Valid() && client in known && client.reading
      modifies this`clients, this`log, known
      ensures Valid()
      ensures View() == Next(old(View()), if error then ReadError(client) else ReadOk(client, text))
      ensures !error ==> log == old(log) + [Said(client, text)] && clients == old(clients) && client.reading
      ensures !error ==> forall x :: x in known ==>
        Stream(x.View()) == old(Stream(x.View())) + if x in clients then [text] else []
      ensures error ==> clients == old(clients) - {client} && !client.reading
      ensures error ==> log == old(log) + if old(client in clients) then [OneLess(client)] else []
    {
      if !error {
        PostAll(text, Said(client, text));
      } else {
        client.reading := false;
        assert View().sessions == old(View()).sessions[client := old(View()).sessions[client].(reading := false)];
        OnError(client);
      }
    }

    /** `on_write`. */
    method OnWrite(client: Client, error: bool)
      requires Valid() && client in known && client.writing && client.outgoing != []
      modifies this`clients, this`log, known
      ensures Valid()
      ensures View() == Next(old(View()), if error then WriteError(client) else WriteOk(client))
      ensures !error ==> client.delivered == old(client.delivered) + [old(client.outgoing[0])]
      ensures !error ==> client.outgoing == old(client.outgoing[1..]) && (client.writing <==> client.outgoing != [])
      ensures !error ==> clients == old(clients) && log == old(log)
      ensures error ==> clients == old(clients) - {client} && !client.writing
      ensures error ==> log == old(log) + if old(client in clients) then [OneLess(client)] else []
    {
      if !error {
        client.OnWritten();
        assert View().sessions == old(View()).sessions[client := Delivered(old(View()).sessions[client])];
      } else {
        client.writing, client.failed := false, true;
        assert View().sessions ==
          old(View()).sessions[client := old(View()).sessions[client].(writing := false, failed := true)];
        OnError(client);
      }
    }
  }
}
