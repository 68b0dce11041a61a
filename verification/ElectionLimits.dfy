/** For which ids the election does what it is for: the exact conditions, with runs that break it
    outside them. */
module ElectionLimits {
  import opened Wrappers
  import opened NodeNames
  import opened Election

  // ---- Runs over a set of ids ----

  ghost predicate Over(run: seq<Action>, ids: set<MemberId>) {
    forall i :: 0 <= i < |run| && run[i].Start? ==> run[i].m in ids
  }

  /** Workers with ids from `ids` can bring the system to `s`. */
  ghost predicate Reachable(ids: set<MemberId>, s: System) {
    exists run :: Over(run, ids) && Exec(run) == s
  }

  lemma ReachInitial(ids: set<MemberId>)
    ensures Reachable(ids, INITIAL)
  {
    assert Over([], ids) && Exec([]) == INITIAL;
  }

  lemma ReachStep(ids: set<MemberId>, s: System, a: Action)
    requires Reachable(ids, s) && (a.Start? ==> a.m in ids)
    ensures Reachable(ids, Next(s, a))
  {
    var run :| Over(run, ids) && Exec(run) == s;
    assert (run + [a])[..|run|] == run;
    assert Over(run + [a], ids) && Exec(run + [a]) == Next(s, a);
  }

  lemma NewKeys(s: System, a: Action)
    ensures Next(s, a).workers.Keys <= s.workers.Keys + if a.Start? then {a.m} else {}
  {
  }

  lemma {:induction false} KeysOver(run: seq<Action>, ids: set<MemberId>)
    requires Over(run, ids)
    ensures Exec(run).workers.Keys <= ids
  {
    if run != [] {
      var n := |run| - 1;
      assert Over(run[..n], ids);
      KeysOver(run[..n], ids);
      NewKeys(Exec(run[..n]), run[n]);
    }
  }

  // ---- The decision ----

  /** `names` is a listing of a non-empty set of nodes of workers with ids from `ids`. */
  ghost predicate Listed(ids: set<MemberId>, nodes: set<Node>, names: seq<string>) {
    nodes != {} && Numbered(nodes) && IsListing(names, nodes) && forall n :: n in nodes ==> n.member in ids
  }

  /** The strings name the member of the lowest node. */
  ghost predicate DecisionRight(nodes: set<Node>, names: seq<string>)
    requires nodes != {}
  {
    Elects(names, LowestNode(nodes).member)
  }

  /** The decision is right on every listing exactly when every id is plain. */
  lemma DecisionRightIffPlain(ids: set<MemberId>)
    ensures (forall nodes, names :: Listed(ids, nodes, names) ==> DecisionRight(nodes, names)) <==> AllPlain(ids)
  {
    if AllPlain(ids) {
      forall nodes, names | Listed(ids, nodes, names) ensures DecisionRight(nodes, names) {
        StringMinIsLowestNode(nodes, names);
      }
    } else {
      var m :| m in ids && !PlainId(m);
      var n := Node(0, m, 0);
      var nodes, names := {n}, [NodeName(m, 0)];
      assert names[0] == NodeName(n.member, n.seqNo) && HasNodeNamed(names[0], nodes);
      assert Listed(ids, nodes, names);
      StringMinIsFirstNode(nodes, names);
      assert !DecisionRight(nodes, names);
    }
  }

  /** One worker 0 on a host named `stand-by-0` decides every election between workers with plain ids:
      the winner is always `stand`, whatever nodes there are. */
  lemma StandByZeroUnseatsAll(uuid: string, bad: Node, nodes: set<Node>, names: seq<string>)
    requires UuidText(uuid) && bad.member == "stand-by-0.0." + uuid
    requires bad in nodes && IsListing(names, nodes)
    requires forall n :: n in nodes && n != bad ==> PlainId(n.member)
    ensures Elects(names, "stand")
  {
    var rest := "0.0." + uuid;
    assert bad.member == "stand-by-" + rest;
    CutBehindStand(rest, bad.seqNo);
    forall n | n in nodes && n != bad ensures TupleLess(PairOf(bad), PairOf(n)) {
      DotBelowDigit(rest, SeqField(n.seqNo));
    }
    FirstNodeIs(bad, nodes);
    StringMinIsFirstNode(nodes, names);
  }

  lemma DotBelowDigit(rest: string, field: string)
    requires |rest| >= 2 && rest[0] == '0' && rest[1] == '.'
    requires |field| >= 2 && '0' <= field[0] && '0' <= field[1]
    ensures StrLess(rest, field)
  {
    assert rest[1..][0] == '.' && field[1..][0] == field[1];
    assert StrLess(rest[1..], field[1..]);
  }

  ghost predicate Ahead(n: Node, nodes: set<Node>) {
    n in nodes && forall k :: k in nodes && k != n ==> TupleLess(PairOf(n), PairOf(k))
  }

  lemma FirstNodeIs(n: Node, nodes: set<Node>)
    requires Ahead(n, nodes)
    ensures FirstNode(nodes) == n
  {
  }

  // ---- A worker comes in, with no other step in between ----

  /** `t` is `s` with the nodes of `t`, and watches fired, for all workers but `m`. */
  ghost predicate SameBut(m: MemberId, s: System, t: System) {
    && s.workers.Keys + {m} == t.workers.Keys
    && forall k :: k in s.workers && k != m ==>
         && t.workers[k].isLeader == s.workers[k].isLeader && t.workers[k].electedOn == s.workers[k].electedOn
         && t.workers[k].running == s.workers[k].running && t.workers[k].session == s.workers[k].session
         && t.workers[k].pc == s.workers[k].pc && t.workers[k].connected == s.workers[k].connected
  }

  /** What a worker has become that has just decided: quiet, and leader if it is picked. */
  ghost predicate HasDecided(m: MemberId, s: System) {
    && m in s.workers && s.workers[m].running
    && s.workers[m].isLeader == Picks(m, s.nodes)
    && (Picks(m, s.nodes) ==> s.workers[m].electedOn == Some(FirstNode(s.nodes)))
  }

  lemma ReadAndDecide(ids: set<MemberId>, s: System, m: MemberId) returns (t: System)
    requires Reachable(ids, s) && m in s.workers && s.workers[m].running && s.workers[m].pc.Reading?
    requires s.workers[m].connected && s.workers[m].session in s.sessions && s.nodes != {}
    ensures Reachable(ids, t) && SameBut(m, s, t) && HasDecided(m, t)
    ensures t.nodes == s.nodes && t.sessions == s.sessions && t.nextSeq == s.nextSeq && t.nextSession == s.nextSession
    ensures t.workers[m] == s.workers[m].(pc := Idle, armed := true, isLeader := t.workers[m].isLeader,
      electedOn := t.workers[m].electedOn)
  {
    var r := Next(s, Read(m));
    ReachStep(ids, s, Read(m));
    assert r.workers[m].pc.Deciding? && r.workers[m].pc.snapshot == s.nodes;
    t := Next(r, Decide(m));
    ReachStep(ids, r, Decide(m));
  }

  lemma StartAndCreate(ids: set<MemberId>, s: System, m: MemberId, seqNo: nat) returns (t: System)
    requires Reachable(ids, s) && m in ids && m !in s.workers && s.nextSeq <= seqNo <= MAX_SEQ
    ensures Reachable(ids, t) && SameBut(m, s, t)
    ensures t.workers[m] == Fresh(s.nextSession).(pc := Reading(MainLoop))
    ensures t.nodes == s.nodes + {Node(seqNo, m, s.nextSession)} && t.nextSeq == seqNo + 1
    ensures t.sessions == s.sessions + {s.nextSession} && t.nextSession == s.nextSession + 1
  {
    var r := Next(s, Start(m));
    ReachStep(ids, s, Start(m));
    t := Next(r, Create(m, seqNo));
    ReachStep(ids, r, Create(m, seqNo));
  }

  /** `run` up to its first wait: `elect` of a worker with nothing happening in between. */
  lemma Join(ids: set<MemberId>, s: System, m: MemberId, seqNo: nat) returns (t: System)
    requires Reachable(ids, s) && m in ids && m !in s.workers && s.nextSeq <= seqNo <= MAX_SEQ
    ensures Reachable(ids, t) && SameBut(m, s, t) && HasDecided(m, t)
    ensures t.nodes == s.nodes + {Node(seqNo, m, s.nextSession)} && t.nextSeq == seqNo + 1
    ensures t.sessions == s.sessions + {s.nextSession} && t.nextSession == s.nextSession + 1
    ensures Quiet(t.workers[m], t) && t.workers[m].session == s.nextSession
  {
    var r := StartAndCreate(ids, s, m, seqNo);
    t := ReadAndDecide(ids, r, m);
  }

  // ---- Agreement ----

  ghost predicate Agrees(m: MemberId, s: System) {
    m in s.workers && Quiet(s.workers[m], s) ==> (s.workers[m].isLeader <==> Leads(m, s.nodes))
  }

  /** In every run over the ids quiet workers agree with the lowest live node exactly when every id is
      plain. */
  lemma AgreeIffPlain(ids: set<MemberId>)
    ensures (forall s, m :: Reachable(ids, s) ==> Agrees(m, s)) <==> AllPlain(ids)
  {
    if AllPlain(ids) {
      forall s, m | Reachable(ids, s) ensures Agrees(m, s) {
        var run :| Over(run, ids) && Exec(run) == s;
        KeysOver(run, ids);
        if m in s.workers && Quiet(s.workers[m], s) { QuietWorkersAgree(run, m); }
      }
    } else {
      var m :| m in ids && !PlainId(m);
      ReachInitial(ids);
      var t := Join(ids, INITIAL, m, 0);
      var n := Node(0, m, 0);
      assert t.nodes == {n} && IsLowest(n, t.nodes) && FirstNode(t.nodes) == n;
      assert !Agrees(m, t);
    }
  }

  // ---- Two leaders ----

  ghost predicate OneLeader(s: System) {
    forall a, b :: BothLead(a, b, s) ==> a == b
  }

  /** In every run over the ids at most one running worker leads on a live node exactly when the ids do not
      clash. */
  lemma OneLeaderIffNoClash(ids: set<MemberId>)
    ensures (forall s :: Reachable(ids, s) ==> OneLeader(s)) <==> !Clash(ids)
  {
    if Clash(ids) {
      var a, b, c :| ClashOf(ids, a, b, c);
      var s := TwoLeaders(ids, a, b, c);
      assert !OneLeader(s);
    } else {
      forall s | Reachable(ids, s) ensures OneLeader(s) {
        var run :| Over(run, ids) && Exec(run) == s;
        KeysOver(run, ids);
        forall a, b, c ensures !ClashOf(s.workers.Keys, a, b, c) {
          assert !ClashOf(ids, a, b, c);
        }
        forall a, b | LeadsOnLiveNode(a, s) && LeadsOnLiveNode(b, s) ensures a == b {
          AtMostOneLeader(run, a, b);
        }
      }
    }
  }

  ghost predicate BothLead(a: MemberId, b: MemberId, s: System) {
    LeadsOnLiveNode(a, s) && LeadsOnLiveNode(b, s) && s.workers[a].running && s.workers[b].running
  }

  ghost predicate LeadsOn(m: MemberId, n: Node, s: System) {
    m in s.workers && s.workers[m].running && s.workers[m].isLeader && s.workers[m].electedOn == Some(n)
  }

  lemma LeadsStill(m: MemberId, n: Node, k: MemberId, s: System, t: System)
    requires LeadsOn(m, n, s) && SameBut(k, s, t) && m != k
    ensures LeadsOn(m, n, t)
  {
  }

  lemma LeadsNow(m: MemberId, n: Node, s: System)
    requires HasDecided(m, s) && Ahead(n, s.nodes) && CutId(n.member) == m
    ensures LeadsOn(m, n, s)
  {
    FirstNodeIs(n, s.nodes);
  }

  lemma TwoLeaders(ids: set<MemberId>, a: MemberId, b: MemberId, c: MemberId) returns (s: System)
    requires ClashOf(ids, a, b, c)
    ensures Reachable(ids, s) && a != b && BothLead(a, b, s)
  {
    TupleLessTotal(NamePair(c, 4), NamePair(a, 3));
    if TupleLess(NamePair(c, 4), NamePair(a, 3)) {
      s := CutNodeComesSecond(ids, a, b, c, 3, 4);
    } else {
      LateCutNode(a, c);
      s := CutNodeComesFirst(ids, a, b, c, 1, 3);
    }
  }

  /** If the node of `c` number 4 does not come before that of `a` number 3, number 1 comes behind it. */
  lemma LateCutNode(a: MemberId, c: MemberId)
    requires PlainId(a) && !PlainId(c) && CutId(c) != a && !TupleLess(NamePair(c, 4), NamePair(a, 3))
    ensures TupleLess(NamePair(a, 3), NamePair(c, 1))
  {
    CutField(c, 4, 1);
    TupleLessTotal(NamePair(c, 4), NamePair(a, 3));
  }

  /** Worker `k` goes on leading on its node while `m` joins. */
  lemma JoinBeside(ids: set<MemberId>, s: System, m: MemberId, seqNo: nat, k: MemberId, n: Node) returns (t: System)
    requires Reachable(ids, s) && m in ids && m !in s.workers && s.nextSeq <= seqNo <= MAX_SEQ
    requires LeadsOn(k, n, s)
    ensures Reachable(ids, t) && LeadsOn(k, n, t) && HasDecided(m, t)
    ensures t.workers.Keys == s.workers.Keys + {m} && t.nextSeq == seqNo + 1 && t.nextSession == s.nextSession + 1
    ensures t.nodes == s.nodes + {Node(seqNo, m, s.nextSession)}
  {
    t := Join(ids, s, m, seqNo);
    LeadsStill(k, n, m, s, t);
  }

  lemma JoinAlone(ids: set<MemberId>, a: MemberId, seqNo: nat) returns (s: System)
    requires a in ids && PlainId(a) && seqNo <= MAX_SEQ
    ensures Reachable(ids, s) && LeadsOn(a, Node(seqNo, a, 0), s) && s.nodes == {Node(seqNo, a, 0)}
    ensures s.workers.Keys == {a} && s.nextSeq == seqNo + 1 && s.nextSession == 1
  {
    ReachInitial(ids);
    s := Join(ids, INITIAL, a, seqNo);
    assert s.nodes == {Node(seqNo, a, 0)};
    LeadsNow(a, Node(seqNo, a, 0), s);
  }

  lemma LiveLeaders(a: MemberId, n: Node, b: MemberId, k: Node, s: System)
    requires LeadsOn(a, n, s) && LeadsOn(b, k, s) && n in s.nodes && k in s.nodes
    ensures BothLead(a, b, s)
  {
  }

  lemma CutIdIsPlain(c: MemberId)
    ensures PlainId(CutId(c))
  {
    assert PlainId(NamePair(c, 0).1);
  }

  /** `a` leads on its own node; then the node of `c` comes in front of it and makes `b` leader. */
  lemma CutNodeComesSecond(ids: set<MemberId>, a: MemberId, b: MemberId, c: MemberId, p: nat, q: nat)
    returns (s: System)
    requires ClashOf(ids, a, b, c) && p < q < MAX_SEQ && TupleLess(NamePair(c, q), NamePair(a, p))
    ensures Reachable(ids, s) && BothLead(a, b, s)
  {
    var an, cn := Node(p, a, 0), Node(q, c, 1);
    var s1 := JoinAlone(ids, a, p);
    var s2 := JoinBeside(ids, s1, c, q, a, an);
    assert s2.nodes == {an, cn};
    CutIdIsPlain(c);
    s := JoinThird(ids, s2, b, q + 1, an, cn);
  }

  lemma JoinThird(ids: set<MemberId>, s: System, b: MemberId, seqNo: nat, an: Node, cn: Node) returns (t: System)
    requires Reachable(ids, s) && b in ids && PlainId(b) && b !in s.workers && s.nextSeq <= seqNo <= MAX_SEQ
    requires s.nodes == {an, cn} && LeadsOn(an.member, an, s) && PlainId(an.member) && an.seqNo < seqNo
    requires TupleLess(PairOf(cn), PairOf(an)) && CutId(cn.member) == b
    ensures Reachable(ids, t) && BothLead(an.member, b, t)
  {
    var bn := Node(seqNo, b, s.nextSession);
    CutIsFirst(an, cn, bn);
    t := JoinBeside(ids, s, b, seqNo, an.member, an);
    assert t.nodes == {an, cn, bn};
    LeadsNow(b, cn, t);
    LiveLeaders(an.member, an, b, cn, t);
  }

  lemma CutIsFirst(an: Node, cn: Node, bn: Node)
    requires PlainId(an.member) && PlainId(bn.member) && an.seqNo < bn.seqNo <= MAX_SEQ
    requires TupleLess(PairOf(cn), PairOf(an))
    ensures Ahead(cn, {an, cn, bn})
  {
    PlainOrder(an, bn);
    TupleLessTransitive(PairOf(cn), PairOf(an), PairOf(bn));
    AheadOfTwo(an, cn, bn);
  }

  lemma AheadOfTwo(an: Node, cn: Node, bn: Node)
    requires TupleLess(PairOf(cn), PairOf(an)) && TupleLess(PairOf(cn), PairOf(bn))
    ensures Ahead(cn, {an, cn, bn})
  {
  }

  lemma PlainOrder(an: Node, bn: Node)
    requires PlainId(an.member) && PlainId(bn.member) && an.seqNo < bn.seqNo <= MAX_SEQ
    ensures TupleLess(PairOf(an), PairOf(bn))
  {
    SeqFieldOrder(an.seqNo, bn.seqNo);
    assert PairOf(an).0 == SeqField(an.seqNo) && PairOf(bn).0 == SeqField(bn.seqNo);
  }

  /** `b` loses its own node to a session change before it reads, and leads on the node of `c`; then the
      node of `a` comes in front of that. */
  lemma CutNodeComesFirst(ids: set<MemberId>, a: MemberId, b: MemberId, c: MemberId, p: nat, q: nat)
    returns (s: System)
    requires ClashOf(ids, a, b, c) && 1 <= p < q <= MAX_SEQ && TupleLess(NamePair(a, q), NamePair(c, p))
    ensures Reachable(ids, s) && BothLead(a, b, s)
  {
    var cn, an := Node(p, c, 2), Node(q, a, 3);
    assert Ahead(an, {cn, an});
    CutIdIsPlain(c);
    var s1 := LeadsOnOther(ids, b, c, p);
    s := JoinBeside(ids, s1, a, q, b, cn);
    assert s.nodes == {cn, an};
    LeadsNow(a, an, s);
    LiveLeaders(a, an, b, cn, s);
  }

  lemma LeadsOnOther(ids: set<MemberId>, b: MemberId, c: MemberId, p: nat) returns (s: System)
    requires b in ids && c in ids && b != c && CutId(c) == b && 1 <= p <= MAX_SEQ
    ensures Reachable(ids, s) && LeadsOn(b, Node(p, c, 2), s) && s.nodes == {Node(p, c, 2)}
    ensures s.workers.Keys == {b, c} && s.nextSeq == p + 1 && s.nextSession == 3
  {
    var cn := Node(p, c, 2);
    var s1 := ReaderWithoutNode(ids, b);
    var s2 := StartAndCreate(ids, s1, c, p);
    assert s2.nodes == {cn} && s2.workers[b].pc == Reading(MainLoop) && s2.workers[b].session == 1;
    s := ReadAndDecide(ids, s2, b);
    LeadsNow(b, cn, s);
  }

  lemma ReaderWithoutNode(ids: set<MemberId>, b: MemberId) returns (s: System)
    requires b in ids
    ensures Reachable(ids, s) && s.workers.Keys == {b} && s.nodes == {} && s.nextSeq == 1
    ensures s.sessions == {1} && s.nextSession == 2
    ensures var w := s.workers[b]; w.running && w.pc == Reading(MainLoop) && w.connected && w.session == 1
  {
    ReachInitial(ids);
    var s1 := StartAndCreate(ids, INITIAL, b, 0);
    assert s1.sessions == {0} && s1.nodes == {Node(0, b, 0)};
    s := LoseSession(ids, s1, b);
  }

  /** The session of the only worker is interrupted and expires, and it gets a new one. */
  lemma LoseSession(ids: set<MemberId>, s: System, b: MemberId) returns (t: System)
    requires Reachable(ids, s) && s.workers.Keys == {b} && s.sessions == {s.workers[b].session}
    requires forall n :: n in s.nodes ==> n.session == s.workers[b].session
    ensures Reachable(ids, t) && t.workers.Keys == {b} && t.nodes == {} && t.nextSeq == s.nextSeq
    ensures t.sessions == {s.nextSession} && t.nextSession == s.nextSession + 1
    ensures var w := t.workers[b];
      w.running == s.workers[b].running && w.pc == s.workers[b].pc && w.connected && w.session == s.nextSession
  {
    var session := s.workers[b].session;
    var r := Next(s, Interrupt(b, false, 0));
    ReachStep(ids, s, Interrupt(b, false, 0));
    var q := Next(r, Expire(session));
    ReachStep(ids, r, Expire(session));
    assert q.sessions == {} && q.nodes == {} && !q.workers[b].connected;
    t := Next(q, Reconnect(b, false));
    ReachStep(ids, q, Reconnect(b, false));
  }
}
