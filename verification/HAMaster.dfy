/** The two objects a worker keeps, with their fields updated in place; each method does to them
    what the matching step of module Election does to the worker's record. */
module HAMasterObjects {
  import opened Wrappers
  import opened NodeNames
  import E = Election

  datatype KazooState = Connected | Suspended | Lost | Other

  class ZKBase {
    var stopped: bool
    var stateChanges: bool
    /** The scheduler's `_wake_up` event, set through `callback`. */
    var wakeUp: bool

    constructor ()
      ensures !stopped && !stateChanges && !wakeUp
    {
      stopped, stateChanges, wakeUp := false, false, false;
    }

    /** The connection listener. */
    method Listen(state: KazooState, ghost w: E.Worker)
      requires w.stateChanges == stateChanges
      modifies this`stateChanges, this`wakeUp
      ensures !stopped && (state == Lost || state == Suspended) ==>
        stateChanges && wakeUp && forall s: E.System, m, keep, events :: m in s.workers && s.workers[m] == w ==>
          E.Next(s, E.Interrupt(m, keep, events)).workers[m].stateChanges == stateChanges
      ensures stopped || (state != Lost && state != Suspended) ==>
        stateChanges == old(stateChanges) && wakeUp == old(wakeUp)
    {
      if state == Lost || state == Suspended {
        if stopped { return; }
        stateChanges := true;
        wakeUp := true;
      }
    }

    /** `reinit`: `state` is that of the client, and `after` what each restart makes of it. The loop ends
        when it is connected, so one of them has to be. */
    method Reinit(state: KazooState, after: seq<KazooState>, ghost w: E.Worker) returns (restarts: nat)
      requires state == Connected || Connected in after
      requires w.stateChanges == stateChanges && w.running && w.pc == E.Idle && w.connected
      modifies this`stateChanges
      ensures restarts <= |after| && StateAfter(state, after, restarts) == Connected
      ensures forall i :: 0 <= i < restarts ==> StateAfter(state, after, i) != Connected
      ensures old(stateChanges) ==> forall s: E.System, m :: m in s.workers && s.workers[m] == w ==>
        var v := E.Next(s, E.ReinitZk(m)).workers[m];
        v.running && v == w.(stateChanges := stateChanges, pc := E.Resetting)
      ensures !stateChanges
    {
      ghost var end := 0;
      if state != Connected {
        ghost var i :| 0 <= i < |after| && after[i] == Connected;
        end := i + 1;
      }
      restarts := 0;
      var now := state;
      while now != Connected
        invariant restarts <= end <= |after| && StateAfter(state, after, end) == Connected
        invariant now == StateAfter(state, after, restarts)
        invariant forall i :: 0 <= i < restarts ==> StateAfter(state, after, i) != Connected
        decreases end - restarts
      {
        now := after[restarts];
        restarts := restarts + 1;
      }
      stateChanges := false;
    }

    /** The state of the client after `n` restarts. */
    static function StateAfter(state: KazooState, after: seq<KazooState>, n: nat): KazooState
      requires n <= |after|
    {
      if n == 0 then state else after[n - 1]
    }
  }

  class HAMaster {
    const memberId: string
    var isLeader: bool

    constructor (memberId: string)
      ensures this.memberId == memberId && !isLeader
    {
      this.memberId, isLeader := memberId, false;
    }

    /** `_elect` after `get_children`: `raised` is the ValueError of `min([])`. `w` is this worker's
        record and `instances` any listing of its snapshot. */
    method Elect(instances: seq<string>, ghost w: E.Worker) returns (raised: bool)
      requires w.isLeader == isLeader && w.pc.Deciding?
      requires E.IsListing(instances, w.pc.snapshot)
      modifies this
      ensures isLeader == E.Decided(memberId, w).isLeader
      ensures raised <==> w.pc.snapshot == {}
      ensures !raised ==> (isLeader <==> E.Picks(memberId, w.pc.snapshot))
      ensures !raised && E.Nameable(w.pc.snapshot) ==> (isLeader <==> E.Leads(memberId, w.pc.snapshot))
    {
      E.EmptyListing(instances, w.pc.snapshot);
      if w.pc.snapshot != {} {
        E.StringMinIsFirstNode(w.pc.snapshot, instances);
        if E.Nameable(w.pc.snapshot) { E.PicksIsLeads(memberId, w.pc.snapshot); }
      }
      var nodeList := SplitAll(instances);
      if nodeList.None? || nodeList.value == [] { return true; }
      var instance := MinTuple(nodeList.value).1;
      if instance == memberId {
        if !isLeader {
          isLeader := true;
        }
      } else {
        isLeader := false;
      }
      return false;
    }

    /** `reinit` up to its call of `elect`: the worker's step that gives up the leadership and goes on to
        create a new node. */
    method Reinit(ghost w: E.Worker)
      requires w.isLeader == isLeader && w.pc == E.Resetting
      modifies this
      ensures forall s: E.System, m :: m in s.workers && s.workers[m] == w ==>
        E.Next(s, E.ReinitHa(m)) == s.(workers := s.workers[m := w.(isLeader := isLeader, pc := E.Creating)])
      ensures !isLeader
    {
      isLeader := false;
    }
  }
}
