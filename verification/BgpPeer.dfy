/** The handlers of bgp_fsm.c on a peer, its timers being threads of a master it
    shares with other peers, and its events standing in one queue with theirs. */
module BgpPeer {
  import opened BgpFsm
  import opened BgpFsmLive

  type Id = nat

  /** A timer thread and a queued event, with the peer each is for. */
  datatype Scheduled = Scheduled(owner: Id, timer: Timer)
  datatype Posted = Posted(owner: Id, event: Event)

  /** struct thread_master, as far as the machine uses it. */
  class Master {
    var timers: map<Id, Scheduled>
    var queue: seq<Posted>
    var next: Id

    constructor ()
      ensures timers == map[] && queue == [] && next == 0
    {
      timers, queue, next := map[], [], 0;
    }
  }

  function EventsOf(queue: seq<Posted>, id: Id): seq<Event> {
    if queue == [] then []
    else
      var front, last := queue[..|queue| - 1], queue[|queue| - 1];
      EventsOf(front, id) + if last.owner == id then [last.event] else []
  }

  /** What is queued and scheduled for others. */
  function RestOf(queue: seq<Posted>, id: Id): seq<Posted> {
    if queue == [] then []
    else
      var front, last := queue[..|queue| - 1], queue[|queue| - 1];
      RestOf(front, id) + if last.owner != id then [last] else []
  }

  function OthersTimers(timers: map<Id, Scheduled>, id: Id): map<Id, Scheduled> {
    map x | x in timers && timers[x].owner != id :: timers[x]
  }

  lemma {:induction false} QueueGrows(queue: seq<Posted>, x: Posted, id: Id)
    ensures EventsOf(queue + [x], id) == EventsOf(queue, id) + if x.owner == id then [x.event] else []
    ensures RestOf(queue + [x], id) == RestOf(queue, id) + if x.owner != id then [x] else []
  {
    assert (queue + [x])[..|queue|] == queue;
  }

  lemma {:induction false} RestHasNone(queue: seq<Posted>, id: Id)
    ensures EventsOf(RestOf(queue, id), id) == []
    ensures RestOf(RestOf(queue, id), id) == RestOf(queue, id)
    decreases |queue|
  {
    if queue != [] {
      var front, last := queue[..|queue| - 1], queue[|queue| - 1];
      RestHasNone(front, id);
      QueueGrows(RestOf(front, id), last, id);
      assert RestOf(front, id) + [] == RestOf(front, id);
    }
  }

  lemma {:induction false} OwnTimerAside(timers: map<Id, Scheduled>, x: Id, k: Timer, id: Id)
    ensures x !in timers ==> OthersTimers(timers[x := Scheduled(id, k)], id) == OthersTimers(timers, id)
    ensures x in timers && timers[x].owner == id ==> OthersTimers(timers - {x}, id) == OthersTimers(timers, id)
  {}

  function Switched(ts: Timers, k: Timer, on: bool): Timers {
    match k
    case StartTimer => ts.(start := on)
    case ConnectTimer => ts.(connect := on)
    case HoldTimer => ts.(hold := on)
    case KeepaliveTimer => ts.(keepalive := on)
    case RouteadvTimer => ts.(routeadv := on)
  }

  function SwitchedTo(s: State, k: Timer, on: bool): State {
    s.(timers := Switched(s.timers, k, on))
  }

  /** What bgp_timer_set wants of each timer but the last. */
  function Wants(s: State, k: Timer): bool {
    var held := s.vHoldtime != 0;
    match k
    case StartTimer => s.status == Idle && !(s.config.suppressed || !s.config.active)
    case ConnectTimer => s.status == Connect || (s.status == Active && !(s.config.passive || s.config.nsfWait))
    case HoldTimer => held && (s.status == OpenSent || s.status == OpenConfirm || s.status == Established)
    case KeepaliveTimer => held && (s.status == OpenConfirm || s.status == Established)
    case RouteadvTimer => false
  }

  /** Switching them one after the other is setting them all. */
  lemma {:induction false} SwitchedIsSet(s: State)
    requires s.status != Deleted && s.status != Clearing
    ensures var s1 := SwitchedTo(s, StartTimer, Wants(s, StartTimer));
            var s2 := SwitchedTo(s1, ConnectTimer, Wants(s, ConnectTimer));
            var s3 := SwitchedTo(s2, HoldTimer, Wants(s, HoldTimer));
            var s4 := SwitchedTo(s3, KeepaliveTimer, Wants(s, KeepaliveTimer));
            TimersSet(s) == if s.status == Established then s4 else SwitchedTo(s4, RouteadvTimer, false)
  {}

  /** The timers a table of thread pointers says are on. */
  function TimersOf(t: set<Timer>): Timers {
    Timers(StartTimer in t, ConnectTimer in t, HoldTimer in t, KeepaliveTimer in t, RouteadvTimer in t)
  }

  /** A peer's pointers hold exactly its threads among those scheduled. */
  ghost predicate Holds(t: map<Timer, Id>, timers: map<Id, Scheduled>, next: Id, id: Id) {
    && (forall k :: k in t ==> t[k] in timers && timers[t[k]] == Scheduled(id, k))
    && (forall x :: x in timers && timers[x].owner == id ==> timers[x].timer in t && t[timers[x].timer] == x)
    && (forall x :: x in timers ==> x < next)
  }

  lemma {:induction false} HoldsOneMore(t: map<Timer, Id>, timers: map<Id, Scheduled>, next: Id, id: Id, k: Timer)
    requires Holds(t, timers, next, id) && k !in t
    ensures Holds(t[k := next], timers[next := Scheduled(id, k)], next + 1, id)
    ensures OthersTimers(timers[next := Scheduled(id, k)], id) == OthersTimers(timers, id)
    ensures TimersOf(t[k := next].Keys) == Switched(TimersOf(t.Keys), k, true)
  {
    assert next !in timers;
    OwnTimerAside(timers, next, k, id);
  }

  lemma {:induction false} HoldsOneLess(t: map<Timer, Id>, timers: map<Id, Scheduled>, next: Id, id: Id, k: Timer)
    requires Holds(t, timers, next, id) && k in t
    ensures Holds(t - {k}, timers - {t[k]}, next, id)
    ensures OthersTimers(timers - {t[k]}, id) == OthersTimers(timers, id)
    ensures TimersOf((t - {k}).Keys) == Switched(TimersOf(t.Keys), k, false)
  {
    OwnTimerAside(timers, t[k], k, id);
  }

  lemma {:induction false} AlreadyOn(t: set<Timer>, k: Timer)
    ensures Switched(TimersOf(t), k, k in t) == TimersOf(t)
  {}

  lemma {:induction false} OthersEvents(queue: seq<Posted>, id: Id, other: Id)
    requires other != id
    ensures EventsOf(RestOf(queue, id), other) == EventsOf(queue, other)
    decreases |queue|
  {
    if queue != [] {
      var front, last := queue[..|queue| - 1], queue[|queue| - 1];
      OthersEvents(front, id, other);
      QueueGrows(RestOf(front, id), last, other);
      assert RestOf(front, id) + [] == RestOf(front, id);
    }
  }

  /** What one peer leaves untouched is all there is of another: its events stay
      queued in their order, and its pointers still hold exactly its threads. */
  lemma {:induction false} OtherPeerKept(id: Id, other: Id, t: map<Timer, Id>,
                                         timers: map<Id, Scheduled>, queue: seq<Posted>, next: Id,
                                         timers': map<Id, Scheduled>, queue': seq<Posted>, next': Id)
    requires other != id && Holds(t, timers, next, other) && forall x :: x in timers' ==> x < next'
    requires OthersTimers(timers, id) == OthersTimers(timers', id) && RestOf(queue, id) == RestOf(queue', id)
    ensures Holds(t, timers', next', other) && EventsOf(queue', other) == EventsOf(queue, other)
  {
    OthersEvents(queue, id, other);
    OthersEvents(queue', id, other);
    var kept := OthersTimers(timers, id);
    assert forall x :: x in timers && timers[x].owner == other ==> x in kept && timers[x] == kept[x];
    assert forall x :: x in timers' && timers'[x].owner == other ==> x in kept && timers'[x] == kept[x];
  }

  /** What a peer's pointers are after some calls: each holds the thread it held before,
      or one with a number not given out before. */
  predicate KeptOrNew(t: map<Timer, Id>, t': map<Timer, Id>, next: Id) {
    forall k :: k in t' ==> (k in t && t'[k] == t[k]) || t'[k] >= next
  }

  lemma {:induction false} KeptOrNewThen(t: map<Timer, Id>, t1: map<Timer, Id>, t2: map<Timer, Id>, next: Id, next1: Id)
    requires KeptOrNew(t, t1, next) && KeptOrNew(t1, t2, next1) && next <= next1
    ensures KeptOrNew(t, t2, next)
  {}

  /** The handlers that have bgp_timer_set start the hold time anew. */
  predicate Restarts(h: Handler) {
    h == FsmOpen || h == FsmKeepalive || h == FsmUpdate
  }

  /** A thread for that timer of the peer is scheduled. */
  ghost predicate Threaded(timers: map<Id, Scheduled>, id: Id, k: Timer) {
    exists x :: x in timers && timers[x] == Scheduled(id, k)
  }

  /** The threads scheduled for a peer in that state are those the state and the
      configuration call for. */
  ghost predicate ThreadsCalledFor(timers: map<Id, Scheduled>, id: Id, s: State) {
    && (Threaded(timers, id, StartTimer) <==> s.status == Idle && s.config.active && !s.config.suppressed)
    && (Threaded(timers, id, ConnectTimer) <==>
          s.status == Connect || (s.status == Active && !s.config.passive && !s.config.nsfWait))
    && (Threaded(timers, id, HoldTimer) <==>
          s.status in {OpenSent, OpenConfirm, Established} && s.vHoldtime != 0)
    && (Threaded(timers, id, KeepaliveTimer) <==> s.status in {OpenConfirm, Established} && s.vHoldtime != 0)
    && (Threaded(timers, id, RouteadvTimer) <==> s.status == Established)
  }

  lemma {:induction false} ArmedThreads(t: map<Timer, Id>, timers: map<Id, Scheduled>, next: Id, id: Id, s: State)
    requires Holds(t, timers, next, id) && s.timers == TimersOf(t.Keys) && Armed(s)
    ensures ThreadsCalledFor(timers, id, s)
  {
    forall k: Timer ensures Threaded(timers, id, k) <==> k in t {
      if k in t {
        assert timers[t[k]] == Scheduled(id, k);
      }
    }
  }

  class Peer {
    const id: Id
    const master: Master
    /** t_start, t_connect and the rest: a key is absent where the pointer is null. */
    var t: map<Timer, Id>
    var status: Status
    var vStart: nat
    var vHoldtime: nat
    var vKeepalive: nat
    var established: nat
    var dropped: nat
    var fd: bool
    var config: Config

    ghost function Abs(): State
      reads this, master
    {
      State(status, TimersOf(t.Keys), vStart, vHoldtime, vKeepalive,
            established, dropped, fd, EventsOf(master.queue, id), config)
    }

    /** The master's threads for this peer are exactly those its pointers hold: none
        is lost, none is left behind. */
    ghost predicate Valid()
      reads this, master
    {
      Holds(t, master.timers, master.next, id)
    }

    /** What belongs to the other peers. */
    ghost function Elsewhere(): (map<Id, Scheduled>, seq<Posted>)
      reads master
    {
      (OthersTimers(master.timers, id), RestOf(master.queue, id))
    }

    constructor (id: Id, master: Master, config: Config)
      requires forall x :: x in master.timers ==> x < master.next && master.timers[x].owner != id
      requires EventsOf(master.queue, id) == []
      ensures Valid() && Initial(Abs()) && this.id == id && this.master == master && this.config == config
    {
      this.id, this.master, this.config := id, master, config;
      t, status, fd := map[], Idle, false;
      vStart, vHoldtime, vKeepalive := INIT_START_TIMER, config.holdtime, config.keepalive;
      established, dropped := 0, 0;
    }

    /** BGP_TIMER_ON: a timer that is on is left running. */
    method TimerOn(k: Timer)
      requires Valid()
      modifies this`t, master`timers, master`next
      ensures Valid() && Elsewhere() == old(Elsewhere())
      ensures Abs() == if status != Deleted then SwitchedTo(old(Abs()), k, true) else old(Abs())
      ensures KeptOrNew(old(t), t, old(master.next)) && master.next >= old(master.next)
      ensures k in old(t) ==> t == old(t)
    {
      AlreadyOn(t.Keys, k);
      if k !in t && status != Deleted {
        var x := master.next;
        HoldsOneMore(t, master.timers, x, id, k);
        master.timers := master.timers[x := Scheduled(id, k)];
        master.next := x + 1;
        t := t[k := x];
      }
    }

    /** BGP_TIMER_OFF: the thread is cancelled and the pointer cleared. */
    method TimerOff(k: Timer)
      requires Valid()
      modifies this`t, master`timers
      ensures Valid() && Elsewhere() == old(Elsewhere())
      ensures Abs() == SwitchedTo(old(Abs()), k, false)
      ensures t == old(t) - {k}
    {
      AlreadyOn(t.Keys, k);
      if k in t {
        HoldsOneLess(t, master.timers, master.next, id, k);
        master.timers := master.timers - {t[k]};
        t := t - {k};
      }
    }

    /** BGP_EVENT_ADD. */
    method AddEvent(e: Event)
      requires Valid()
      modifies master`queue
      ensures Valid() && Elsewhere() == old(Elsewhere())
      ensures Abs() == Add(old(Abs()), e)
    {
      if status != Deleted {
        QueueGrows(master.queue, Posted(id, e), id);
        assert RestOf(master.queue, id) + [] == RestOf(master.queue, id);
        master.queue := master.queue + [Posted(id, e)];
      }
    }

    /** BGP_EVENT_FLUSH: the walk over the queue takes out this peer's events. */
    method FlushEvents()
      requires Valid()
      modifies master`queue
      ensures Valid() && Elsewhere() == old(Elsewhere()) && EventsOf(master.queue, id) == []
    {
      var kept: seq<Posted>, i := [], 0;
      var queue := master.queue;
      while i < |queue|
        invariant 0 <= i <= |queue| && kept == RestOf(queue[..i], id)
      {
        assert queue[..i + 1] == queue[..i] + [queue[i]];
        QueueGrows(queue[..i], queue[i], id);
        if queue[i].owner != id {
          kept := kept + [queue[i]];
        }
        i := i + 1;
      }
      assert queue[..i] == queue;
      RestHasNone(queue, id);
      master.queue := kept;
    }

    /** All timers off. */
    method AllTimersOff()
      requires Valid()
      modifies this`t, master`timers
      ensures Valid() && Elsewhere() == old(Elsewhere()) && Abs() == old(Abs()).(timers := ALL_OFF)
      ensures KeptOrNew(old(t), t, old(master.next))
    {
      ghost var t0 := t;
      ConnectTimersOff();
      ghost var t1 := t;
      SessionTimersOff();
      KeptOrNewThen(t0, t1, t, master.next, master.next);
    }

    method ConnectTimersOff()
      requires Valid()
      modifies this`t, master`timers
      ensures Valid() && Elsewhere() == old(Elsewhere())
      ensures Abs() == SwitchedTo(SwitchedTo(old(Abs()), StartTimer, false), ConnectTimer, false)
      ensures KeptOrNew(old(t), t, old(master.next))
    {
      TimerOff(StartTimer);
      TimerOff(ConnectTimer);
    }

    method SessionTimersOff()
      requires Valid()
      modifies this`t, master`timers
      ensures Valid() && Elsewhere() == old(Elsewhere())
      ensures Abs() == SwitchedTo(SwitchedTo(SwitchedTo(old(Abs()), HoldTimer, false), KeepaliveTimer, false),
                                  RouteadvTimer, false)
      ensures KeptOrNew(old(t), t, old(master.next))
    {
      TimerOff(HoldTimer);
      TimerOff(KeepaliveTimer);
      TimerOff(RouteadvTimer);
    }

    /** Turns a timer on or off. */
    method TimerIs(k: Timer, on: bool)
      requires Valid() && status != Deleted
      modifies this`t, master`timers, master`next
      ensures Valid() && Elsewhere() == old(Elsewhere())
      ensures Abs() == SwitchedTo(old(Abs()), k, on)
      ensures KeptOrNew(old(t), t, old(master.next)) && master.next >= old(master.next)
    {
      if on {
        TimerOn(k);
      } else {
        TimerOff(k);
      }
    }

    /** bgp_timer_set: the calls of BGP_TIMER_ON and BGP_TIMER_OFF for each status
        leave scheduled exactly the threads the status calls for. */
    method TimerSet()
      requires Valid()
      modifies this`t, master`timers, master`next
      ensures Valid() && Elsewhere() == old(Elsewhere())
      ensures Abs() == TimersSet(old(Abs()))
      ensures (old(status) == Established ==> RouteadvTimer in old(t)) ==> ThreadsCalledFor(master.timers, id, Abs())
      ensures KeptOrNew(old(t), t, old(master.next))
    {
      ghost var was := Abs();
      TimerSwitches();
      if was.status == Established ==> was.timers.routeadv {
        SetIsArmed(was);
        ArmedThreads(t, master.timers, master.next, id, Abs());
      }
    }

    /** The calls of BGP_TIMER_ON and BGP_TIMER_OFF. */
    method TimerSwitches()
      requires Valid()
      modifies this`t, master`timers, master`next
      ensures Valid() && Elsewhere() == old(Elsewhere())
      ensures Abs() == TimersSet(old(Abs()))
      ensures KeptOrNew(old(t), t, old(master.next))
    {
      if status == Deleted || status == Clearing {
        AllTimersOff();
        return;
      }
      SwitchedIsSet(Abs());
      ghost var t0, next0 := t, master.next;
      ConnectSwitches();
      ghost var t1, next1 := t, master.next;
      SessionSwitches();
      KeptOrNewThen(t0, t1, t, next0, next1);
      if status != Established {
        TimerOff(RouteadvTimer);
      }
    }

    method ConnectSwitches()
      requires Valid() && status != Deleted
      modifies this`t, master`timers, master`next
      ensures Valid() && Elsewhere() == old(Elsewhere())
      ensures var s := old(Abs());
              Abs() == SwitchedTo(SwitchedTo(s, StartTimer, Wants(s, StartTimer)), ConnectTimer, Wants(s, ConnectTimer))
      ensures KeptOrNew(old(t), t, old(master.next)) && master.next >= old(master.next)
    {
      ghost var t0, next0 := t, master.next;
      TimerIs(StartTimer, status == Idle && !(config.suppressed || !config.active));
      ghost var t1, next1 := t, master.next;
      TimerIs(ConnectTimer, status == Connect || (status == Active && !(config.passive || config.nsfWait)));
      KeptOrNewThen(t0, t1, t, next0, next1);
    }

    method SessionSwitches()
      requires Valid() && status != Deleted
      modifies this`t, master`timers, master`next
      ensures Valid() && Elsewhere() == old(Elsewhere())
      ensures var s := old(Abs());
              Abs()
              == SwitchedTo(SwitchedTo(s, HoldTimer, Wants(s, HoldTimer)), KeepaliveTimer, Wants(s, KeepaliveTimer))
      ensures KeptOrNew(old(t), t, old(master.next)) && master.next >= old(master.next)
    {
      ghost var t0, next0 := t, master.next;
      var held := vHoldtime != 0;
      TimerIs(HoldTimer, held && (status == OpenSent || status == OpenConfirm || status == Established));
      ghost var t1, next1 := t, master.next;
      TimerIs(KeepaliveTimer, held && (status == OpenConfirm || status == Established));
      KeptOrNewThen(t0, t1, t, next0, next1);
    }

    /** bgp_fsm_change_status. */
    method ChangeStatus(next: Status, w: World)
      requires Valid()
      modifies this`status, master`queue
      ensures Valid() && Elsewhere() == old(Elsewhere())
      ensures Abs() == StatusChanged(old(Abs()), next, w)
    {
      if next == Clearing || next == Deleted {
        if w.nothingToClear {
          AddEvent(ClearingCompleted);
        }
      }
      status := next;
    }

    /** bgp_stop: every thread of the peer is cancelled, its events are flushed unless
        it is clearing, and nothing of another peer is touched. */
    method Stop()
      requires Valid()
      modifies this, master
      ensures Valid() && Elsewhere() == old(Elsewhere())
      ensures Abs() == Stopped(old(Abs()))
    {
      if status != Clearing {
        FlushEvents();
      }
      if status == Established {
        dropped := dropped + 1;
      }
      AllTimersOff();
      fd := false;
      vKeepalive, vHoldtime := config.keepalive, config.holdtime;
    }

    /** peer_delete. */
    method DeletePeer(w: World)
      requires Valid()
      modifies this, master
      ensures Valid() && Elsewhere() == old(Elsewhere())
      ensures Abs() == PeerDeleted(old(Abs()), w)
    {
      Stop();
      ChangeStatus(Deleted, w);
      TimerSet();
    }

    /** bgp_start. */
    method Start(w: World) returns (proceed: bool)
      requires Valid()
      modifies this, master
      ensures Valid() && Elsewhere() == old(Elsewhere())
      ensures Outcome(Abs(), proceed) == Started(old(Abs()), w)
    {
      if config.suppressed {
        return false;
      }
      if config.passive {
        AddEvent(TcpOpenFailed);
        return true;
      }
      fd := w.descriptor;
      match w.connect {
        case ConnectError => AddEvent(TcpOpenFailed);
        case ConnectOk => AddEvent(TcpOpen);
        case InProgress =>
          if !fd {
            return false;
          }
      }
      return true;
    }

    /** bgp_stop_with_error. */
    method StopOnError()
      requires Valid()
      modifies this, master
      ensures Valid() && Elsewhere() == old(Elsewhere())
      ensures Abs() == StoppedWithError(old(Abs()))
    {
      vStart := vStart * 2;
      if vStart >= START_MAX {
        vStart := START_MAX;
      }
      Stop();
    }

    /** bgp_stop_with_notify. */
    method StopAndNotify(w: World) returns (proceed: bool)
      requires Valid()
      modifies this, master
      ensures Valid() && Elsewhere() == old(Elsewhere())
      ensures Outcome(Abs(), proceed) == StoppedWithNotify(old(Abs()), w)
    {
      AddEvent(BgpStop);
      if config.accept {
        DeletePeer(w);
        return false;
      }
      vStart := INIT_START_TIMER;
      Stop();
      return true;
    }

    /** bgp_establish. */
    method MakeEstablished(w: World)
      requires Valid()
      modifies this, master
      ensures Valid() && Elsewhere() == old(Elsewhere())
      ensures Abs() == MadeEstablished(old(Abs()), w)
    {
      vStart := INIT_START_TIMER;
      established := established + 1;
      ChangeStatus(Established, w);
      config := config.(nsfWait := false);
      TimerOn(RouteadvTimer);
    }

    /** BGP_TIMER_OFF on the hold timer, to be set again by bgp_timer_set. */
    method RestartHold()
      requires Valid()
      modifies this, master
      ensures Valid() && Elsewhere() == old(Elsewhere())
      ensures Abs() == old(Abs()).(timers := old(Abs()).timers.(hold := false))
      ensures HoldTimer !in t && master.next == old(master.next)
    {
      TimerOff(HoldTimer);
    }

    method Call(h: Handler, w: World) returns (proceed: bool)
      requires Valid()
      modifies this, master
      ensures Valid() && Elsewhere() == old(Elsewhere())
      ensures Outcome(Abs(), proceed) == Handle(h, old(Abs()), w)
      ensures Restarts(h) ==> HoldTimer !in t && master.next == old(master.next)
    {
      proceed := true;
      match h {
        case DoStart => proceed := Start(w);
        case DoStop => Stop();
        case ConnectFail => Stop();
        case Ignore =>
        case KeepaliveExpire =>
        case ConnectSuccess => proceed := fd;
        case Reconnect =>
          Stop();
          var _ := Start(w);
        case StopWithError => StopOnError();
        case HoldtimeExpire => proceed := StopAndNotify(w);
        case EventError => proceed := StopAndNotify(w);
        case FsmOpen => RestartHold();
        case FsmKeepalive => RestartHold();
        case FsmUpdate => RestartHold();
        case Establish => MakeEstablished(w);
        case ClearingDone =>
          Stop();
          FlushEvents();
      }
    }

    /** bgp_event: whatever the event and the state, the threads scheduled for the
        peer are those its timers hold, each in its own states; if the event goes
        through they are exactly those the new state calls for; an OPEN, a KEEPALIVE or
        an UPDATE that is accepted puts a new hold timer in the place of the old; the
        counts move together; and no other peer's threads or events are touched. */
    method HandleEvent(e: Event, w: World)
      requires Valid()
      modifies this, master
      ensures Valid() && Elsewhere() == old(Elsewhere())
      ensures Abs() == Dispatched(old(Abs()), e, w)
      ensures old(OwnStates(Abs())) ==> TimersOk(Abs())
      ensures (old(status) == Established ==> RouteadvTimer in old(t)) && old(Proceeds(Abs(), e, w)) ==>
                ThreadsCalledFor(master.timers, id, Abs())
      ensures old(Excess(Abs())) == 0 && (old(status) != Established || e != ClearingCompleted) ==> Excess(Abs()) == 0
      ensures old(status) == OpenSent && e == ReceiveOpen && HoldTimer in t ==> t[HoldTimer] !in old(master.timers)
      ensures old(status) == Established && e in {ReceiveKeepalive, ReceiveUpdate} && HoldTimer in t ==>
                t[HoldTimer] !in old(master.timers)
    {
      ghost var was := Abs();
      DispatchCounts(was, e, w);
      if OwnStates(was) {
        DispatchOk(was, e, w);
      }
      Dispatch(e, w);
      if (was.status == Established ==> was.timers.routeadv) && Proceeds(was, e, w) {
        DispatchArms(was, e, w);
        ArmedThreads(t, master.timers, master.next, id, Abs());
      }
    }

    /** The handler of the table's entry, then the change of state. */
    method Dispatch(e: Event, w: World)
      requires Valid()
      modifies this, master
      ensures Valid() && Elsewhere() == old(Elsewhere())
      ensures Abs() == Dispatched(old(Abs()), e, w)
      ensures Restarts(Table(old(status), e).func) && HoldTimer in t ==> t[HoldTimer] >= old(master.next)
    {
      var entry := Table(status, e);
      var proceed := Call(entry.func, w);
      if proceed {
        if entry.next != status {
          ChangeStatus(entry.next, w);
        }
        TimerSet();
      }
    }

    /** A timer thread runs out: the master drops it, the peer clears its pointer and
        handles the event the timer stands for. */
    method Expire(k: Timer, w: World)
      requires Valid() && k in t
      modifies this, master
      ensures Valid() && Elsewhere() == old(Elsewhere())
      ensures Abs() == Fired(old(Abs()), k, w)
      ensures old(Running(Abs()) && OwnStates(Abs())) ==> Running(Abs())
      ensures old(Running(Abs()) && OwnStates(Abs())) && k != RouteadvTimer
              && (old(status) in {Idle, Active} ==> old(Starts(Abs(), w))) ==>
                ThreadsCalledFor(master.timers, id, Abs())
    {
      ghost var was := Abs();
      RunOut(k, w);
      if Running(was) && OwnStates(was) {
        FireRuns(was, k, w);
        if k != RouteadvTimer && (was.status in {Idle, Active} ==> Starts(was, w)) {
          ArmedThreads(t, master.timers, master.next, id, Abs());
        }
      }
    }

    method RunOut(k: Timer, w: World)
      requires Valid() && k in t
      modifies this, master
      ensures Valid() && Elsewhere() == old(Elsewhere())
      ensures Abs() == Fired(old(Abs()), k, w)
    {
      TimerOff(k);
      match k {
        case StartTimer => HandleEvent(BgpStart, w);
        case ConnectTimer => HandleEvent(ConnectRetryExpired, w);
        case HoldTimer => HandleEvent(HoldExpired, w);
        case KeepaliveTimer => HandleEvent(KeepAliveExpired, w);
        case RouteadvTimer => TimerOn(RouteadvTimer);
      }
    }
  }
}
