/** What the session machine keeps going: the timers that must be on, the ways between
    the states, and the descriptors that must be closed. */
module BgpFsmLive {
  import opened BgpFsm

  // ----- Timers that must be on -----

  /** The session is under way with a hold time, and no OPEN that may have changed it
      waits to be handled. */
  predicate HoldInForce(s: State) {
    s.vHoldtime != 0 && ReceiveOpen !in s.events
  }

  /** Connecting is retried, a silent peer is noticed, and an established session sends
      its keepalives and its routes. */
  predicate Running(s: State) {
    && (s.status == Connect ==> s.timers.connect)
    && (s.status in {OpenSent, OpenConfirm, Established} && HoldInForce(s) ==> s.timers.hold)
    && (s.status in {OpenConfirm, Established} && HoldInForce(s) ==> s.timers.keepalive)
    && (s.status == Established ==> s.timers.routeadv)
  }

  /** The timers are those the state and the configuration call for. */
  predicate Armed(s: State) {
    && (s.timers.start <==> s.status == Idle && s.config.active && !s.config.suppressed)
    && (s.timers.connect <==>
          s.status == Connect || (s.status == Active && !s.config.passive && !s.config.nsfWait))
    && (s.timers.hold <==> s.status in {OpenSent, OpenConfirm, Established} && s.vHoldtime != 0)
    && (s.timers.keepalive <==> s.status in {OpenConfirm, Established} && s.vHoldtime != 0)
    && (s.timers.routeadv <==> s.status == Established)
  }

  lemma {:induction false} SetIsArmed(s: State)
    requires s.status == Established ==> s.timers.routeadv
    ensures Armed(TimersSet(s))
  {}

  /** The event goes through: its handler does not stop it. */
  predicate Proceeds(s: State, e: Event, w: World) {
    Handle(Table(s.status, e).func, s, w).proceed
  }

  /** Which events do not: a start that is suppressed or has no descriptor to wait on,
      an open without a descriptor, and what deletes a peer made for an accepted
      connection. */
  lemma {:induction false} ProceedsExactly(s: State, e: Event, w: World)
    ensures Proceeds(s, e, w) <==> !(Blocked(s, e, w) || (Fatal(s, e) && s.config.accept))
  {}

  predicate Blocked(s: State, e: Event, w: World) {
    || (Starting(s, e) && !Starts(s, w))
    || (s.status in {Connect, Active} && e == TcpOpen && !s.fd)
  }

  predicate Starting(s: State, e: Event) {
    (s.status == Idle && e == BgpStart) || (s.status == Active && e == ConnectRetryExpired)
  }

  /** bgp_start goes ahead. */
  predicate Starts(s: State, w: World) {
    !s.config.suppressed && (s.config.passive || w.connect != InProgress || w.descriptor)
  }

  /** The hold time has run out, or a message comes before the OPEN. */
  predicate Fatal(s: State, e: Event) {
    || (s.status in {OpenSent, OpenConfirm, Established} && e == HoldExpired)
    || (s.status == OpenSent && e in {ReceiveKeepalive, ReceiveUpdate})
  }

  /** What goes into bgp_timer_set has the route advertisement timer on if it is
      Established. */
  lemma {:induction false} AdvertisesOn(s: State, e: Event, w: World)
    requires (s.status == Established ==> s.timers.routeadv) && Proceeds(s, e, w)
    ensures var o := Handle(Table(s.status, e).func, s, w);
            Table(s.status, e).next == Established ==> o.s.timers.routeadv
  {
    TableEstablished(s.status, e);
  }

  lemma {:induction false} DispatchArms(s: State, e: Event, w: World)
    requires s.status == Established ==> s.timers.routeadv
    ensures Proceeds(s, e, w) || Dispatched(s, e, w).status == Deleted ==> Armed(Dispatched(s, e, w))
  {
    var entry := Table(s.status, e);
    var o := Handle(entry.func, s, w);
    if o.proceed {
      AdvertisesOn(s, e, w);
      var s2 := if entry.next != o.s.status then StatusChanged(o.s, entry.next, w) else o.s;
      assert s2.status == entry.next && s2.timers == o.s.timers;
      SetIsArmed(s2);
    } else {
      StoppedArms(s, e, w);
    }
  }

  lemma {:induction false} StoppedArms(s: State, e: Event, w: World)
    requires !Proceeds(s, e, w)
    ensures Dispatched(s, e, w).status == Deleted ==> Armed(Dispatched(s, e, w))
  {
    ProceedsExactly(s, e, w);
  }

  /** An armed peer is running, and stays so while only its events change. */
  lemma {:induction false} ArmedRuns(s: State)
    ensures Armed(s) ==> Running(s)
  {}

  /** An event that its handler stops leaves the timers of a session alone. */
  lemma {:induction false} StoppedRuns(s: State, e: Event, w: World)
    requires Running(s.(events := [e] + s.events)) && !Proceeds(s, e, w)
    ensures Running(Dispatched(s, e, w))
  {
    ProceedsExactly(s, e, w);
    TableEstablished(s.status, e);
    StoppedCounts(Add(s, BgpStop), w);
  }

  lemma {:induction false} DispatchRuns(s: State, e: Event, w: World)
    requires Running(s.(events := [e] + s.events))
    ensures Running(Dispatched(s, e, w))
  {
    if Proceeds(s, e, w) {
      DispatchArms(s, e, w);
      ArmedRuns(Dispatched(s, e, w));
    } else {
      StoppedRuns(s, e, w);
    }
  }

  /** The step that handles an event, if it does. */
  lemma {:induction false} DeliverRuns(s: State, w: World)
    requires Running(s) && s.events != []
    ensures Running(Apply(s, Deliver(w)))
  {
    var rest := s.(events := s.events[1..]);
    assert s.events == [s.events[0]] + rest.events;
    DispatchRuns(rest, s.events[0], w);
  }

  /** A timer that runs out in one of its own states: its event goes through, or the
      peer is starting. */
  lemma {:induction false} FireRuns(s: State, t: Timer, w: World)
    requires Running(s) && OwnStates(s) && IsOn(s.timers, t)
    ensures Running(Fired(s, t, w))
    ensures t != RouteadvTimer && (s.status in {Idle, Active} ==> Starts(s, w)) ==> Armed(Fired(s, t, w))
  {
    match t {
      case StartTimer =>
        var s1 := s.(timers := s.timers.(start := false));
        ProceedsExactly(s1, BgpStart, w);
        DispatchArms(s1, BgpStart, w);
        if !Starts(s, w) {
          StoppedFire(s1, BgpStart, w);
        }
      case ConnectTimer =>
        var s1 := s.(timers := s.timers.(connect := false));
        ProceedsExactly(s1, ConnectRetryExpired, w);
        DispatchArms(s1, ConnectRetryExpired, w);
        if s.status == Active && !Starts(s, w) {
          StoppedFire(s1, ConnectRetryExpired, w);
        }
      case HoldTimer =>
        var s1 := s.(timers := s.timers.(hold := false));
        ExpiryGoesThrough(s1, HoldExpired, w);
      case KeepaliveTimer =>
        var s1 := s.(timers := s.timers.(keepalive := false));
        ExpiryGoesThrough(s1, KeepAliveExpired, w);
      case RouteadvTimer =>
    }
  }

  lemma {:induction false} StoppedFire(s: State, e: Event, w: World)
    requires s.status == Idle || s.status == Active
    requires Starting(s, e) && !Starts(s, w)
    ensures Dispatched(s, e, w).status == s.status
  {}

  lemma {:induction false} ExpiryGoesThrough(s: State, e: Event, w: World)
    requires s.status in {OpenSent, OpenConfirm, Established} && e in {HoldExpired, KeepAliveExpired}
    requires s.status == Established ==> s.timers.routeadv
    ensures Armed(Dispatched(s, e, w))
  {
    ProceedsExactly(s, e, w);
    DispatchArms(s, e, w);
    if !Proceeds(s, e, w) {
      StoppedCounts(Add(s, BgpStop), w);
      DispatchStatus(s, e, w);
      HandleCounts(Table(s.status, e).func, s, w);
    }
  }

  lemma {:induction false} StepRuns(s: State, step: Step)
    requires Running(s) && OwnStates(s)
    ensures Running(Apply(s, step))
  {
    match step {
      case Post(e) => PostRuns(s, e);
      case Deliver(w) =>
        if s.events != [] {
          DeliverRuns(s, w);
        }
      case Fire(t, w) =>
        if IsOn(s.timers, t) {
          FireRuns(s, t, w);
        }
      case OpenRead(h) => OpenRuns(s, h);
      case UpdateRead => SetIsArmed(s.(timers := s.timers.(hold := false)));
      case Configure(c) =>
      case Rearm => SetIsArmed(s);
      case RestartExpires => SetIsArmed(s.(config := s.config.(nsfWait := false)));
      case Delete(w) => StoppedCounts(s, w);
    }
  }

  lemma {:induction false} PostRuns(s: State, e: Event)
    requires Running(s)
    ensures Running(Add(s, e))
  {
    assert forall x :: x in s.events ==> x in (s.events + [e]);
  }

  lemma {:induction false} OpenRuns(s: State, holdtime: nat)
    requires Running(s)
    ensures Running(Negotiated(s, holdtime))
  {
    assert ReceiveOpen in s.events + [ReceiveOpen];
  }

  /** In every state of every run connecting is retried, a session with a hold time in
      force has its hold timer on, and its keepalive timer once the OPEN is accepted;
      and the route advertisement timer is on exactly while Established. */
  lemma {:induction false} RunRuns(s: State, steps: seq<Step>)
    requires Initial(s)
    ensures Running(After(s, steps))
    ensures After(s, steps).timers.routeadv <==> After(s, steps).status == Established
    decreases |steps|
  {
    RunTimersOk(s, steps);
    if steps != [] {
      var front := steps[..|steps| - 1];
      RunRuns(s, front);
      RunTimersOk(s, front);
      StepRuns(After(s, front), steps[|steps| - 1]);
    }
  }

  /** The steps that set the timers anew: an event handled that goes through, a timer
      that runs out unless the peer cannot start, an UPDATE read, and bgp_timer_set
      called from outside. */
  predicate Arms(s: State, step: Step) {
    match step
    case Deliver(w) => s.events != [] && Proceeds(s.(events := s.events[1..]), s.events[0], w)
    case Fire(t, w) =>
      IsOn(s.timers, t) && t != RouteadvTimer && (s.status in {Idle, Active} ==> Starts(s, w))
    case UpdateRead => s.status == Established
    case Rearm | RestartExpires => true
    case Delete(_) => s.status != Deleted
    case _ => false
  }

  /** After every such step of every run, exactly the timers are on that the state and
      the configuration call for. */
  lemma {:induction false} RunArms(s: State, steps: seq<Step>, step: Step)
    requires Initial(s) && Arms(After(s, steps), step)
    ensures Armed(Apply(After(s, steps), step))
  {
    var t := After(s, steps);
    RunRuns(s, steps);
    RunTimersOk(s, steps);
    match step {
      case Deliver(w) => DispatchArms(t.(events := t.events[1..]), t.events[0], w);
      case Fire(k, w) => FireRuns(t, k, w);
      case UpdateRead => SetIsArmed(t.(timers := t.timers.(hold := false)));
      case Rearm => SetIsArmed(t);
      case RestartExpires => SetIsArmed(t.(config := t.config.(nsfWait := false)));
      case Delete(w) => StoppedCounts(t, w);
      case _ =>
    }
  }

  // ----- Ways between the states -----

  /** What ends a session that is up, but for a Clearing_Completed. */
  predicate Ends(e: Event) {
    e !in {BgpStart, KeepAliveExpired, ReceiveKeepalive, ReceiveUpdate, ClearingCompleted}
  }

  predicate TcpChange(e: Event) {
    e in {TcpOpen, TcpClosed, TcpOpenFailed, TcpFatalError}
  }

  /** The state after an event: the table's, or that in which the handler stopped it. */
  lemma {:induction false} NextStatus(s: State, e: Event, w: World)
    ensures Dispatched(s, e, w).status
            == if Fatal(s, e) && s.config.accept then Deleted
               else if Blocked(s, e, w) then s.status
               else Table(s.status, e).next
  {
    DispatchStatus(s, e, w);
    HandleCounts(Table(s.status, e).func, s, w);
    ProceedsExactly(s, e, w);
  }

  /** How each state but Idle is entered by an event. */
  lemma {:induction false} EnteredExactly(s: State, e: Event, w: World)
    ensures var to := Dispatched(s, e, w).status;
            && (to == Connect && s.status != Connect <==> Starting(s, e) && Starts(s, w))
            && (to == Active && s.status != Active <==>
                  (s.status == Connect && e == TcpOpenFailed) || (s.status == OpenSent && TcpChange(e)))
            && (to == OpenSent && s.status != OpenSent <==> s.status in {Connect, Active} && e == TcpOpen && s.fd)
            && (to == OpenConfirm && s.status != OpenConfirm <==> s.status == OpenSent && e == ReceiveOpen)
            && (to == Established && s.status != Established <==> s.status == OpenConfirm && e == ReceiveKeepalive)
            && (to == Clearing && s.status != Clearing <==>
                  s.status == Established && Ends(e) && !(Fatal(s, e) && s.config.accept))
            && (to == Deleted && s.status != Deleted <==> Fatal(s, e) && s.config.accept)
  {
    NextStatus(s, e, w);
  }

  /** A start is nothing to a peer that is not idle. */
  lemma {:induction false} StartIgnored(s: State, w: World)
    requires s.status != Idle
    ensures Dispatched(s, BgpStart, w) == TimersSet(s)
  {}

  /** Which events leave a peer where it is. */
  lemma {:induction false} StaysExactly(s: State, e: Event, w: World)
    ensures Dispatched(s, e, w).status == s.status <==>
              match s.status
              case Idle => !(e == BgpStart && Starts(s, w))
              case Connect => e in {BgpStart, ConnectRetryExpired} || (e == TcpOpen && !s.fd)
              case Active =>
                || e in {BgpStart, TcpOpenFailed} || (e == TcpOpen && !s.fd)
                || (e == ConnectRetryExpired && !Starts(s, w))
              case OpenSent => e == BgpStart
              case OpenConfirm => e in {BgpStart, KeepAliveExpired}
              case Established => e in {BgpStart, KeepAliveExpired, ReceiveKeepalive, ReceiveUpdate}
              case Clearing => e != ClearingCompleted
              case Deleted => true
  {
    NextStatus(s, e, w);
  }

  // ----- The start time -----

  /** A NOTIFICATION doubles the time before the next start, up to two minutes; a
      session that comes up, and one whose hold time runs out or that hears a message
      before the OPEN, puts it back to five seconds, unless the peer is deleted. */
  lemma {:induction false} StartTimeExactly(s: State, e: Event, w: World)
    ensures Dispatched(s, e, w).vStart ==
              if s.status in {Active, OpenSent, OpenConfirm, Established} && e == ReceiveNotification
              then (if s.vStart >= 60 then 120 else 2 * s.vStart)
              else if (s.status == OpenConfirm && e == ReceiveKeepalive) || (Fatal(s, e) && !s.config.accept) then 5
              else s.vStart
  {
    DispatchStartTime(s, e, w);
    TableTimes(s.status, e, Table(s.status, e).func);
  }

  lemma {:induction false} TableTimes(status: Status, e: Event, h: Handler)
    requires h == Table(status, e).func
    ensures h == StopWithError <==> status in {Active, OpenSent, OpenConfirm, Established} && e == ReceiveNotification
    ensures h == Establish <==> status == OpenConfirm && e == ReceiveKeepalive
    ensures Notifies(h) <==> (status in {OpenSent, OpenConfirm, Established} && e == HoldExpired)
                             || (status == OpenSent && e in {ReceiveKeepalive, ReceiveUpdate})
  {}

  lemma {:induction false} DispatchStartTime(s: State, e: Event, w: World)
    ensures var h := Table(s.status, e).func;
            Dispatched(s, e, w).vStart ==
              if h == StopWithError then (if s.vStart >= 60 then 120 else 2 * s.vStart)
              else if h == Establish || (Notifies(h) && !s.config.accept) then 5
              else s.vStart
  {
    HandleStartTime(Table(s.status, e).func, s, w);
  }

  lemma {:induction false} HandleStartTime(h: Handler, s: State, w: World)
    ensures Handle(h, s, w).s.vStart ==
              if h == StopWithError then (if s.vStart >= 60 then 120 else 2 * s.vStart)
              else if h == Establish || (Notifies(h) && !s.config.accept) then 5
              else s.vStart
  {}

  // ----- Descriptors -----

  /** The peer is not connected and not connecting. */
  predicate Down(status: Status) {
    status in {Idle, Active, Clearing, Deleted}
  }

  predicate Closed(s: State) {
    Down(s.status) ==> !s.fd
  }

  /** Events that take a peer with a descriptor to Idle without bgp_stop. */
  function LeakingEvents(status: Status): set<Event> {
    match status
    case Connect => {HoldExpired, KeepAliveExpired, ReceiveOpen, ReceiveKeepalive, ReceiveUpdate, ClearingCompleted}
    case OpenSent => {ConnectRetryExpired, KeepAliveExpired, ClearingCompleted}
    case OpenConfirm => {ConnectRetryExpired, ReceiveOpen, ReceiveUpdate, ClearingCompleted}
    case Established => {ClearingCompleted}
    case _ => {}
  }

  predicate Leaks(s: State, e: Event) {
    s.fd && e in LeakingEvents(s.status)
  }

  /** What the table says of stopping. */
  predicate StopsWhenDue(status: Status, e: Event, entry: Entry) {
    && (entry.func == DoStart || entry.func == Reconnect ==> entry.next == Connect)
    && (!Down(status) && Down(entry.next) ==> (Stops(entry.func) <==> e !in LeakingEvents(status)))
    && (e in LeakingEvents(status) ==> !Down(status) && entry.next == Idle)
  }

  lemma {:induction false} TableStops(status: Status, e: Event)
    ensures StopsWhenDue(status, e, Table(status, e))
  {}

  /** What a handler does to the descriptor. */
  lemma {:induction false} HandleDescriptor(h: Handler, s: State, w: World)
    ensures Handle(h, s, w).s.fd ==
              if h == DoStart && !s.config.suppressed && !s.config.passive then w.descriptor
              else if h == Reconnect then w.descriptor && !s.config.suppressed && !s.config.passive
              else if Stops(h) then false
              else s.fd
  {}

  lemma {:induction false} DispatchDescriptor(s: State, e: Event, w: World)
    ensures var h := Table(s.status, e).func;
            Dispatched(s, e, w).fd ==
              if h == DoStart && !s.config.suppressed && !s.config.passive then w.descriptor
              else if h == Reconnect then w.descriptor && !s.config.suppressed && !s.config.passive
              else if Stops(h) then false
              else s.fd
  {
    HandleDescriptor(Table(s.status, e).func, s, w);
  }

  /** A peer that gives up its session closes its descriptor if and only if the event
      is none of those. */
  lemma {:induction false} ClosedExactly(s: State, e: Event, w: World)
    requires Closed(s)
    ensures Closed(Dispatched(s, e, w)) <==> !Leaks(s, e)
  {
    NextStatus(s, e, w);
    DispatchDescriptor(s, e, w);
    TableStops(s.status, e);
    DeletingStops(s.status, e);
    ClosedBy(s, Dispatched(s, e, w), e, w, Table(s.status, e));
  }

  lemma {:induction false} DeletingStops(status: Status, e: Event)
    ensures (status in {OpenSent, OpenConfirm, Established} && e == HoldExpired)
            || (status == OpenSent && e in {ReceiveKeepalive, ReceiveUpdate})
            ==> Notifies(Table(status, e).func) && e !in LeakingEvents(status)
  {}

  lemma {:induction false} ClosedBy(s: State, t: State, e: Event, w: World, entry: Entry)
    requires Closed(s) && StopsWhenDue(s.status, e, entry)
    requires Fatal(s, e) ==> Notifies(entry.func) && e !in LeakingEvents(s.status)
    requires t.status == if Fatal(s, e) && s.config.accept then Deleted
                         else if Blocked(s, e, w) then s.status else entry.next
    requires t.fd == if entry.func == DoStart && !s.config.suppressed && !s.config.passive then w.descriptor
                     else if entry.func == Reconnect then w.descriptor && !s.config.suppressed && !s.config.passive
                     else if Stops(entry.func) then false
                     else s.fd
    requires Starting(s, e) ==> entry.func == DoStart
    requires s.status in {Connect, Active} && e == TcpOpen ==> entry.func == ConnectSuccess
    ensures Closed(t) <==> !Leaks(s, e)
  {}

  predicate StepLeaks(s: State, step: Step) {
    step.Deliver? && s.events != [] && Leaks(s, s.events[0])
  }

  lemma {:induction false} FireClosed(s: State, t: Timer, w: World)
    requires Closed(s) && OwnStates(s) && IsOn(s.timers, t)
    ensures Closed(Fired(s, t, w))
  {
    match t {
      case StartTimer => ClosedExactly(s.(timers := s.timers.(start := false)), BgpStart, w);
      case ConnectTimer => ClosedExactly(s.(timers := s.timers.(connect := false)), ConnectRetryExpired, w);
      case HoldTimer => ClosedExactly(s.(timers := s.timers.(hold := false)), HoldExpired, w);
      case KeepaliveTimer => ClosedExactly(s.(timers := s.timers.(keepalive := false)), KeepAliveExpired, w);
      case RouteadvTimer =>
    }
  }

  lemma {:induction false} StepClosed(s: State, step: Step)
    requires Closed(s) && OwnStates(s)
    ensures Closed(Apply(s, step)) <==> !StepLeaks(s, step)
  {
    match step {
      case Deliver(w) =>
        if s.events != [] {
          ClosedExactly(s.(events := s.events[1..]), s.events[0], w);
        }
      case Fire(t, w) =>
        if IsOn(s.timers, t) {
          FireClosed(s, t, w);
        }
      case Delete(w) => StoppedCounts(s, w);
      case _ =>
    }
  }

  predicate NeverLeaks(s: State, steps: seq<Step>)
    decreases |steps|
  {
    steps == [] ||
    (var front := steps[..|steps| - 1];
     NeverLeaks(s, front) && !StepLeaks(After(s, front), steps[|steps| - 1]))
  }

  /** Over every run in which no such event is handled, a peer that is not connected
      has no descriptor open; and the first such event leaves one open. */
  lemma {:induction false} RunClosed(s: State, steps: seq<Step>)
    requires Initial(s) && Closed(s)
    ensures NeverLeaks(s, steps) ==> Closed(After(s, steps))
    ensures steps != [] && NeverLeaks(s, steps[..|steps| - 1]) ==>
              (Closed(After(s, steps)) <==> NeverLeaks(s, steps))
    decreases |steps|
  {
    if steps != [] {
      var front := steps[..|steps| - 1];
      RunClosed(s, front);
      RunTimersOk(s, front);
      if NeverLeaks(s, front) {
        StepClosed(After(s, front), steps[|steps| - 1]);
      }
    }
  }

  // ----- The times of a session -----

  /** An acceptable OPEN puts in force the smaller of the two hold times, and a third of
      it, rounded down, between keepalives. */
  lemma {:induction false} HoldTimeAgreed(s: State, holdtime: nat)
    ensures var t := Negotiated(s, holdtime);
            && t.vHoldtime <= holdtime && t.vHoldtime <= s.config.holdtime
            && t.vHoldtime in {holdtime, s.config.holdtime}
            && 3 * t.vKeepalive <= t.vHoldtime < 3 * t.vKeepalive + 3
            && (s.status != Deleted ==> ReceiveOpen in t.events)
  {
    assert (s.events + [ReceiveOpen])[|s.events|] == ReceiveOpen;
  }

  // ----- The queue -----

  /** What bgp_start queues: that the connection failed, for a passive peer and for a
      connection refused; that it is open, for one made at once; nothing yet, for one
      in progress. */
  function StartPosts(s: State, w: World): seq<Event> {
    if s.config.suppressed then []
    else if s.config.passive || w.connect == ConnectError then [TcpOpenFailed]
    else if w.connect == ConnectOk then [TcpOpen]
    else []
  }

  lemma {:induction false} StartQueues(s: State, w: World)
    requires s.status != Deleted
    ensures Started(s, w).s.events == s.events + StartPosts(s, w)
  {}

  /** Going into Clearing or Deleted queues Clearing_Completed when there is nothing to
      clear; nothing else does. */
  lemma {:induction false} ClearingQueues(s: State, status: Status, w: World)
    requires s.status != Deleted
    ensures StatusChanged(s, status, w).events
            == s.events + if status in {Clearing, Deleted} && w.nothingToClear then [ClearingCompleted] else []
  {}

  /** The queue after a handler. */
  lemma {:induction false} HandleQueues(h: Handler, s: State, w: World)
    requires s.status != Deleted
    ensures Handle(h, s, w).s.events ==
              if h == DoStart then s.events + StartPosts(s, w)
              else if h == Reconnect then Unflushed(s) + StartPosts(s, w)
              else if h == ClearingDone then []
              else if Notifies(h) then
                Unflushed(s.(events := s.events + [BgpStop]))
                + (if s.config.accept && w.nothingToClear then [ClearingCompleted] else [])
              else if Stops(h) then Unflushed(s)
              else s.events
  {
    match h {
      case DoStart => StartQueues(s, w);
      case Reconnect => StartQueues(Stopped(s), w);
      case HoldtimeExpire => NotifyQueues(s, w);
      case EventError => NotifyQueues(s, w);
      case _ =>
    }
  }

  lemma {:induction false} NotifyQueues(s: State, w: World)
    requires s.status != Deleted
    ensures StoppedWithNotify(s, w).s.events
            == Unflushed(s.(events := s.events + [BgpStop]))
               + if s.config.accept && w.nothingToClear then [ClearingCompleted] else []
  {
    var s1 := Add(s, BgpStop);
    ClearingQueues(Stopped(s1), Deleted, w);
    assert Unflushed(s1) + [] == Unflushed(s1);
  }

  /** bgp_stop flushes the queue but while clearing. */
  function Unflushed(s: State): seq<Event> {
    if s.status == Clearing then s.events else []
  }

  // ----- The times -----

  /** Stopping puts the configured times back in force; no handler else touches them,
      and only coming up ends the wait for a graceful restart. */
  lemma {:induction false} HandleTimes(h: Handler, s: State, w: World)
    ensures var t := Handle(h, s, w).s;
            && (t.vHoldtime, t.vKeepalive)
               == (if Stops(h) then (s.config.holdtime, s.config.keepalive) else (s.vHoldtime, s.vKeepalive))
            && t.config == (if h == Establish then s.config.(nsfWait := false) else s.config)
  {}
}
