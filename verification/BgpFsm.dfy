/** The BGP session state machine: its table, its handlers, its timers and its
    event queue. */
module BgpFsm {

  datatype Status = Idle | Connect | Active | OpenSent | OpenConfirm | Established | Clearing | Deleted

  datatype Event =
    | BgpStart | BgpStop | TcpOpen | TcpClosed | TcpOpenFailed | TcpFatalError
    | ConnectRetryExpired | HoldExpired | KeepAliveExpired
    | ReceiveOpen | ReceiveKeepalive | ReceiveUpdate | ReceiveNotification | ClearingCompleted

  /** The functions the table names. */
  datatype Handler =
    | DoStart | DoStop | Ignore | ConnectSuccess | ConnectFail | Reconnect | StopWithError
    | HoldtimeExpire | FsmOpen | EventError | Establish | KeepaliveExpire | FsmKeepalive | FsmUpdate
    | ClearingDone

  datatype Entry = Entry(func: Handler, next: Status)

  /** The constant table FSM. */
  function Table(status: Status, event: Event): Entry {
    match status
    case Idle => (
      match event
      case BgpStart => Entry(DoStart, Connect)
      case BgpStop | TcpOpen | TcpClosed | TcpFatalError => Entry(DoStop, Idle)
      case _ => Entry(Ignore, Idle))
    case Connect => (
      match event
      case BgpStart => Entry(Ignore, Connect)
      case BgpStop | TcpClosed | ReceiveNotification => Entry(DoStop, Idle)
      case TcpOpen => Entry(ConnectSuccess, OpenSent)
      case TcpOpenFailed => Entry(ConnectFail, Active)
      case TcpFatalError => Entry(ConnectFail, Idle)
      case ConnectRetryExpired => Entry(Reconnect, Connect)
      case _ => Entry(Ignore, Idle))
    case Active => (
      match event
      case BgpStart | TcpOpenFailed => Entry(Ignore, Active)
      case BgpStop | TcpClosed => Entry(DoStop, Idle)
      case TcpOpen => Entry(ConnectSuccess, OpenSent)
      case ConnectRetryExpired => Entry(DoStart, Connect)
      case ReceiveNotification => Entry(StopWithError, Idle)
      case _ => Entry(Ignore, Idle))
    case OpenSent => (
      match event
      case BgpStart => Entry(Ignore, OpenSent)
      case BgpStop => Entry(DoStop, Idle)
      case TcpOpen | TcpClosed | TcpOpenFailed | TcpFatalError => Entry(DoStop, Active)
      case HoldExpired => Entry(HoldtimeExpire, Idle)
      case ReceiveOpen => Entry(FsmOpen, OpenConfirm)
      case ReceiveKeepalive | ReceiveUpdate => Entry(EventError, Idle)
      case ReceiveNotification => Entry(StopWithError, Idle)
      case _ => Entry(Ignore, Idle))
    case OpenConfirm => (
      match event
      case BgpStart | KeepAliveExpired => Entry(Ignore, OpenConfirm)
      case BgpStop | TcpOpen | TcpClosed | TcpOpenFailed | TcpFatalError => Entry(DoStop, Idle)
      case HoldExpired => Entry(HoldtimeExpire, Idle)
      case ReceiveKeepalive => Entry(Establish, Established)
      case ReceiveNotification => Entry(StopWithError, Idle)
      case _ => Entry(Ignore, Idle))
    case Established => (
      match event
      case BgpStart => Entry(Ignore, Established)
      case HoldExpired => Entry(HoldtimeExpire, Clearing)
      case KeepAliveExpired => Entry(KeepaliveExpire, Established)
      case ReceiveKeepalive => Entry(FsmKeepalive, Established)
      case ReceiveUpdate => Entry(FsmUpdate, Established)
      case ReceiveNotification => Entry(StopWithError, Clearing)
      case ClearingCompleted => Entry(Ignore, Idle)
      case _ => Entry(DoStop, Clearing))
    case Clearing => (
      match event
      case BgpStart => Entry(Ignore, Clearing)
      case ClearingCompleted => Entry(ClearingDone, Idle)
      case _ => Entry(DoStop, Clearing))
    case Deleted => Entry(Ignore, Deleted)
  }

  /** The configuration the machine looks at: start suppressed, address family
      active, passive, waiting for a graceful restart, a peer made for an accepted
      connection, and the configured times. */
  datatype Config = Config(
    suppressed: bool, active: bool, passive: bool, nsfWait: bool, accept: bool, holdtime: nat, keepalive: nat)

  /** What the world answers: how connecting went, whether there is a descriptor,
      and whether there were no routes left to clear. */
  datatype ConnectResult = ConnectError | ConnectOk | InProgress
  datatype World = World(connect: ConnectResult, descriptor: bool, nothingToClear: bool)

  datatype Timers = Timers(start: bool, connect: bool, hold: bool, keepalive: bool, routeadv: bool)

  const ALL_OFF := Timers(false, false, false, false, false)

  datatype State = State(
    status: Status, timers: Timers, vStart: nat, vHoldtime: nat, vKeepalive: nat,
    established: nat, dropped: nat, fd: bool, events: seq<Event>, config: Config)

  // ----- The steps of the handlers -----

  /** BGP_EVENT_ADD. */
  function Add(s: State, e: Event): State {
    if s.status == Deleted then s else s.(events := s.events + [e])
  }

  /** bgp_timer_set. A timer that is on is left running. */
  function TimersSet(s: State): State {
    var held := s.vHoldtime != 0;
    s.(timers :=
      match s.status
      case Idle => ALL_OFF.(start := !s.config.suppressed && s.config.active)
      case Connect => ALL_OFF.(connect := true)
      case Active => ALL_OFF.(connect := !s.config.passive && !s.config.nsfWait)
      case OpenSent => ALL_OFF.(hold := held)
      case OpenConfirm => ALL_OFF.(hold := held, keepalive := held)
      case Established => ALL_OFF.(hold := held, keepalive := held, routeadv := s.timers.routeadv)
      case _ => ALL_OFF)
  }

  /** bgp_stop. */
  function Stopped(s: State): State {
    s.(events := if s.status != Clearing then [] else s.events,
       dropped := if s.status == Established then s.dropped + 1 else s.dropped,
       timers := ALL_OFF, fd := false,
       vKeepalive := s.config.keepalive, vHoldtime := s.config.holdtime)
  }

  /** bgp_fsm_change_status: going into Clearing or Deleted clears the routes. */
  function StatusChanged(s: State, status: Status, w: World): State {
    var s1 := if (status == Clearing || status == Deleted) && w.nothingToClear then Add(s, ClearingCompleted) else s;
    s1.(status := status)
  }

  /** peer_delete. */
  function PeerDeleted(s: State, w: World): State {
    TimersSet(StatusChanged(Stopped(s), Deleted, w))
  }

  const START_MAX: nat := 120
  const INIT_START_TIMER: nat := 5

  function StoppedWithError(s: State): State {
    Stopped(s.(vStart := if s.vStart * 2 >= START_MAX then START_MAX else s.vStart * 2))
  }

  /** A handler's new state, and whether it lets the event go on. */
  datatype Outcome = Outcome(s: State, proceed: bool)

  /** bgp_start. */
  function Started(s: State, w: World): Outcome {
    if s.config.suppressed then Outcome(s, false)
    else if s.config.passive then Outcome(Add(s, TcpOpenFailed), true)
    else
      var s1 := s.(fd := w.descriptor);
      match w.connect
      case ConnectError => Outcome(Add(s1, TcpOpenFailed), true)
      case ConnectOk => Outcome(Add(s1, TcpOpen), true)
      case InProgress => Outcome(s1, w.descriptor)
  }

  /** bgp_stop_with_notify: a peer made for an accepted connection is deleted. */
  function StoppedWithNotify(s: State, w: World): Outcome {
    var s1 := Add(s, BgpStop);
    if s.config.accept then Outcome(PeerDeleted(s1, w), false)
    else Outcome(Stopped(s1.(vStart := INIT_START_TIMER)), true)
  }

  /** bgp_establish. */
  function MadeEstablished(s: State, w: World): State {
    var s1 := StatusChanged(s.(vStart := INIT_START_TIMER, established := s.established + 1), Established, w);
    s1.(config := s1.config.(nsfWait := false), timers := s1.timers.(routeadv := true))
  }

  function Handle(h: Handler, s: State, w: World): Outcome {
    match h
    case DoStart => Started(s, w)
    case DoStop | ConnectFail => Outcome(Stopped(s), true)
    case Ignore | KeepaliveExpire => Outcome(s, true)
    case ConnectSuccess => Outcome(s, s.fd)
    case Reconnect => Outcome(Started(Stopped(s), w).s, true)
    case StopWithError => Outcome(StoppedWithError(s), true)
    case HoldtimeExpire | EventError => StoppedWithNotify(s, w)
    case FsmOpen | FsmKeepalive | FsmUpdate => Outcome(s.(timers := s.timers.(hold := false)), true)
    case Establish => Outcome(MadeEstablished(s, w), true)
    case ClearingDone => Outcome(Stopped(s).(events := []), true)
  }

  /** bgp_event. */
  function Dispatched(s: State, e: Event, w: World): State {
    var entry := Table(s.status, e);
    var o := Handle(entry.func, s, w);
    if !o.proceed then o.s
    else
      TimersSet(if entry.next != o.s.status then StatusChanged(o.s, entry.next, w) else o.s)
  }

  // ----- Runs -----

  datatype Timer = StartTimer | ConnectTimer | HoldTimer | KeepaliveTimer | RouteadvTimer

  datatype Step =
    | Post(event: Event)                  // something outside queues an event
    | Deliver(w: World)                   // the first event of the queue is handled
    | Fire(timer: Timer, w: World)        // a timer that is on expires
    | OpenRead(holdtime: nat)             // an acceptable OPEN is read
    | UpdateRead                          // an UPDATE is read
    | Configure(config: Config)
    | Rearm                               // bgp_timer_set from outside
    | RestartExpires                      // the graceful restart timer
    | Delete(w: World)

  function IsOn(t: Timers, timer: Timer): bool {
    match timer
    case StartTimer => t.start
    case ConnectTimer => t.connect
    case HoldTimer => t.hold
    case KeepaliveTimer => t.keepalive
    case RouteadvTimer => t.routeadv
  }

  function Fired(s: State, timer: Timer, w: World): State {
    match timer
    case StartTimer => Dispatched(s.(timers := s.timers.(start := false)), BgpStart, w)
    case ConnectTimer => Dispatched(s.(timers := s.timers.(connect := false)), ConnectRetryExpired, w)
    case HoldTimer => Dispatched(s.(timers := s.timers.(hold := false)), HoldExpired, w)
    case KeepaliveTimer => Dispatched(s.(timers := s.timers.(keepalive := false)), KeepAliveExpired, w)
    case RouteadvTimer => s.(timers := s.timers.(routeadv := s.status != Deleted))
  }

  /** bgp_open_receive as far as it negotiates the times. */
  function Negotiated(s: State, holdtime: nat): State {
    var v := if holdtime < s.config.holdtime then holdtime else s.config.holdtime;
    Add(s.(vHoldtime := v, vKeepalive := v / 3), ReceiveOpen)
  }

  function Apply(s: State, step: Step): State {
    match step
    case Post(e) => Add(s, e)
    case Deliver(w) => if s.events == [] then s else Dispatched(s.(events := s.events[1..]), s.events[0], w)
    case Fire(t, w) => if IsOn(s.timers, t) then Fired(s, t, w) else s
    case OpenRead(h) => if h == 0 || h >= 3 then Negotiated(s, h) else s
    case UpdateRead => if s.status == Established then TimersSet(s.(timers := s.timers.(hold := false))) else s
    case Configure(c) => s.(config := c)
    case Rearm => TimersSet(s)
    case RestartExpires => TimersSet(s.(config := s.config.(nsfWait := false)))
    case Delete(w) => if s.status == Deleted then s else PeerDeleted(s, w)
  }

  /** A peer newly made. */
  predicate Initial(s: State) {
    s.status == Idle && s.timers == ALL_OFF && s.established == s.dropped == 0 && s.events == []
      && 0 < s.vStart <= START_MAX
  }

  function After(s: State, steps: seq<Step>): State
    decreases |steps|
  {
    if steps == [] then s else Apply(After(s, steps[..|steps| - 1]), steps[|steps| - 1])
  }

  // ----- Timers -----

  /** Each timer runs only in its own states. */
  predicate OwnStates(s: State) {
    && (s.timers.start ==> s.status == Idle)
    && (s.timers.connect ==> s.status == Connect || s.status == Active)
    && (s.timers.hold ==> s.status == OpenSent || s.status == OpenConfirm || s.status == Established)
    && (s.timers.keepalive ==> s.status == OpenConfirm || s.status == Established)
    && (s.timers.routeadv ==> s.status == Established)
    && 0 < s.vStart <= START_MAX
  }

  /** The hold and keepalive timers do not run once a negotiated hold time of zero
      is in force; an OPEN just read is in force when its event has been handled. */
  predicate ZeroHeld(s: State) {
    (s.status == OpenConfirm || s.status == Established) && s.vHoldtime == 0 && ReceiveOpen !in s.events ==>
      !s.timers.hold && !s.timers.keepalive
  }

  predicate TimersOk(s: State) { OwnStates(s) && ZeroHeld(s) }

  lemma {:induction false} TimersSetOk(s: State)
    requires (s.timers.routeadv ==> s.status == Established || TimersSet(s).status != Established)
             && 0 < s.vStart <= START_MAX
    ensures TimersOk(TimersSet(s))
  {}

  lemma {:induction false} DeletedOk(s: State, w: World)
    requires 0 < s.vStart <= START_MAX
    ensures TimersOk(PeerDeleted(s, w))
  {}

  /** What is right about a handler's outcome: one that stops the event leaves the
      timers right by itself, in a state without a hold time in force. */
  predicate OutcomeOk(h: Handler, s: State, o: Outcome) {
    && 0 < o.s.vStart <= START_MAX
    && (o.s.timers.routeadv ==> o.s.status == Established)
    && (!o.proceed ==> OwnStates(o.s) && (o.s.status == Deleted || o.s.status == s.status))
    && (!o.proceed ==> h == DoStart || h == ConnectSuccess || o.s.status == Deleted)
  }

  lemma {:induction false} StartedOk(s: State, w: World)
    requires OwnStates(s)
    ensures Started(s, w).s.(fd := s.fd, events := s.events) == s
  {}

  lemma {:induction false} NotifyOk(h: Handler, s: State, w: World)
    requires OwnStates(s)
    ensures OutcomeOk(h, s, StoppedWithNotify(s, w))
  {
    DeletedOk(Add(s, BgpStop), w);
    assert PeerDeleted(Add(s, BgpStop), w).status == Deleted;
  }

  lemma {:induction false} HandleOk(h: Handler, s: State, w: World)
    requires OwnStates(s)
    ensures OutcomeOk(h, s, Handle(h, s, w))
  {
    match h {
      case DoStart => StartedOk(s, w);
      case Reconnect => StartedOk(Stopped(s), w);
      case HoldtimeExpire => NotifyOk(h, s, w);
      case EventError => NotifyOk(h, s, w);
      case _ =>
    }
  }

  lemma {:induction false} TableOk(status: Status, e: Event)
    ensures Table(status, e).func == DoStart || Table(status, e).func == ConnectSuccess ==>
              status != OpenConfirm && status != Established
  {}

  lemma {:induction false} DispatchOk(s: State, e: Event, w: World)
    requires OwnStates(s)
    ensures TimersOk(Dispatched(s, e, w))
  {
    var entry := Table(s.status, e);
    var o := Handle(entry.func, s, w);
    HandleOk(entry.func, s, w);
    TableOk(s.status, e);
    if o.proceed {
      var s2 := if entry.next != o.s.status then StatusChanged(o.s, entry.next, w) else o.s;
      assert s2.vStart == o.s.vStart && s2.timers == o.s.timers;
      RouteadvLeft(s, e, w);
      TimersSetOk(s2);
    }
  }

  /** The route advertisement timer is not carried into Established. */
  lemma {:induction false} RouteadvLeft(s: State, e: Event, w: World)
    requires OwnStates(s)
    ensures var o := Handle(Table(s.status, e).func, s, w);
            o.s.timers.routeadv && Table(s.status, e).next == Established ==> o.s.status == Established
  {
    HandleOk(Table(s.status, e).func, s, w);
  }

  lemma {:induction false} FireOk(s: State, t: Timer, w: World)
    requires TimersOk(s) && IsOn(s.timers, t)
    ensures TimersOk(Fired(s, t, w))
  {
    match t {
      case StartTimer => DispatchOk(s.(timers := s.timers.(start := false)), BgpStart, w);
      case ConnectTimer => DispatchOk(s.(timers := s.timers.(connect := false)), ConnectRetryExpired, w);
      case HoldTimer => DispatchOk(s.(timers := s.timers.(hold := false)), HoldExpired, w);
      case KeepaliveTimer => DispatchOk(s.(timers := s.timers.(keepalive := false)), KeepAliveExpired, w);
      case RouteadvTimer =>
    }
  }

  lemma {:induction false} StepTimersOk(s: State, step: Step)
    requires TimersOk(s)
    ensures TimersOk(Apply(s, step))
  {
    match step {
      case Deliver(w) =>
        if s.events != [] {
          DispatchOk(s.(events := s.events[1..]), s.events[0], w);
        }
      case Fire(t, w) =>
        if IsOn(s.timers, t) {
          FireOk(s, t, w);
        }
      case Delete(w) => DeletedOk(s, w);
      case UpdateRead => TimersSetOk(s.(timers := s.timers.(hold := false)));
      case Rearm => TimersSetOk(s);
      case RestartExpires => TimersSetOk(s.(config := s.config.(nsfWait := false)));
      case _ =>
    }
  }

  /** In every state of every run each timer is on only in its own states. */
  lemma {:induction false} RunTimersOk(s: State, steps: seq<Step>)
    requires Initial(s)
    ensures TimersOk(After(s, steps))
    decreases |steps|
  {
    if steps != [] {
      RunTimersOk(s, steps[..|steps| - 1]);
      StepTimersOk(After(s, steps[..|steps| - 1]), steps[|steps| - 1]);
    }
  }

  // ----- Sessions established and dropped -----

  function Up(s: State): int { if s.status == Established then 1 else 0 }

  /** Sessions established that neither are up nor were counted as dropped. */
  function Excess(s: State): int { s.established - s.dropped - Up(s) }

  predicate Stops(h: Handler) {
    h == DoStop || h == ConnectFail || h == Reconnect || h == StopWithError || h == HoldtimeExpire || h == EventError
    || h == ClearingDone
  }

  predicate Notifies(h: Handler) { h == HoldtimeExpire || h == EventError }

  lemma {:induction false} StoppedCounts(s: State, w: World)
    ensures Stopped(s).established == s.established && Stopped(s).dropped == s.dropped + Up(s)
            && Stopped(s).status == s.status
    ensures PeerDeleted(s, w).established == s.established && PeerDeleted(s, w).dropped == s.dropped + Up(s)
    ensures PeerDeleted(s, w).status == Deleted
  {}

  /** What a handler does to the counts and the status. */
  predicate CountedBy(h: Handler, s: State, o: Outcome) {
    && o.s.established == s.established + (if h == Establish then 1 else 0)
    && o.s.dropped == s.dropped + (if Stops(h) then Up(s) else 0)
    && o.s.status ==
       (if h == Establish then Established else if Notifies(h) && s.config.accept then Deleted else s.status)
    && (h != DoStart && h != ConnectSuccess ==> (o.proceed <==> !(Notifies(h) && s.config.accept)))
  }

  lemma {:induction false} StartedCounts(s: State, w: World)
    ensures var t := Started(s, w).s;
            t.status == s.status && t.established == s.established && t.dropped == s.dropped
  {}

  lemma {:induction false} NotifyCounts(h: Handler, s: State, w: World)
    requires Notifies(h)
    ensures CountedBy(h, s, StoppedWithNotify(s, w))
  {
    StoppedCounts(Add(s, BgpStop), w);
    StoppedCounts(Add(s, BgpStop).(vStart := INIT_START_TIMER), w);
  }

  lemma {:induction false} HandleCounts(h: Handler, s: State, w: World)
    ensures CountedBy(h, s, Handle(h, s, w))
  {
    match h {
      case DoStart => StartedCounts(s, w);
      case Reconnect => StartedCounts(Stopped(s), w);
      case HoldtimeExpire => NotifyCounts(h, s, w);
      case EventError => NotifyCounts(h, s, w);
      case _ =>
    }
  }

  /** What the table says about Established. */
  lemma {:induction false} TableEstablished(status: Status, e: Event)
    ensures var entry := Table(status, e);
            && (entry.next == Established && status != Established <==> entry.func == Establish)
            && (entry.func == Establish ==> status == OpenConfirm && e == ReceiveKeepalive)
            && (status == Established && e != ClearingCompleted ==>
                  entry.next == (if Stops(entry.func) then Clearing else Established) && entry.func != DoStart
                    && entry.func != ConnectSuccess)
            && (status == Established && e == ClearingCompleted ==> entry == Entry(Ignore, Idle))
  {}

  lemma {:induction false} DispatchStatus(s: State, e: Event, w: World)
    ensures var entry := Table(s.status, e);
            var o := Handle(entry.func, s, w);
            var t := Dispatched(s, e, w);
            && t.status == (if o.proceed then entry.next else o.s.status)
            && t.established == o.s.established && t.dropped == o.s.dropped
  {}

  lemma {:induction false} DispatchCounts(s: State, e: Event, w: World)
    ensures Excess(Dispatched(s, e, w))
            == Excess(s) + if s.status == Established && e == ClearingCompleted then 1 else 0
  {
    DispatchStatus(s, e, w);
    HandleCounts(Table(s.status, e).func, s, w);
    TableEstablished(s.status, e);
  }

  /** The event a step has handled, if any. */
  function Handled(s: State, step: Step): set<Event> {
    match step
    case Deliver(_) => if s.events == [] then {} else {s.events[0]}
    case Fire(t, _) =>
      if !IsOn(s.timers, t) then {} else
      (match t
       case StartTimer => {BgpStart}
       case ConnectTimer => {ConnectRetryExpired}
       case HoldTimer => {HoldExpired}
       case KeepaliveTimer => {KeepAliveExpired}
       case RouteadvTimer => {})
    case _ => {}
  }

  /** Clearing_Completed handled in Established: the session ends uncounted. */
  predicate Loses(s: State, step: Step) {
    s.status == Established && ClearingCompleted in Handled(s, step)
  }

  lemma {:induction false} FireCounts(s: State, t: Timer, w: World)
    ensures Excess(Fired(s, t, w)) == Excess(s)
  {
    match t {
      case StartTimer => DispatchCounts(s.(timers := s.timers.(start := false)), BgpStart, w);
      case ConnectTimer => DispatchCounts(s.(timers := s.timers.(connect := false)), ConnectRetryExpired, w);
      case HoldTimer => DispatchCounts(s.(timers := s.timers.(hold := false)), HoldExpired, w);
      case KeepaliveTimer => DispatchCounts(s.(timers := s.timers.(keepalive := false)), KeepAliveExpired, w);
      case RouteadvTimer =>
    }
  }

  lemma {:induction false} FireHandles(s: State, t: Timer, w: World)
    ensures ClearingCompleted !in Handled(s, Fire(t, w))
  {}

  lemma {:induction false} DeliverCounts(s: State, w: World)
    requires s.events != []
    ensures Excess(Apply(s, Deliver(w))) == Excess(s) + if Loses(s, Deliver(w)) then 1 else 0
  {
    DispatchCounts(s.(events := s.events[1..]), s.events[0], w);
  }

  lemma {:induction false} StepCounts(s: State, step: Step)
    ensures Excess(Apply(s, step)) == Excess(s) + if Loses(s, step) then 1 else 0
  {
    match step {
      case Deliver(w) =>
        if s.events != [] {
          DeliverCounts(s, w);
        }
      case Fire(t, w) =>
        FireCounts(s, t, w);
        FireHandles(s, t, w);
      case Delete(w) => StoppedCounts(s, w);
      case _ =>
    }
  }

  function Losses(s: State, steps: seq<Step>): nat
    decreases |steps|
  {
    if steps == [] then 0
    else
      var front := steps[..|steps| - 1];
      Losses(s, front) + if Loses(After(s, front), steps[|steps| - 1]) then 1 else 0
  }

  /** Over every run, the sessions established are those dropped, the one that is up,
      and those a Clearing_Completed ended while Established. */
  lemma {:induction false} SessionsBalance(s: State, steps: seq<Step>)
    requires Initial(s)
    ensures var t := After(s, steps);
            t.established == t.dropped + Up(t) + Losses(s, steps)
    ensures var t := After(s, steps);
            t.established == t.dropped + Up(t) <==> Losses(s, steps) == 0
    decreases |steps|
  {
    if steps != [] {
      var front := steps[..|steps| - 1];
      SessionsBalance(s, front);
      StepCounts(After(s, front), steps[|steps| - 1]);
    }
  }

  // ----- Entering and leaving Established -----

  lemma {:induction false} DispatchEstablished(s: State, e: Event, w: World)
    ensures s.status != Established && Dispatched(s, e, w).status == Established ==>
              s.status == OpenConfirm && e == ReceiveKeepalive
    ensures s.status == Established && Dispatched(s, e, w).status != Established ==>
              || Dispatched(s, e, w).status == Clearing
              || (Dispatched(s, e, w).status == Deleted && s.config.accept && e == HoldExpired)
              || (Dispatched(s, e, w).status == Idle && e == ClearingCompleted)
  {
    DispatchStatus(s, e, w);
    HandleCounts(Table(s.status, e).func, s, w);
    TableEstablished(s.status, e);
    assert Table(Established, e).func == EventError ==> false;
    assert Table(Established, e).func == HoldtimeExpire ==> e == HoldExpired;
  }

  /** Established is entered only when a KEEPALIVE is handled in OpenConfirm, and
      left only for Clearing, but for a deleted peer and for a Clearing_Completed
      that arrives in Established. */
  lemma {:induction false} OnlyWays(s: State, step: Step)
    ensures s.status != Established && Apply(s, step).status == Established ==>
              s.status == OpenConfirm && Handled(s, step) == {ReceiveKeepalive}
    ensures s.status == Established && Apply(s, step).status != Established ==>
              || Apply(s, step).status == Clearing
              || (Apply(s, step).status == Deleted && (step.Delete? || s.config.accept))
              || (Apply(s, step).status == Idle && Loses(s, step))
  {
    match step {
      case Deliver(w) =>
        if s.events != [] {
          DispatchEstablished(s.(events := s.events[1..]), s.events[0], w);
        }
      case Fire(t, w) =>
        match t {
          case StartTimer => DispatchEstablished(s.(timers := s.timers.(start := false)), BgpStart, w);
          case ConnectTimer => DispatchEstablished(s.(timers := s.timers.(connect := false)), ConnectRetryExpired, w);
          case HoldTimer => DispatchEstablished(s.(timers := s.timers.(hold := false)), HoldExpired, w);
          case KeepaliveTimer => DispatchEstablished(s.(timers := s.timers.(keepalive := false)), KeepAliveExpired, w);
          case RouteadvTimer =>
        }
      case Delete(w) => StoppedCounts(s, w);
      case _ =>
    }
  }

  // ----- When nothing is lost -----

  /** Clearing_Completed is queued from outside only while clearing. */
  predicate Disciplined(s: State, step: Step) {
    step == Post(ClearingCompleted) ==> s.status == Clearing || s.status == Deleted
  }

  ghost predicate DisciplinedRun(s: State, steps: seq<Step>) {
    forall i :: 0 <= i < |steps| ==> Disciplined(After(s, steps[..i]), steps[i])
  }

  /** A queued Clearing_Completed belongs to the clearing that is going on. */
  predicate Awaited(s: State) {
    ClearingCompleted in s.events ==> s.status == Clearing || s.status == Deleted
  }

  lemma {:induction false} StartedEvents(s: State, w: World)
    ensures ClearingCompleted in Started(s, w).s.events ==> ClearingCompleted in s.events
  {}

  lemma {:induction false} NotifyEvents(s: State, w: World)
    ensures var t := StoppedWithNotify(s, w).s;
            ClearingCompleted in t.events ==> ClearingCompleted in s.events || t.status == Deleted
  {
    StoppedCounts(Add(s, BgpStop), w);
  }

  lemma {:induction false} HandleEvents(h: Handler, s: State, w: World)
    ensures var t := Handle(h, s, w).s;
            && (ClearingCompleted in t.events ==> ClearingCompleted in s.events || t.status == Deleted)
            && (h == ClearingDone ==> t.events == [])
  {
    match h {
      case DoStart => StartedEvents(s, w);
      case Reconnect => StartedEvents(Stopped(s), w);
      case HoldtimeExpire => NotifyEvents(s, w);
      case EventError => NotifyEvents(s, w);
      case _ =>
    }
  }

  lemma {:induction false} TableClearing(status: Status, e: Event)
    ensures var entry := Table(status, e);
            && (status == Deleted ==> entry == Entry(Ignore, Deleted))
            && (status == Clearing ==>
                  entry in {Entry(ClearingDone, Idle), Entry(DoStop, Clearing), Entry(Ignore, Clearing)})
  {}

  lemma {:induction false} DispatchAwaited(s: State, e: Event, w: World)
    requires Awaited(s)
    ensures Awaited(Dispatched(s, e, w))
  {
    var entry := Table(s.status, e);
    TableClearing(s.status, e);
    HandleEvents(entry.func, s, w);
    HandleCounts(entry.func, s, w);
    TableEstablished(s.status, e);
  }

  lemma {:induction false} StepAwaited(s: State, step: Step)
    requires Awaited(s) && Disciplined(s, step)
    ensures Awaited(Apply(s, step))
  {
    match step {
      case Deliver(w) =>
        if s.events != [] {
          assert s.events == [s.events[0]] + s.events[1..];
          DispatchAwaited(s.(events := s.events[1..]), s.events[0], w);
        }
      case Fire(t, w) =>
        match t {
          case StartTimer => DispatchAwaited(s.(timers := s.timers.(start := false)), BgpStart, w);
          case ConnectTimer => DispatchAwaited(s.(timers := s.timers.(connect := false)), ConnectRetryExpired, w);
          case HoldTimer => DispatchAwaited(s.(timers := s.timers.(hold := false)), HoldExpired, w);
          case KeepaliveTimer => DispatchAwaited(s.(timers := s.timers.(keepalive := false)), KeepAliveExpired, w);
          case RouteadvTimer =>
        }
      case Delete(w) => StoppedCounts(s, w);
      case _ =>
    }
  }

  /** If Clearing_Completed is queued only while clearing, it is handled only in
      Clearing (or Deleted), so that no session is lost from the count. */
  lemma {:induction false} DisciplineSuffices(s: State, steps: seq<Step>)
    requires Initial(s) && DisciplinedRun(s, steps)
    ensures Awaited(After(s, steps)) && Losses(s, steps) == 0
    ensures After(s, steps).established == After(s, steps).dropped + Up(After(s, steps))
    decreases |steps|
  {
    SessionsBalance(s, steps);
    if steps != [] {
      var n := |steps| - 1;
      var front := steps[..n];
      assert forall i :: 0 <= i < n ==> front[..i] == steps[..i];
      assert forall i :: 0 <= i < n ==> Disciplined(After(s, front[..i]), front[i]);
      DisciplineSuffices(s, front);
      assert Disciplined(After(s, steps[..n]), steps[n]);
      StepAwaited(After(s, front), steps[n]);
    }
  }
}
