/** A network of babeld routers exchanging updates for one prefix.  A message
    once sent stays deliverable for ever, so channels lose, reorder and
    duplicate at will. */
module BabelNetwork {
  import opened BabelSeqno
  import opened BabelRoute

  /** An update on the wire: the sender, the source's router-id, and the
      announced distance. */
  datatype Msg = Msg(from: RouterId, id: RouterId, seqno: nat, metric: nat)

  datatype Net = Net(routers: map<RouterId, Router>, sent: set<Msg>)

  datatype Step =
    /** parse_packet hands a message to update_route. */
    | Receive(at: RouterId, m: Msg, nexthop: nat, interval: nat, cost: nat, add: nat, keepUnfeasible: bool, env: Env)
    /** flushupdates announces the installed route and calls update_source. */
    | Announce(at: RouterId, interferes: bool, factor: nat, add: nat, env: Env)
    /** flushupdates announces an exported route under the router's own id. */
    | Originate(at: RouterId, seqno: nat, metric: nat)
    /** update_route_metric: link cost change, or expiry of the route. */
    | Refresh(at: RouterId, i: nat, cost: nat, add: nat, env: Env)
    /** A wildcard retraction reaches one route. */
    | Retract(at: RouterId, i: nat, env: Env)
    /** flush_route: the neighbour or interface is gone, or the route too old. */
    | Flush(at: RouterId, i: nat, env: Env)
    /** An exported route takes over: uninstall_route. */
    | Yield(at: RouterId)

  /** The metric flushupdates computes for the installed route. */
  function AnnouncedMetric(r: Route, interferes: bool, factor: nat): nat {
    if interferes then RouteMetric(r) else RouteMetricNoninterfering(r, factor)
  }

  function AsUpdate(m: Msg, nexthop: nat, interval: nat): Update {
    Update(m.id, m.seqno, m.metric, interval, m.from, nexthop)
  }

  predicate Enabled(net: Net, s: Step) {
    && s.at in net.routers
    && match s
       case Receive(at, m, _, _, cost, _, _, env) => m in net.sent && cost >= 1
       case Announce(at, _, _, _, _) => net.routers[at].slot != [] && net.routers[at].slot[0].installed
       case Originate(_, _, _) => true
       case Refresh(at, i, cost, _, env) => i < |net.routers[at].slot| && cost >= 1
       case Retract(at, i, env) => i < |net.routers[at].slot|
       case Flush(at, i, env) => i < |net.routers[at].slot|
       case Yield(at) => net.routers[at].slot != []
  }

  /** The router's state after a step at it. */
  function Moved(net: Net, s: Step): Router
    requires Enabled(net, s)
  {
    var rt := net.routers[s.at];
    match s
    case Receive(at, m, nexthop, interval, cost, add, keep, env) =>
      UpdateRoute(rt, at, AsUpdate(m, nexthop, interval), cost, add, keep, env)
    case Announce(at, interferes, factor, add, env) =>
      var r := rt.slot[0];
      if r.src in rt.sources
      then rt.(sources := rt.sources[r.src := UpdateSource(rt.sources[r.src], r.seqno,
                                                           AnnouncedMetric(r, interferes, factor), env.now)])
      else rt
    case Originate(_, _, _) => rt
    case Refresh(_, i, cost, add, env) => UpdateRouteMetric(rt, i, cost, add, env)
    case Retract(_, i, env) => RetractRoute(rt, i, env)
    case Flush(_, i, env) => FlushRoute(rt, i, env)
    case Yield(_) => rt.(slot := UninstallRoute(rt.slot))
  }

  /** The messages a step puts on the wire. */
  function Emitted(net: Net, s: Step): set<Msg>
    requires Enabled(net, s)
  {
    match s
    case Announce(at, interferes, factor, add, _) =>
      var r := net.routers[at].slot[0];
      {Msg(at, r.src, r.seqno, Min(AnnouncedMetric(r, interferes, factor) + add, INFINITY))}
    case Originate(at, seqno, metric) => {Msg(at, at, seqno, metric)}
    case _ => {}
  }

  function Apply(net: Net, s: Step): Net
    requires Enabled(net, s)
  {
    Net(net.routers[s.at := Moved(net, s)], net.sent + Emitted(net, s))
  }

  /** The standing assumptions on a run.  A router only ever compares the
      sequence numbers of a source that are less than 2^15 apart ... */
  predicate InWindow(sources: Sources, r: Route) {
    r.src in sources && r.refmetric < INFINITY ==> Close(r.seqno, sources[r.src].seqno)
  }

  predicate Windowed(rt: Router) {
    forall i :: 0 <= i < |rt.slot| ==> InWindow(rt.sources, rt.slot[i])
  }

  /** ... and no source entry in use has passed its garbage-collection time. */
  predicate Fresh(rt: Router, s: Step) {
    forall id :: id in rt.sources && !s.Originate? && !s.Yield? ==> !Stale(rt.sources[id], s.env.now)
  }

  predicate Proper(net: Net, s: Step) {
    && Enabled(net, s)
    && Fresh(net.routers[s.at], s)
    && Windowed(net.routers[s.at])
    && Windowed(Moved(net, s))
  }

  predicate Runs(net: Net, steps: seq<Step>)
    decreases |steps|
  {
    steps == [] || (Proper(net, steps[0]) && Runs(Apply(net, steps[0]), steps[1..]))
  }

  function Exec(net: Net, steps: seq<Step>): Net
    requires Runs(net, steps)
    decreases |steps|
  {
    if steps == [] then net else Exec(Apply(net, steps[0]), steps[1..])
  }

  /** Every router starts with empty tables and nothing has been sent. */
  predicate Initial(net: Net) {
    net.sent == {} && forall a :: a in net.routers ==> net.routers[a] == Router(map[], [])
  }

  // ----- Distances -----

  /** (s1, m1) is a strictly better distance than (s2, m2): newer, or as new
      and shorter. */
  predicate Better(s1: nat, m1: nat, s2: nat, m2: nat) {
    s1 > s2 || (s1 == s2 && m1 < m2)
  }

  type Fds = map<RouterId, Sources>

  function FdsOf(net: Net): Fds {
    map a | a in net.routers :: net.routers[a].sources
  }

  /** Router b's feasibility distance for the source is no worse than the given
      distance; the source itself counts as distance zero. */
  predicate Bounded(fds: Fds, b: RouterId, id: RouterId, seqno: nat, metric: nat) {
    b == id || (b in fds && id in fds[b] && AtLeastAsGood(fds[b][id].seqno, fds[b][id].metric, seqno, metric))
  }

  /** Router b's feasibility distance is strictly better than router a's. */
  predicate Below(fds: Fds, b: RouterId, a: RouterId, id: RouterId) {
    b == id || (a in fds && b in fds && id in fds[b] && id in fds[a]
                && Better(fds[b][id].seqno, fds[b][id].metric, fds[a][id].seqno, fds[a][id].metric))
  }

  predicate RouteInv(fds: Fds, a: RouterId, r: Route) {
    && r.src != a
    && a in fds && r.src in fds[a]
    && r.cost >= 1
    && (r.refmetric < INFINITY && r.heard ==> Bounded(fds, r.neigh, r.src, r.seqno, r.refmetric))
    && (r.anchored ==> Below(fds, r.neigh, a, r.src) && (r.refmetric < INFINITY ==> r.heard))
  }

  predicate SlotInv(fds: Fds, a: RouterId, slot: Slot) {
    forall i :: 0 <= i < |slot| ==> RouteInv(fds, a, slot[i])
  }

  predicate MsgInv(fds: Fds, m: Msg) {
    m.metric < INFINITY ==> Bounded(fds, m.from, m.id, m.seqno, m.metric)
  }

  /** Every update ever sent by a router is no better than that router's
      feasibility distance, nor is any route through it whose distance was
      heard; and that distance is strictly better than the one of any router
      holding an anchored route through it. */
  ghost predicate Inv(net: Net) {
    && (forall m :: m in net.sent ==> MsgInv(FdsOf(net), m))
    && (forall a :: a in net.routers ==> SlotOk(net.routers[a].slot))
    && (forall a :: a in net.routers ==> SlotInv(FdsOf(net), a, net.routers[a].slot))
  }

  lemma {:induction false} BoundedExtends(fds: Fds, a: RouterId, s': Sources, b: RouterId, id: RouterId, n: nat, m: nat)
    requires a in fds && SameDistances(fds[a], s') && Bounded(fds, b, id, n, m)
    ensures Bounded(fds[a := s'], b, id, n, m)
  {}

  lemma {:induction false} SlotInvExtends(fds: Fds, a: RouterId, s': Sources, c: RouterId, slot: Slot)
    requires a in fds && SameDistances(fds[a], s') && SlotInv(fds, c, slot)
    ensures SlotInv(fds[a := s'], c, slot)
  {
    forall i | 0 <= i < |slot| ensures RouteInv(fds[a := s'], c, slot[i]) {
      assert RouteInv(fds, c, slot[i]);
    }
  }

  /** The feasibility test, when its comparison is inside the window, is the
      strict order on distances. */
  lemma {:induction false} FeasibleIsBetter(s: Source, seqno: nat, refmetric: nat, now: int)
    requires !Stale(s, now) && refmetric < INFINITY && Close(seqno, s.seqno)
    ensures UpdateFeasible(s, seqno, refmetric, now) <==> Better(seqno, refmetric, s.seqno, s.metric)
  {
    CloseCompare(seqno, s.seqno);
  }

  /** update_source lowers a distance to the better of the two, never raises it. */
  lemma {:induction false} UpdateSourceIsMin(s: Source, seqno: nat, metric: nat, now: int)
    requires !Stale(s, now) && metric < INFINITY && Close(seqno, s.seqno)
    ensures var s' := UpdateSource(s, seqno, metric, now);
            && AtLeastAsGood(s'.seqno, s'.metric, s.seqno, s.metric)
            && AtLeastAsGood(s'.seqno, s'.metric, seqno, metric)
            && ((s'.seqno, s'.metric) == (seqno, metric) || (s'.seqno, s'.metric) == (s.seqno, s.metric))
  {
    CloseCompare(s.seqno, seqno);
  }

  // ----- Selection keeps the invariant -----

  lemma {:induction false} BecameInv(fds: Fds, a: RouterId, r: Route, r': Route, now: int)
    requires RouteInv(fds, a, r) && Became(r, r', fds[a], now)
    requires InWindow(fds[a], r)
    requires !Stale(fds[a][r.src], now)
    ensures RouteInv(fds, a, r')
  {
    if r'.installed && !r.installed && r'.anchored {
      FeasibleIsBetter(fds[a][r.src], r.seqno, r.refmetric, now);
    }
  }

  predicate SlotWindowed(sources: Sources, slot: Slot) {
    forall i :: 0 <= i < |slot| ==> InWindow(sources, slot[i])
  }

  predicate NoneStale(sources: Sources, now: int) {
    forall id :: id in sources ==> !Stale(sources[id], now)
  }

  lemma {:induction false} ReselectedInv(fds: Fds, a: RouterId, slot: Slot, slot': Slot, now: int)
    requires a in fds && SlotInv(fds, a, slot) && NoneStale(fds[a], now)
    requires SlotWindowed(fds[a], slot)
    requires Reselected(slot, slot', fds[a], now)
    ensures SlotInv(fds, a, slot')
    ensures SlotWindowed(fds[a], slot')
  {
    forall k | 0 <= k < |slot'| ensures RouteInv(fds, a, slot'[k]) && InWindow(fds[a], slot'[k]) {
      assert From(slot'[k], slot, fds[a], now);
      var j :| 0 <= j < |slot| && Became(slot[j], slot'[k], fds[a], now);
      BecameInv(fds, a, slot[j], slot'[k], now);
    }
  }

  lemma {:induction false} WindowedBack(sources: Sources, slot: Slot, slot': Slot, s0: Sources, now: int)
    requires Reselected(slot, slot', s0, now) && SlotWindowed(sources, slot')
    ensures SlotWindowed(sources, slot)
  {
    forall j | 0 <= j < |slot| ensures InWindow(sources, slot[j]) {
      assert Into(slot[j], slot', s0, now);
      var k :| 0 <= k < |slot'| && Became(slot[j], slot'[k], s0, now);
    }
  }

  /** A selection step over a slot that meets the invariant. */
  lemma {:induction false} Selected(fds: Fds, a: RouterId, slot: Slot, slot': Slot, final: Sources, now: int)
    requires a in fds && SlotInv(fds, a, slot) && NoneStale(fds[a], now)
    requires Reselected(slot, slot', fds[a], now)
    requires SameDistances(fds[a], final) && SlotWindowed(final, slot')
    ensures SlotInv(fds, a, slot')
    ensures SlotWindowed(final, slot)
  {
    WindowedBack(final, slot, slot', fds[a], now);
    forall i | 0 <= i < |slot| ensures InWindow(fds[a], slot[i]) {
      assert InWindow(final, slot[i]);
    }
    ReselectedInv(fds, a, slot, slot', now);
  }

  lemma {:induction false} RewriteInv(fds: Fds, a: RouterId, r: Route, u: Update, cost: nat, add: nat, keep: bool,
                                      env: Env)
    requires RouteInv(fds, a, r) && u.id != a && u.id in fds[a] && cost >= 1
    requires u.neigh == r.neigh
    requires u.refmetric < INFINITY ==> Bounded(fds, u.neigh, u.id, u.seqno, u.refmetric)
    requires !Stale(fds[a][u.id], env.now)
    requires var feasible := UpdateFeasible(fds[a][u.id], u.seqno, u.refmetric, env.now);
             InWindow(fds[a], RewriteRoute(r, u, cost, add, feasible, keep, env))
    ensures var feasible := UpdateFeasible(fds[a][u.id], u.seqno, u.refmetric, env.now);
            RouteInv(fds, a, RewriteRoute(r, u, cost, add, feasible, keep, env))
  {
    if u.refmetric < INFINITY && Close(u.seqno, fds[a][u.id].seqno) {
      FeasibleIsBetter(fds[a][u.id], u.seqno, u.refmetric, env.now);
    }
  }

  lemma {:induction false} FindSourceSameDistances(sources: Sources, id: RouterId, seqno: nat, now: int)
    ensures SameDistances(sources, FindSource(sources, id, seqno, now))
    ensures id in FindSource(sources, id, seqno, now)
    ensures NoneStale(sources, now) ==> NoneStale(FindSource(sources, id, seqno, now), now)
  {}

  lemma {:induction false} CountsExtend(sources: Sources, a: RouterId, b: RouterId)
    requires a in sources
    ensures SameDistances(sources, RetainSource(sources, a))
    ensures SameDistances(sources, ReleaseSource(RetainSource(sources, a), b))
    ensures SameDistances(sources, ReleaseSource(sources, b))
  {}

  /** The invariant through the two selections that follow a rewritten route. */
  lemma {:induction false} RewrittenKeeps(fds: Fds, a: RouterId, slot: Slot, i: nat, u: Update, cost: nat, add: nat,
                                          keep: bool, env: Env,
                       slot2: Slot, slot3: Slot, final: Sources)
    requires a in fds && SlotInv(fds, a, slot) && SlotOk(slot) && i < |slot| && SameKey(slot[i], u.neigh, u.nexthop)
    requires u.id != a && u.id in fds[a] && cost >= 1
    requires u.refmetric < INFINITY ==> Bounded(fds, u.neigh, u.id, u.seqno, u.refmetric)
    requires NoneStale(fds[a], env.now) && SameDistances(fds[a], final) && SlotWindowed(final, slot3)
    requires var feasible := UpdateFeasible(fds[a][u.id], u.seqno, u.refmetric, env.now);
             var slot1 := slot[i := RewriteRoute(slot[i], u, cost, add, feasible, keep, env)];
             slot2 == RouteChanged(slot1, i, RouteMetric(slot[i]), fds[a], env)
    requires slot3 == slot2 || slot3 == RouteLost(slot2, fds[a], env)
    ensures SlotOk(slot3) && SlotInv(fds, a, slot3)
  {
    var feasible := UpdateFeasible(fds[a][u.id], u.seqno, u.refmetric, env.now);
    var w := RewriteRoute(slot[i], u, cost, add, feasible, keep, env);
    var slot1 := slot[i := w];
    OverwriteOk(slot, i, w);
    RouteChangedKeeps(slot1, i, RouteMetric(slot[i]), fds[a], env);
    if slot3 != slot2 {
      RouteLostKeeps(slot2, fds[a], env);
      WindowedBack(final, slot2, slot3, fds[a], env.now);
    }
    WindowedBack(final, slot1, slot2, fds[a], env.now);
    assert InWindow(final, slot1[i]);
    RewriteInv(fds, a, slot[i], u, cost, add, keep, env);
    SlotInvOverwrite(fds, a, slot, i, w);
    Selected(fds, a, slot1, slot2, final, env.now);
    if slot3 != slot2 {
      Selected(fds, a, slot2, slot3, final, env.now);
    }
  }

  /** update_route on a route the router already has. */
  lemma {:induction false} ReceiveKnown(fds: Fds, a: RouterId, rt: Router, u: Update, cost: nat, add: nat, keep: bool,
                                        env: Env)
    requires a in fds && fds[a] == rt.sources && SlotInv(fds, a, rt.slot) && SlotOk(rt.slot)
    requires u.id != a && add < INFINITY && cost >= 1
    requires FindRoute(rt.slot, u.neigh, u.nexthop) < |rt.slot|
    requires u.refmetric < INFINITY ==> Bounded(fds, u.neigh, u.id, u.seqno, u.refmetric)
    requires NoneStale(rt.sources, env.now)
    requires Windowed(UpdateRoute(rt, a, u, cost, add, keep, env))
    ensures var rt' := UpdateRoute(rt, a, u, cost, add, keep, env);
            SlotOk(rt'.slot) && SameDistances(rt.sources, rt'.sources) && SlotInv(fds[a := rt'.sources], a, rt'.slot)
  {
    var rt' := UpdateRoute(rt, a, u, cost, add, keep, env);
    var i := FindRoute(rt.slot, u.neigh, u.nexthop);
    var sources: Sources := FindSource(rt.sources, u.id, u.seqno, env.now);
    var feasible := UpdateFeasible(sources[u.id], u.seqno, u.refmetric, env.now);
    var slot1 := rt.slot[i := RewriteRoute(rt.slot[i], u, cost, add, feasible, keep, env)];
    var slot2 := RouteChanged(slot1, i, RouteMetric(rt.slot[i]), sources, env);
    FindSourceSameDistances(rt.sources, u.id, u.seqno, env.now);
    CountsExtend(sources, u.id, rt.slot[i].src);
    SlotInvExtends(fds, a, sources, a, rt.slot);
    var mid := fds[a := sources];
    if u.refmetric < INFINITY {
      BoundedExtends(fds, a, sources, u.neigh, u.id, u.seqno, u.refmetric);
    }
    RewrittenKeeps(mid, a, rt.slot, i, u, cost, add, keep, env, slot2, rt'.slot, rt'.sources);
    SlotInvExtends(mid, a, rt'.sources, a, rt'.slot);
    assert mid[a := rt'.sources] == fds[a := rt'.sources];
  }

  lemma {:induction false} SlotInvAppend(fds: Fds, a: RouterId, slot: Slot, n: Route)
    requires SlotInv(fds, a, slot) && RouteInv(fds, a, n)
    ensures SlotInv(fds, a, slot + [n])
  {}

  lemma {:induction false} SlotInvOverwrite(fds: Fds, a: RouterId, slot: Slot, i: nat, w: Route)
    requires SlotInv(fds, a, slot) && RouteInv(fds, a, w) && i < |slot|
    ensures SlotInv(fds, a, slot[i := w])
  {}

  lemma {:induction false} AppendedKeeps(fds: Fds, a: RouterId, slot: Slot, n: Route, slot': Slot, final: Sources,
                                         env: Env)
    requires a in fds && SlotInv(fds, a, slot) && SlotOk(slot) && RouteInv(fds, a, n)
    requires FindRoute(slot, n.neigh, n.nexthop) == |slot| && !n.installed && !n.anchored
    requires NoneStale(fds[a], env.now) && SameDistances(fds[a], final) && SlotWindowed(final, slot')
    requires slot' == ConsiderRoute(slot + [n], |slot|, fds[a], env)
    ensures SlotOk(slot') && SlotInv(fds, a, slot')
  {
    AppendOk(slot, n);
    ConsiderKeeps(slot + [n], |slot|, fds[a], env);
    SlotInvAppend(fds, a, slot, n);
    Selected(fds, a, slot + [n], slot', final, env.now);
  }

  /** update_route when the router has no route through that neighbour. */
  lemma {:induction false} ReceiveNew(fds: Fds, a: RouterId, rt: Router, u: Update, cost: nat, add: nat, keep: bool,
                                      env: Env)
    requires a in fds && fds[a] == rt.sources && SlotInv(fds, a, rt.slot) && SlotOk(rt.slot)
    requires u.id != a && add < INFINITY && cost >= 1
    requires FindRoute(rt.slot, u.neigh, u.nexthop) == |rt.slot|
    requires u.refmetric < INFINITY ==> Bounded(fds, u.neigh, u.id, u.seqno, u.refmetric)
    requires NoneStale(rt.sources, env.now)
    requires Windowed(UpdateRoute(rt, a, u, cost, add, keep, env))
    ensures var rt' := UpdateRoute(rt, a, u, cost, add, keep, env);
            SlotOk(rt'.slot) && SameDistances(rt.sources, rt'.sources) && SlotInv(fds[a := rt'.sources], a, rt'.slot)
  {
    var rt' := UpdateRoute(rt, a, u, cost, add, keep, env);
    var sources: Sources := FindSource(rt.sources, u.id, u.seqno, env.now);
    FindSourceSameDistances(rt.sources, u.id, u.seqno, env.now);
    CountsExtend(sources, u.id, u.id);
    var mid := fds[a := sources];
    SlotInvExtends(fds, a, sources, a, rt.slot);
    if rt'.slot != rt.slot {
      BoundedExtends(fds, a, sources, u.neigh, u.id, u.seqno, u.refmetric);
      AppendedKeeps(mid, a, rt.slot, NewRoute(u, cost, add, env.now), rt'.slot, rt'.sources, env);
    }
    SlotInvExtends(mid, a, rt'.sources, a, rt'.slot);
    assert mid[a := rt'.sources] == fds[a := rt'.sources];
  }

  /** Changing one route's metric and then reselecting. */
  lemma {:induction false} ChangedKeeps(fds: Fds, a: RouterId, rt: Router, i: nat, w: Route, oldMetric: nat,
                                        slot': Slot, env: Env)
    requires a in fds && fds[a] == rt.sources && SlotInv(fds, a, rt.slot) && SlotOk(rt.slot)
    requires i < |rt.slot| && RouteInv(fds, a, w)
    requires SameKey(w, rt.slot[i].neigh, rt.slot[i].nexthop)
    requires w.installed == rt.slot[i].installed && (w.anchored ==> w.installed)
    requires slot' == RouteChanged(rt.slot[i := w], i, oldMetric, rt.sources, env) || slot' == rt.slot[i := w]
    requires NoneStale(rt.sources, env.now) && SlotWindowed(rt.sources, slot')
    ensures SlotOk(slot') && SlotInv(fds, a, slot')
  {
    var slot1 := rt.slot[i := w];
    OverwriteOk(rt.slot, i, w);
    assert SlotInv(fds, a, slot1);
    if slot' != slot1 {
      RouteChangedKeeps(slot1, i, oldMetric, rt.sources, env);
      Selected(fds, a, slot1, slot', rt.sources, env.now);
    }
  }

  lemma {:induction false} FlushKeeps(fds: Fds, a: RouterId, rt: Router, i: nat, env: Env)
    requires a in fds && fds[a] == rt.sources && SlotInv(fds, a, rt.slot) && SlotOk(rt.slot)
    requires i < |rt.slot| && NoneStale(rt.sources, env.now) && Windowed(rt)
    ensures var rt' := FlushRoute(rt, i, env);
            SlotOk(rt'.slot) && SameDistances(rt.sources, rt'.sources) && SlotInv(fds[a := rt'.sources], a, rt'.slot)
  {
    var rt' := FlushRoute(rt, i, env);
    var slot1 := Removed(rt.slot, i);
    RemoveOk(rt.slot, i);
    assert SlotInv(fds, a, slot1);
    assert SlotWindowed(rt.sources, slot1);
    RouteLostKeeps(slot1, rt.sources, env);
    if rt'.slot != slot1 {
      ReselectedInv(fds, a, slot1, rt'.slot, env.now);
    }
    var id := rt.slot[i].src;
    assert RouteInv(fds, a, rt.slot[i]);
    CountsExtend(rt.sources, id, id);
    SlotInvExtends(fds, a, rt'.sources, a, rt'.slot);
  }

  // ----- Every step keeps the invariant -----

  /** A router's move that keeps every distance it had. */
  lemma {:induction false} LocalMove(net: Net, s: Step)
    requires Inv(net) && Proper(net, s) && !s.Announce?
    ensures var rt' := Moved(net, s);
            && SlotOk(rt'.slot)
            && SameDistances(net.routers[s.at].sources, rt'.sources)
            && SlotInv(FdsOf(net)[s.at := rt'.sources], s.at, rt'.slot)
  {
    var fds := FdsOf(net);
    var rt := net.routers[s.at];
    assert fds[s.at := rt.sources] == fds;
    assert SlotInv(fds, s.at, rt.slot);
    match s {
      case Receive(at, m, nexthop, interval, cost, add, keep, env) =>
        var u := AsUpdate(m, nexthop, interval);
        if u.id != at && add < INFINITY {
          assert MsgInv(fds, m);
          if FindRoute(rt.slot, u.neigh, u.nexthop) < |rt.slot| {
            ReceiveKnown(fds, at, rt, u, cost, add, keep, env);
          } else {
            ReceiveNew(fds, at, rt, u, cost, add, keep, env);
          }
        }
      case Originate(_, _, _) =>
      case Refresh(at, i, cost, add, env) =>
        RefreshKeeps(fds, at, rt, i, cost, add, env);
      case Retract(at, i, env) =>
        RetractKeeps(fds, at, rt, i, env);
      case Flush(at, i, env) =>
        FlushKeeps(fds, at, rt, i, env);
      case Yield(at) =>
        var w := Uninstalled(rt.slot[0]);
        OverwriteOk(rt.slot, 0, w);
        SlotInvOverwrite(fds, at, rt.slot, 0, w);
    }
  }

  lemma {:induction false} RefreshKeeps(fds: Fds, a: RouterId, rt: Router, i: nat, cost: nat, add: nat, env: Env)
    requires a in fds && fds[a] == rt.sources && SlotInv(fds, a, rt.slot) && SlotOk(rt.slot)
    requires i < |rt.slot| && cost >= 1 && NoneStale(rt.sources, env.now)
    requires Windowed(UpdateRouteMetric(rt, i, cost, add, env))
    ensures var rt' := UpdateRouteMetric(rt, i, cost, add, env);
            rt'.sources == rt.sources && SlotOk(rt'.slot) && SlotInv(fds, a, rt'.slot)
  {
    var rt' := UpdateRouteMetric(rt, i, cost, add, env);
    var r := rt.slot[i];
    assert RouteInv(fds, a, r);
    if RouteExpired(r, env.now) {
      if r.refmetric < INFINITY {
        var w := ExpireRoute(r, rt.sources, env);
        ChangedKeeps(fds, a, rt, i, w, RouteMetric(r), rt'.slot, env);
      }
    } else {
      var w := ChangeRouteMetric(r, r.refmetric, cost, add, env);
      ChangedKeeps(fds, a, rt, i, w, RouteMetric(r), rt'.slot, env);
    }
  }

  lemma {:induction false} RetractKeeps(fds: Fds, a: RouterId, rt: Router, i: nat, env: Env)
    requires a in fds && fds[a] == rt.sources && SlotInv(fds, a, rt.slot) && SlotOk(rt.slot)
    requires i < |rt.slot| && NoneStale(rt.sources, env.now)
    requires Windowed(RetractRoute(rt, i, env))
    ensures var rt' := RetractRoute(rt, i, env);
            rt'.sources == rt.sources && SlotOk(rt'.slot) && SlotInv(fds, a, rt'.slot)
  {
    var r := rt.slot[i];
    assert RouteInv(fds, a, r);
    if r.refmetric != INFINITY {
      var w := ChangeRouteMetric(r, INFINITY, INFINITY, 0, env);
      ChangedKeeps(fds, a, rt, i, w, RouteMetric(r), RetractRoute(rt, i, env).slot, env);
    }
  }

  /** Every router's distances are kept or improved by an announcement. */
  predicate Improves(s: Sources, s': Sources) {
    forall id :: id in s ==> id in s' && AtLeastAsGood(s'[id].seqno, s'[id].metric, s[id].seqno, s[id].metric)
  }

  lemma {:induction false} BoundedImproves(fds: Fds, a: RouterId, s': Sources, b: RouterId, id: RouterId, n: nat,
                                           m: nat)
    requires a in fds && Improves(fds[a], s') && Bounded(fds, b, id, n, m)
    ensures Bounded(fds[a := s'], b, id, n, m)
  {}

  lemma {:induction false} OthersImprove(fds: Fds, a: RouterId, s': Sources, c: RouterId, slot: Slot)
    requires a in fds && Improves(fds[a], s') && SlotInv(fds, c, slot) && c != a
    ensures SlotInv(fds[a := s'], c, slot)
  {
    forall i | 0 <= i < |slot| ensures RouteInv(fds[a := s'], c, slot[i]) {
      assert RouteInv(fds, c, slot[i]);
    }
  }

  /** What flushupdates announces is strictly worse than what it heard. */
  lemma {:induction false} AnnouncedIsLonger(r: Route, interferes: bool, factor: nat)
    requires r.cost >= 1
    ensures var m := AnnouncedMetric(r, interferes, factor);
            m <= INFINITY && (m < INFINITY ==> r.refmetric < m)
  {}

  lemma {:induction false} AnnounceKeeps(fds: Fds, a: RouterId, rt: Router, metric: nat, now: int)
    requires a in fds && fds[a] == rt.sources && SlotInv(fds, a, rt.slot) && SlotOk(rt.slot)
    requires rt.slot != [] && rt.slot[0].installed && NoneStale(rt.sources, now)
    requires metric < INFINITY ==> rt.slot[0].refmetric < metric
    requires InWindow(rt.sources, rt.slot[0])
    ensures var r := rt.slot[0];
            && r.src in rt.sources
            && var s' := rt.sources[r.src := UpdateSource(rt.sources[r.src], r.seqno, metric, now)];
            && Improves(rt.sources, s')
            && SlotInv(fds[a := s'], a, rt.slot)
            && (metric < INFINITY ==> Bounded(fds[a := s'], a, r.src, r.seqno, metric))
  {
    var r := rt.slot[0];
    assert RouteInv(fds, a, r);
    if metric < INFINITY {
      UpdateSourceIsMin(rt.sources[r.src], r.seqno, metric, now);
    }
    var s' := rt.sources[r.src := UpdateSource(rt.sources[r.src], r.seqno, metric, now)];
    forall i | 0 <= i < |rt.slot| ensures RouteInv(fds[a := s'], a, rt.slot[i]) {
      assert RouteInv(fds, a, rt.slot[i]);
    }
  }

  /** Any proper step keeps the invariant. */
  lemma {:induction false} StepKeepsInv(net: Net, s: Step)
    requires Inv(net) && Proper(net, s)
    ensures Inv(Apply(net, s))
  {
    var fds := FdsOf(net);
    var a := s.at;
    var rt := net.routers[a];
    var rt' := Moved(net, s);
    var net' := Apply(net, s);
    assert FdsOf(net') == fds[a := rt'.sources];
    assert SlotInv(fds, a, rt.slot);
    if s.Announce? {
      var r := rt.slot[0];
      assert RouteInv(fds, a, r);
      AnnouncedIsLonger(r, s.interferes, s.factor);
      AnnounceKeeps(fds, a, rt, AnnouncedMetric(r, s.interferes, s.factor), s.env.now);
    } else {
      LocalMove(net, s);
    }
    forall m | m in net'.sent ensures MsgInv(FdsOf(net'), m) {
      if m in net.sent {
        assert MsgInv(fds, m);
        if m.metric < INFINITY {
          BoundedImproves(fds, a, rt'.sources, m.from, m.id, m.seqno, m.metric);
        }
      }
    }
    forall c | c in net'.routers ensures SlotInv(FdsOf(net'), c, net'.routers[c].slot) {
      if c != a {
        OthersImprove(fds, a, rt'.sources, c, net.routers[c].slot);
      }
    }
  }

  lemma {:induction false} RunKeepsInv(net: Net, steps: seq<Step>)
    requires Inv(net) && Runs(net, steps)
    ensures Inv(Exec(net, steps))
    decreases |steps|
  {
    if steps != [] {
      StepKeepsInv(net, steps[0]);
      RunKeepsInv(Apply(net, steps[0]), steps[1..]);
    }
  }

  // ----- Loops -----

  predicate Forwards(r: Route, id: RouterId, b: RouterId) {
    r.installed && r.src == id && r.neigh == b && r.refmetric < INFINITY
  }

  /** Router a forwards the source's traffic to router b. */
  predicate Hop(net: Net, id: RouterId, a: RouterId, b: RouterId) {
    a in net.routers && exists i :: 0 <= i < |net.routers[a].slot| && Forwards(net.routers[a].slot[i], id, b)
  }

  predicate Loop(net: Net, id: RouterId, path: seq<RouterId>) {
    && |path| >= 2
    && path[0] == path[|path| - 1]
    && forall i :: 0 <= i < |path| - 1 ==> Hop(net, id, path[i], path[i + 1])
  }

  /** Every finite distance was heard from the neighbour, and every route that
      forwards is anchored. */
  predicate GoodRoute(r: Route) {
    r.refmetric < INFINITY ==> r.heard && (r.installed ==> r.anchored)
  }

  predicate GoodSlot(slot: Slot) {
    forall i :: 0 <= i < |slot| ==> GoodRoute(slot[i])
  }

  predicate AllAnchored(net: Net) {
    forall a :: a in net.routers ==> GoodSlot(net.routers[a].slot)
  }

  /** Along an anchored hop the feasibility distance strictly improves. */
  lemma {:induction false} HopDescends(net: Net, id: RouterId, a: RouterId, b: RouterId)
    requires Inv(net) && AllAnchored(net) && Hop(net, id, a, b)
    ensures a != id && Below(FdsOf(net), b, a, id) && id in net.routers[a].sources
  {
    var i :| 0 <= i < |net.routers[a].slot| && Forwards(net.routers[a].slot[i], id, b);
    assert SlotInv(FdsOf(net), a, net.routers[a].slot);
    assert RouteInv(FdsOf(net), a, net.routers[a].slot[i]);
    assert GoodSlot(net.routers[a].slot);
  }

  lemma {:induction false} PathDescends(net: Net, id: RouterId, path: seq<RouterId>)
    requires Inv(net) && AllAnchored(net) && |path| >= 2
    requires forall i :: 0 <= i < |path| - 1 ==> Hop(net, id, path[i], path[i + 1])
    ensures path[0] != id && Below(FdsOf(net), path[|path| - 1], path[0], id)
    decreases |path|
  {
    HopDescends(net, id, path[0], path[1]);
    if |path| > 2 {
      var rest := path[1..];
      forall i | 0 <= i < |rest| - 1 ensures Hop(net, id, rest[i], rest[i + 1]) {
        assert Hop(net, id, path[i + 1], path[i + 2]);
      }
      PathDescends(net, id, rest);
    }
  }

  /** No forwarding loop for one source among anchored routes. */
  lemma {:induction false} NoLoop(net: Net, id: RouterId, path: seq<RouterId>)
    requires Inv(net) && AllAnchored(net)
    ensures !Loop(net, id, path)
  {
    if Loop(net, id, path) {
      PathDescends(net, id, path);
    }
  }

  // ----- When loop-freedom holds of the code -----

  /** update_route past its early returns, on the route it already has. */
  predicate Rewrites(net: Net, s: Step)
    requires Enabled(net, s)
  {
    && s.Receive? && s.m.id != s.at && s.add < INFINITY
    && FindRoute(net.routers[s.at].slot, s.m.from, s.nexthop) < |net.routers[s.at].slot|
  }

  function Rewritten(net: Net, s: Step): Route
    requires Enabled(net, s) && Rewrites(net, s)
  {
    var rt := net.routers[s.at];
    rt.slot[FindRoute(rt.slot, s.m.from, s.nexthop)]
  }

  function FeasibleAt(net: Net, s: Step): bool
    requires Enabled(net, s) && s.Receive?
  {
    var sources := FindSource(net.routers[s.at].sources, s.m.id, s.m.seqno, s.env.now);
    UpdateFeasible(sources[s.m.id], s.m.seqno, s.m.metric, s.env.now)
  }

  /** The first kind of step that can break it: a finite update that fails the
      feasibility test reaches, from the same source, a route that is installed
      while it has had no finite feasible distance since installation (it was
      installed as a retracted route).  update_route then stores the unfeasible
      distance and leaves the route installed. */
  predicate RevivesRetracted(net: Net, s: Step)
    requires Enabled(net, s)
  {
    Rewrites(net, s) &&
    var r := Rewritten(net, s);
    && r.installed && !r.anchored && r.src == s.m.id && s.m.metric < INFINITY && !FeasibleAt(net, s)
    && !MetricRefused(r, s.m.metric, s.cost, s.add, s.env)
  }

  /** The second kind: the kernel refuses the change of an installed route's
      metric, and the route keeps its finite metric under a newer seqno or
      another source, a distance nobody announced. */
  predicate Mislabels(net: Net, s: Step)
    requires Enabled(net, s)
  {
    || (Rewrites(net, s) &&
        var r := Rewritten(net, s);
        && (FeasibleAt(net, s) || s.m.id == r.src)
        && MetricRefused(r, s.m.metric, s.cost, s.add, s.env)
        && r.refmetric < INFINITY && (s.m.id != r.src || s.m.seqno > r.seqno))
    || (s.Refresh? &&
        var rt := net.routers[s.at];
        var r := rt.slot[s.i];
        && RouteExpired(r, s.env.now) && r.refmetric < INFINITY && MetricRefused(r, INFINITY, INFINITY, 0, s.env)
        && r.src in rt.sources && rt.sources[r.src].seqno + 1 > r.seqno)
  }

  predicate Breaks(net: Net, s: Step)
    requires Enabled(net, s)
  {
    RevivesRetracted(net, s) || Mislabels(net, s)
  }

  lemma {:induction false} ReselectedGood(slot: Slot, slot': Slot, sources: Sources, now: int)
    requires Reselected(slot, slot', sources, now)
    ensures GoodSlot(slot) ==> GoodSlot(slot')
  {
    if GoodSlot(slot) {
      forall k | 0 <= k < |slot'| ensures GoodRoute(slot'[k]) {
        assert From(slot'[k], slot, sources, now);
      }
    }
  }

  /** Selection cannot mend a distance nobody announced. */
  lemma {:induction false} UnheardStays(slot: Slot, slot': Slot, sources: Sources, now: int, i: nat)
    requires Reselected(slot, slot', sources, now) && i < |slot| && slot[i].refmetric < INFINITY && !slot[i].heard
    ensures exists k :: 0 <= k < |slot'| && slot'[k].refmetric < INFINITY && !slot'[k].heard
    ensures !GoodSlot(slot')
  {
    assert Into(slot[i], slot', sources, now);
    var k :| 0 <= k < |slot'| && Became(slot[i], slot'[k], sources, now);
    assert !GoodRoute(slot'[k]);
  }

  lemma {:induction false} OverwriteGood(slot: Slot, i: nat, w: Route)
    requires GoodSlot(slot) && i < |slot| && GoodRoute(w)
    ensures GoodSlot(slot[i := w])
  {}

  /** A route changed and the slot reselected: good exactly when the changed
      route is, as far as having been heard goes. */
  lemma {:induction false} ChangedGood(slot: Slot, i: nat, w: Route, oldMetric: nat, sources: Sources, env: Env)
    requires SlotOk(slot) && GoodSlot(slot) && i < |slot| && SameKey(w, slot[i].neigh, slot[i].nexthop)
    requires (w.installed ==> slot[i].installed) && (w.anchored ==> w.installed)
    ensures var slot' := RouteChanged(slot[i := w], i, oldMetric, sources, env);
            && (GoodRoute(w) ==> GoodSlot(slot[i := w]) && GoodSlot(slot'))
            && (w.refmetric < INFINITY && !w.heard ==> !GoodSlot(slot[i := w]) && !GoodSlot(slot'))
  {
    var slot1 := slot[i := w];
    OverwriteOk(slot, i, w);
    RouteChangedKeeps(slot1, i, oldMetric, sources, env);
    ReselectedGood(slot1, RouteChanged(slot1, i, oldMetric, sources, env), sources, env.now);
    if w.refmetric < INFINITY && !w.heard {
      assert !GoodRoute(slot1[i]);
      UnheardStays(slot1, RouteChanged(slot1, i, oldMetric, sources, env), sources, env.now, i);
    }
  }

  /** When the route update_route has rewritten is good. */
  lemma {:induction false} RewriteGood(r: Route, u: Update, cost: nat, add: nat, feasible: bool, keep: bool, env: Env)
    requires GoodRoute(r) && (r.anchored ==> r.installed)
    ensures var w := RewriteRoute(r, u, cost, add, feasible, keep, env);
            var stays := feasible || u.id == r.src;
            var refused := stays && MetricRefused(r, u.refmetric, cost, add, env);
            && (refused && r.refmetric < INFINITY && (u.id != r.src || u.seqno > r.seqno) <==>
              w.refmetric < INFINITY && !w.heard)
            && (GoodRoute(w) || (w.refmetric < INFINITY && !w.heard)
                <==> !(r.installed && !r.anchored && u.id == r.src && u.refmetric < INFINITY && !feasible && !refused))
  {}

  lemma {:induction false} ReceiveGood(rt: Router, a: RouterId, u: Update, cost: nat, add: nat, keep: bool, env: Env)
    requires SlotOk(rt.slot) && GoodSlot(rt.slot) && u.id != a && add < INFINITY
    ensures var rt' := UpdateRoute(rt, a, u, cost, add, keep, env);
            var i := FindRoute(rt.slot, u.neigh, u.nexthop);
            var sources := FindSource(rt.sources, u.id, u.seqno, env.now);
            var feasible := UpdateFeasible(sources[u.id], u.seqno, u.refmetric, env.now);
            && (i == |rt.slot| ==> GoodSlot(rt'.slot))
            && (i < |rt.slot| ==>
                  var w := RewriteRoute(rt.slot[i], u, cost, add, feasible, keep, env);
                  && (GoodRoute(w) ==> GoodSlot(rt'.slot))
                  && (w.refmetric < INFINITY && !w.heard ==> !GoodSlot(rt'.slot)))
  {
    var i := FindRoute(rt.slot, u.neigh, u.nexthop);
    var sources := FindSource(rt.sources, u.id, u.seqno, env.now);
    var feasible := UpdateFeasible(sources[u.id], u.seqno, u.refmetric, env.now);
    if i < |rt.slot| {
      KnownGood(Router(sources, rt.slot), i, u, cost, add, feasible, keep, env);
    } else if u.refmetric < INFINITY && (feasible || keep) {
      var n := NewRoute(u, cost, add, env.now);
      AppendOk(rt.slot, n);
      ConsiderKeeps(rt.slot + [n], |rt.slot|, sources, env);
      ReselectedGood(rt.slot + [n], ConsiderRoute(rt.slot + [n], |rt.slot|, sources, env), sources, env.now);
    }
  }

  lemma {:induction false} KnownGood(rt: Router, i: nat, u: Update, cost: nat, add: nat, feasible: bool, keep: bool,
                                     env: Env)
    requires SlotOk(rt.slot) && GoodSlot(rt.slot) && i < |rt.slot| && u.id in rt.sources
    requires SameKey(rt.slot[i], u.neigh, u.nexthop)
    ensures var w := RewriteRoute(rt.slot[i], u, cost, add, feasible, keep, env);
            var slot' := UpdateKnown(rt, i, u, cost, add, feasible, keep, env).slot;
            && (GoodRoute(w) ==> GoodSlot(slot'))
            && (w.refmetric < INFINITY && !w.heard ==> !GoodSlot(slot'))
  {
    var r := rt.slot[i];
    var w := RewriteRoute(r, u, cost, add, feasible, keep, env);
    var slot1 := rt.slot[i := w];
    ChangedGood(rt.slot, i, w, RouteMetric(r), rt.sources, env);
    if !feasible && r.installed && u.id != r.src {
      OverwriteOk(rt.slot, i, w);
      RouteChangedKeeps(slot1, i, RouteMetric(r), rt.sources, env);
      var slot2 := RouteChanged(slot1, i, RouteMetric(r), rt.sources, env);
      RouteLostKeeps(slot2, rt.sources, env);
      ReselectedGood(slot2, RouteLost(slot2, rt.sources, env), rt.sources, env.now);
    }
  }

  /** The revived route stays at the head, installed, finite and unanchored. */
  lemma {:induction false} RevivedIsBad(rt: Router, a: RouterId, u: Update, cost: nat, add: nat, keep: bool, env: Env)
    requires SlotOk(rt.slot) && GoodSlot(rt.slot) && u.id != a && add < INFINITY && u.refmetric < INFINITY
    requires var i := FindRoute(rt.slot, u.neigh, u.nexthop);
             && i < |rt.slot| && rt.slot[i].installed && rt.slot[i].src == u.id && !rt.slot[i].anchored
             && !MetricRefused(rt.slot[i], u.refmetric, cost, add, env)
    requires u.id in rt.sources && !UpdateFeasible(rt.sources[u.id], u.seqno, u.refmetric, env.now)
    ensures !GoodSlot(UpdateRoute(rt, a, u, cost, add, keep, env).slot)
  {
    var i := FindRoute(rt.slot, u.neigh, u.nexthop);
    var w := RewriteRoute(rt.slot[i], u, cost, add, false, keep, env);
    assert GoodRoute(rt.slot[i]);
    assert RouteMetric(rt.slot[i]) == INFINITY;
    var slot1 := rt.slot[i := w];
    assert RouteChanged(slot1, i, INFINITY, rt.sources, env) == slot1;
    assert UpdateRoute(rt, a, u, cost, add, keep, env).slot == slot1;
    assert !GoodRoute(slot1[i]);
  }

  lemma {:induction false} ReceiveExactly(net: Net, s: Step)
    requires Inv(net) && Enabled(net, s) && s.Receive? && GoodSlot(net.routers[s.at].slot)
    ensures GoodSlot(Moved(net, s).slot) <==> !Breaks(net, s)
  {
    var rt := net.routers[s.at];
    var u := AsUpdate(s.m, s.nexthop, s.interval);
    assert SlotOk(rt.slot);
    if u.id != s.at && s.add < INFINITY {
      ReceiveGood(rt, s.at, u, s.cost, s.add, s.keepUnfeasible, s.env);
      var i := FindRoute(rt.slot, u.neigh, u.nexthop);
      if i < |rt.slot| {
        assert SlotInv(FdsOf(net), s.at, rt.slot);
        assert RouteInv(FdsOf(net), s.at, rt.slot[i]);
        RewriteGood(rt.slot[i], u, s.cost, s.add, FeasibleAt(net, s), s.keepUnfeasible, s.env);
        if RevivesRetracted(net, s) {
          RevivedIsBad(rt, s.at, u, s.cost, s.add, s.keepUnfeasible, s.env);
        }
      }
    }
  }

  lemma {:induction false} RefreshExactly(rt: Router, i: nat, cost: nat, add: nat, env: Env)
    requires SlotOk(rt.slot) && GoodSlot(rt.slot) && i < |rt.slot| && rt.slot[i].src in rt.sources
    ensures GoodSlot(UpdateRouteMetric(rt, i, cost, add, env).slot) <==>
              var r := rt.slot[i];
              !(RouteExpired(r, env.now) && r.refmetric < INFINITY && MetricRefused(r, INFINITY, INFINITY, 0, env)
                && rt.sources[r.src].seqno + 1 > r.seqno)
  {
    var r := rt.slot[i];
    assert GoodRoute(r);
    if RouteExpired(r, env.now) {
      ChangedGood(rt.slot, i, ExpireRoute(r, rt.sources, env), RouteMetric(r), rt.sources, env);
    } else {
      ChangedGood(rt.slot, i, ChangeRouteMetric(r, r.refmetric, cost, add, env), RouteMetric(r), rt.sources, env);
    }
  }

  lemma {:induction false} RetractGood(rt: Router, i: nat, env: Env)
    requires SlotOk(rt.slot) && GoodSlot(rt.slot) && i < |rt.slot|
    ensures GoodSlot(RetractRoute(rt, i, env).slot)
  {
    var r := rt.slot[i];
    assert GoodRoute(r);
    ChangedGood(rt.slot, i, ChangeRouteMetric(r, INFINITY, INFINITY, 0, env), RouteMetric(r), rt.sources, env);
  }

  lemma {:induction false} FlushGood(rt: Router, i: nat, env: Env)
    requires SlotOk(rt.slot) && GoodSlot(rt.slot) && i < |rt.slot|
    ensures GoodSlot(FlushRoute(rt, i, env).slot)
  {
    var slot1 := Removed(rt.slot, i);
    RemoveOk(rt.slot, i);
    assert GoodSlot(slot1);
    RouteLostKeeps(slot1, rt.sources, env);
    ReselectedGood(slot1, RouteLost(slot1, rt.sources, env), rt.sources, env.now);
  }

  lemma {:induction false} MovedExactly(net: Net, s: Step)
    requires Inv(net) && Enabled(net, s) && GoodSlot(net.routers[s.at].slot)
    ensures GoodSlot(Moved(net, s).slot) <==> !Breaks(net, s)
  {
    var rt := net.routers[s.at];
    assert SlotOk(rt.slot);
    match s {
      case Receive(_, _, _, _, _, _, _, _) => ReceiveExactly(net, s);
      case Refresh(_, i, cost, add, env) =>
        assert RouteInv(FdsOf(net), s.at, rt.slot[i]);
        RefreshExactly(rt, i, cost, add, env);
      case Retract(_, i, env) => RetractGood(rt, i, env);
      case Flush(_, i, env) => FlushGood(rt, i, env);
      case Yield(_) =>
        assert GoodRoute(rt.slot[0]);
        OverwriteGood(rt.slot, 0, Uninstalled(rt.slot[0]));
      case _ =>
    }
  }

  /** A step leaves every forwarding route anchored, and every finite distance
      one that was heard, exactly when it is of neither of those kinds. */
  lemma {:induction false} AnchoredExactly(net: Net, s: Step)
    requires Inv(net) && Proper(net, s) && AllAnchored(net)
    ensures AllAnchored(Apply(net, s)) <==> !Breaks(net, s)
  {
    MovedExactly(net, s);
    var net' := Apply(net, s);
    assert net'.routers[s.at] == Moved(net, s);
    if GoodSlot(Moved(net, s).slot) {
      forall c | c in net'.routers ensures GoodSlot(net'.routers[c].slot) {}
    }
  }

  predicate NeverBreaks(net: Net, steps: seq<Step>)
    requires Runs(net, steps)
    decreases |steps|
  {
    steps == [] || (!Breaks(net, steps[0]) && NeverBreaks(Apply(net, steps[0]), steps[1..]))
  }

  predicate AnchoredThroughout(net: Net, steps: seq<Step>)
    requires Runs(net, steps)
    decreases |steps|
  {
    AllAnchored(net) && (steps == [] || AnchoredThroughout(Apply(net, steps[0]), steps[1..]))
  }

  /** Over a whole run: all forwarding routes stay anchored if and only if no
      step of the run is of those kinds. */
  lemma {:induction false} AnchoredThroughoutExactly(net: Net, steps: seq<Step>)
    requires Inv(net) && Runs(net, steps) && AllAnchored(net)
    ensures AnchoredThroughout(net, steps) <==> NeverBreaks(net, steps)
    ensures NeverBreaks(net, steps) ==> AllAnchored(Exec(net, steps))
    decreases |steps|
  {
    if steps != [] {
      StepKeepsInv(net, steps[0]);
      AnchoredExactly(net, steps[0]);
      if !Breaks(net, steps[0]) {
        AnchoredThroughoutExactly(Apply(net, steps[0]), steps[1..]);
      }
    }
  }

  /** Loop-freedom: in every state of every run from empty tables in which no
      such step occurs, no source has a forwarding loop. */
  lemma {:induction false} LoopFreedom(net: Net, steps: seq<Step>, id: RouterId, path: seq<RouterId>)
    requires Initial(net) && Runs(net, steps) && NeverBreaks(net, steps)
    ensures !Loop(Exec(net, steps), id, path)
  {
    assert Inv(net) && AllAnchored(net);
    RunKeepsInv(net, steps);
    AnchoredThroughoutExactly(net, steps);
    NoLoop(Exec(net, steps), id, path);
  }
}
