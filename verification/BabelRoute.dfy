/** Route selection of babeld for one prefix: the slot of routes to the prefix,
    the feasibility distances of its sources, and the operations of route.c and
    source.c that change them. */
module BabelRoute {
  import opened BabelSeqno

  const INFINITY: nat := 0xFFFF
  const SOURCE_GC_TIME := 200

  type RouterId = nat

  /** struct source.  (seqno, metric) is the feasibility distance. */
  datatype Source = Source(seqno: nat, metric: nat, time: int, routeCount: nat)

  /** struct babel_route, with two history variables no operation reads.
      `heard`: the distance the route holds is no better than one its neighbour
      announced; it is lost when the kernel refuses a change of metric and the
      route keeps an old metric under a newer seqno or another source.
      `anchored`: the route is installed and, since it was installed, its
      distance has been finite and feasible at least once. */
  datatype Route = Route(
    src: RouterId, seqno: nat, refmetric: nat, cost: nat, addMetric: nat,
    neigh: RouterId, nexthop: nat, time: int, holdTime: int,
    installed: bool, anchored: bool, heard: bool)

  type Sources = map<RouterId, Source>
  type Slot = seq<Route>

  /** One router's state for the prefix. */
  datatype Router = Router(sources: Sources, slot: Slot)

  /** What the code reads from its surroundings during one operation: the
      clock, whether an exported route takes precedence (find_xroute), and the
      kernel's answers to a metric change and to an installation. */
  datatype Env = Env(now: int, xrouteWins: bool, metricOk: bool, installOk: bool)

  /** An update as parse_packet hands it to update_route. */
  datatype Update = Update(id: RouterId, seqno: nat, refmetric: nat, interval: nat,
                           neigh: RouterId, nexthop: nat)

  function Min(a: int, b: int): int { if a < b then a else b }
  function Max(a: int, b: int): int { if a > b then a else b }

  /** route_metric. */
  function RouteMetric(r: Route): nat {
    Min(r.refmetric + r.cost + r.addMetric, INFINITY)
  }

  /** route_metric_noninterfering. */
  function RouteMetricNoninterfering(r: Route, diversityFactor: nat): nat {
    Min(Max(r.refmetric + (diversityFactor * r.cost + 128) / 256 + r.addMetric, r.refmetric + 1), INFINITY)
  }

  predicate Stale(s: Source, now: int) {
    s.time < now - SOURCE_GC_TIME
  }

  /** update_feasible, on the 16-bit images of the sequence numbers. */
  predicate UpdateFeasible(s: Source, seqno: nat, refmetric: nat, now: int) {
    || Stale(s, now)
    || refmetric >= INFINITY
    || Compare(Wire(seqno), Wire(s.seqno)) > 0
    || (Wire(s.seqno) == Wire(seqno) && refmetric < s.metric)
  }

  /** update_source. */
  function UpdateSource(s: Source, seqno: nat, metric: nat, now: int): Source {
    if metric >= INFINITY then s
    else if || Stale(s, now)
            || Compare(Wire(s.seqno), Wire(seqno)) < 0
            || (Wire(s.seqno) == Wire(seqno) && s.metric > metric)
    then s.(seqno := seqno, metric := metric, time := now)
    else s.(time := now)
  }

  /** The source entry find_source creates. */
  function NewSource(seqno: nat, now: int): Source {
    Source(seqno, INFINITY, now, 0)
  }

  predicate RouteFeasible(sources: Sources, r: Route, now: int) {
    r.src in sources ==> UpdateFeasible(sources[r.src], r.seqno, r.refmetric, now)
  }

  predicate RouteExpired(r: Route, now: int) {
    r.time < now - r.holdTime
  }

  predicate SameKey(r: Route, neigh: RouterId, nexthop: nat) {
    r.neigh == neigh && r.nexthop == nexthop
  }

  /** find_route within the slot; the length of the slot when there is none. */
  function FindRoute(slot: Slot, neigh: RouterId, nexthop: nat): (i: nat)
    ensures i <= |slot|
    ensures i < |slot| ==> SameKey(slot[i], neigh, nexthop)
    ensures forall j :: 0 <= j < i ==> !SameKey(slot[j], neigh, nexthop)
  {
    if slot == [] then 0
    else if SameKey(slot[0], neigh, nexthop) then 0
    else 1 + FindRoute(slot[1..], neigh, nexthop)
  }

  predicate Eligible(r: Route, sources: Sources, now: int) {
    !RouteExpired(r, now) && RouteFeasible(sources, r, now)
  }

  /** find_best_route with feasible set and no excluded neighbour: the first
      route is an unconditional candidate. */
  function FindBestRoute(slot: Slot, sources: Sources, now: int): (i: nat)
    requires slot != []
    ensures i < |slot|
    ensures i > 0 ==> Eligible(slot[i], sources, now) && RouteMetric(slot[i]) < RouteMetric(slot[0])
    ensures RouteMetric(slot[i]) <= RouteMetric(slot[0])
    ensures forall j :: 0 <= j < |slot| && Eligible(slot[j], sources, now) ==>
            RouteMetric(slot[i]) <= RouteMetric(slot[j])
  {
    if |slot| == 1 then 0
    else
      var last := |slot| - 1;
      var b := FindBestRoute(slot[..last], sources, now);
      if Eligible(slot[last], sources, now) && RouteMetric(slot[last]) < RouteMetric(slot[b]) then last else b
  }

  function Uninstalled(r: Route): Route {
    r.(installed := false, anchored := false)
  }

  function Installed(r: Route): Route {
    r.(installed := true, anchored := r.refmetric < INFINITY && r.heard)
  }

  /** move_installed_route. */
  function MoveToFront(slot: Slot, i: nat): Slot
    requires i < |slot|
  {
    [slot[i]] + slot[..i] + slot[i + 1..]
  }

  /** install_route. */
  function InstallRoute(slot: Slot, i: nat, env: Env): Slot
    requires i < |slot|
  {
    if slot[i].installed || slot[0].installed || !env.installOk then slot
    else MoveToFront(slot[i := Installed(slot[i])], i)
  }

  /** switch_routes from the head to another route of the slot. */
  function SwitchRoutes(slot: Slot, i: nat, env: Env): Slot
    requires i < |slot|
  {
    if !slot[0].installed || !env.installOk then slot
    else MoveToFront(slot[0 := Uninstalled(slot[0])][i := Installed(slot[i])], i)
  }

  /** consider_route. */
  function ConsiderRoute(slot: Slot, i: nat, sources: Sources, env: Env): Slot
    requires i < |slot|
  {
    if slot[i].installed || !RouteFeasible(sources, slot[i], env.now) || env.xrouteWins then slot
    else if !slot[0].installed then InstallRoute(slot, i, env)
    else if RouteMetric(slot[i]) >= INFINITY then slot
    else if RouteMetric(slot[0]) >= INFINITY || RouteMetric(slot[0]) >= RouteMetric(slot[i]) + 64
    then SwitchRoutes(slot, i, env)
    else slot
  }

  /** route_changed. */
  function RouteChanged(slot: Slot, i: nat, oldMetric: nat, sources: Sources, env: Env): Slot
    requires i < |slot|
  {
    if slot[i].installed then
      if RouteMetric(slot[i]) > oldMetric then
        var b := FindBestRoute(slot, sources, env.now);
        if RouteMetric(slot[b]) <= RouteMetric(slot[i]) - 96 then ConsiderRoute(slot, b, sources, env) else slot
      else slot
    else ConsiderRoute(slot, i, sources, env)
  }

  /** route_lost. */
  function RouteLost(slot: Slot, sources: Sources, env: Env): Slot {
    if slot == [] then slot
    else ConsiderRoute(slot, FindBestRoute(slot, sources, env.now), sources, env)
  }

  /** Whether change_route_metric asks the kernel and the kernel refuses. */
  predicate MetricRefused(r: Route, refmetric: nat, cost: nat, add: nat, env: Env) {
    r.installed && !env.metricOk
    && (RouteMetric(r) < INFINITY) != (refmetric + cost + add < INFINITY)
  }

  /** change_route_metric. */
  function ChangeRouteMetric(r: Route, refmetric: nat, cost: nat, add: nat, env: Env): Route {
    if MetricRefused(r, refmetric, cost, add, env) then r
    else r.(refmetric := refmetric, cost := cost, addMetric := add)
  }

  function RetainSource(sources: Sources, id: RouterId): Sources
    requires id in sources
  {
    sources[id := sources[id].(routeCount := sources[id].routeCount + 1)]
  }

  function ReleaseSource(sources: Sources, id: RouterId): Sources {
    if id in sources && sources[id].routeCount > 0
    then sources[id := sources[id].(routeCount := sources[id].routeCount - 1)]
    else sources
  }

  function HoldTime(interval: nat): int {
    Max(4 * interval / 100 + interval / 50, 15)
  }

  /** find_source with `create` set. */
  function FindSource(sources: Sources, id: RouterId, seqno: nat, now: int): Sources {
    if id in sources then sources else sources[id := NewSource(seqno, now)]
  }

  /** Whether a route that keeps its metric under this label still holds a
      distance its neighbour announced. */
  predicate StillHeard(r: Route, id: RouterId, seqno: nat) {
    r.heard && id == r.src && seqno <= r.seqno
  }

  /** The fields update_route writes into a route it already has, before
      route_changed runs. */
  function RewriteRoute(r: Route, u: Update, cost: nat, add: nat, feasible: bool, keepUnfeasible: bool,
                        env: Env): Route {
    var r1 := if !feasible && r.installed && u.id != r.src then Uninstalled(r) else r;
    var r2 := r1.(src := u.id, seqno := u.seqno,
                  time := if (feasible || keepUnfeasible) && u.refmetric < INFINITY then env.now else r.time);
    var refused := MetricRefused(r2, u.refmetric, cost, add, env);
    var r3 := ChangeRouteMetric(r2, u.refmetric, cost, add, env);
    var heard := if refused then StillHeard(r, u.id, u.seqno) else true;
    r3.(holdTime := HoldTime(u.interval),
        heard := heard,
        anchored := r3.installed && (r3.refmetric < INFINITY ==> heard)
                    && ((!refused && feasible && u.refmetric < INFINITY) || (u.id == r.src && r.anchored)))
  }

  function NewRoute(u: Update, cost: nat, add: nat, now: int): Route {
    Route(u.id, u.seqno, u.refmetric, cost, add, u.neigh, u.nexthop, now, HoldTime(u.interval), false, false, true)
  }

  /** update_route's branch for a route it already has: rewrite it, reselect,
      and move its reference to the update's source. */
  function UpdateKnown(rt: Router, i: nat, u: Update, cost: nat, add: nat, feasible: bool, keepUnfeasible: bool,
                       env: Env): Router
    requires i < |rt.slot| && u.id in rt.sources
  {
    var r := rt.slot[i];
    var slot1 := rt.slot[i := RewriteRoute(r, u, cost, add, feasible, keepUnfeasible, env)];
    var slot2 := RouteChanged(slot1, i, RouteMetric(r), rt.sources, env);
    var slot3 := if !feasible && r.installed && u.id != r.src then RouteLost(slot2, rt.sources, env) else slot2;
    Router(ReleaseSource(RetainSource(rt.sources, u.id), r.src), slot3)
  }

  /** Its branch for a new route: insert_route at the end of the slot, then
      consider_route. */
  function InsertRoute(rt: Router, r: Route, env: Env): Router
    requires r.src in rt.sources
  {
    Router(RetainSource(rt.sources, r.src), ConsiderRoute(rt.slot + [r], |rt.slot|, rt.sources, env))
  }

  /** update_route for a prefix that is not martian. */
  function UpdateRoute(rt: Router, myid: RouterId, u: Update, cost: nat, add: nat, keepUnfeasible: bool,
                       env: Env): Router {
    if u.id == myid || add >= INFINITY then rt
    else
      var rt1 := Router(FindSource(rt.sources, u.id, u.seqno, env.now), rt.slot);
      var feasible := UpdateFeasible(rt1.sources[u.id], u.seqno, u.refmetric, env.now);
      var i := FindRoute(rt.slot, u.neigh, u.nexthop);
      if i < |rt.slot| then UpdateKnown(rt1, i, u, cost, add, feasible, keepUnfeasible, env)
      else if u.refmetric >= INFINITY || (!feasible && !keepUnfeasible) then rt1
      else InsertRoute(rt1, NewRoute(u, cost, add, env.now), env)
  }

  /** An expired route: retracted under the next seqno, unless the kernel
      refuses; the new seqno then stands beside the old metric. */
  function ExpireRoute(r: Route, sources: Sources, env: Env): Route {
    var bumped := if r.src in sources then r.(seqno := sources[r.src].seqno + 1) else r;
    if MetricRefused(r, INFINITY, INFINITY, 0, env) then
      var heard := StillHeard(r, r.src, bumped.seqno);
      bumped.(heard := heard, anchored := r.anchored && heard)
    else ChangeRouteMetric(bumped, INFINITY, INFINITY, 0, env)
  }

  /** update_route_metric. */
  function UpdateRouteMetric(rt: Router, i: nat, cost: nat, add: nat, env: Env): Router
    requires i < |rt.slot|
  {
    var r := rt.slot[i];
    if RouteExpired(r, env.now) then
      if r.refmetric < INFINITY then
        var slot1 := rt.slot[i := ExpireRoute(r, rt.sources, env)];
        rt.(slot := if RouteMetric(r) < INFINITY then RouteChanged(slot1, i, RouteMetric(r), rt.sources, env)
          else slot1)
      else rt
    else
      var r1 := ChangeRouteMetric(r, r.refmetric, cost, add, env);
      var slot1 := rt.slot[i := r1];
      rt.(slot := if RouteMetric(r1) != RouteMetric(r) then RouteChanged(slot1, i, RouteMetric(r), rt.sources, env)
        else slot1)
  }

  /** One route of retract_neighbour_routes. */
  function RetractRoute(rt: Router, i: nat, env: Env): Router
    requires i < |rt.slot|
  {
    var r := rt.slot[i];
    if r.refmetric == INFINITY then rt
    else
      var slot1 := rt.slot[i := ChangeRouteMetric(r, INFINITY, INFINITY, 0, env)];
      rt.(slot := if RouteMetric(r) != INFINITY then RouteChanged(slot1, i, RouteMetric(r), rt.sources, env) else slot1)
  }

  /** flush_route. */
  function FlushRoute(rt: Router, i: nat, env: Env): Router
    requires i < |rt.slot|
  {
    var r := rt.slot[i];
    var slot1 := Removed(rt.slot, i);
    Router(ReleaseSource(rt.sources, r.src),
           if r.installed then RouteLost(slot1, rt.sources, env) else slot1)
  }

  /** uninstall_route on whatever is installed. */
  function UninstallRoute(slot: Slot): Slot {
    if slot != [] && slot[0].installed then slot[0 := Uninstalled(slot[0])] else slot
  }

  /** flush_source: a source in use is kept. */
  function FlushSource(sources: Sources, id: RouterId): Sources {
    if id in sources && sources[id].routeCount == 0 then sources - {id} else sources
  }

  // ----- What every operation keeps -----

  predicate Distinct(slot: Slot) {
    forall i, j :: 0 <= i < j < |slot| ==> !SameKey(slot[j], slot[i].neigh, slot[i].nexthop)
  }

  /** At most one route is installed, and then it is the head. */
  predicate HeadOnly(slot: Slot) {
    forall i :: 0 < i < |slot| ==> !slot[i].installed
  }

  /** The history variable belongs to installed routes. */
  predicate AnchoredOnly(slot: Slot) {
    forall i :: 0 <= i < |slot| && slot[i].anchored ==> slot[i].installed
  }

  predicate SlotOk(slot: Slot) {
    Distinct(slot) && HeadOnly(slot) && AnchoredOnly(slot)
  }

  lemma {:induction false} OverwriteOk(slot: Slot, i: nat, r: Route)
    requires SlotOk(slot) && i < |slot|
    requires SameKey(r, slot[i].neigh, slot[i].nexthop)
    requires r.installed ==> slot[i].installed
    requires r.anchored ==> r.installed
    ensures SlotOk(slot[i := r])
  {}

  lemma {:induction false} AppendOk(slot: Slot, r: Route)
    requires SlotOk(slot) && FindRoute(slot, r.neigh, r.nexthop) == |slot| && !r.installed && !r.anchored
    ensures SlotOk(slot + [r])
  {}

  function Removed(slot: Slot, i: nat): Slot
    requires i < |slot|
  {
    slot[..i] + slot[i + 1..]
  }

  lemma {:induction false} RemoveOk(slot: Slot, i: nat)
    requires SlotOk(slot) && i < |slot|
    ensures SlotOk(Removed(slot, i))
    ensures forall k :: 0 <= k < |slot| - 1 ==> Removed(slot, i)[k] == slot[if k < i then k else k + 1]
  {}

  /** What selection may do to one route: it keeps every field but
      `installed`, and turns `installed` on only for a feasible route. */
  predicate Became(r: Route, r': Route, sources: Sources, now: int) {
    && Uninstalled(r) == Uninstalled(r')
    && (r.installed && r'.installed ==> r' == r)
    && (!r.installed && r'.installed ==> RouteFeasible(sources, r', now) && r' == Installed(r))
    && (!r'.installed ==> !r'.anchored)
  }

  ghost predicate From(r': Route, slot: Slot, sources: Sources, now: int) {
    exists j :: 0 <= j < |slot| && Became(slot[j], r', sources, now)
  }

  ghost predicate Into(r: Route, slot': Slot, sources: Sources, now: int) {
    exists k :: 0 <= k < |slot'| && Became(r, slot'[k], sources, now)
  }

  /** slot' is slot reordered, with only installation changed. */
  ghost predicate Reselected(slot: Slot, slot': Slot, sources: Sources, now: int) {
    && |slot'| == |slot|
    && (forall k {:trigger From(slot'[k], slot, sources, now)} :: 0 <= k < |slot'| ==>
      From(slot'[k], slot, sources, now))
    && (forall j {:trigger Into(slot[j], slot', sources, now)} :: 0 <= j < |slot| ==>
      Into(slot[j], slot', sources, now))
  }

  lemma {:induction false} ReselectedSelf(slot: Slot, sources: Sources, now: int)
    requires AnchoredOnly(slot)
    ensures Reselected(slot, slot, sources, now)
  {
    forall k | 0 <= k < |slot| ensures From(slot[k], slot, sources, now) && Into(slot[k], slot, sources, now) {
      assert Became(slot[k], slot[k], sources, now);
    }
  }

  /** Where the route now at index k of MoveToFront(_, i) stood before. */
  function Before(i: nat, k: nat): nat {
    if k == 0 then i else if k <= i then k - 1 else k
  }

  lemma {:induction false} MovedFrom(slot: Slot, i: nat)
    requires i < |slot|
    ensures |MoveToFront(slot, i)| == |slot|
    ensures forall k :: 0 <= k < |slot| ==> Before(i, k) < |slot| && MoveToFront(slot, i)[k] == slot[Before(i, k)]
  {}

  lemma {:induction false} MovedOk(mid: Slot, i: nat)
    requires i < |mid| && Distinct(mid) && AnchoredOnly(mid)
    requires forall k :: 0 <= k < |mid| && mid[k].installed ==> k == i
    ensures SlotOk(MoveToFront(mid, i))
  {
    var m := MoveToFront(mid, i);
    MovedFrom(mid, i);
    forall a, b | 0 <= a < b < |m| ensures !SameKey(m[b], m[a].neigh, m[a].nexthop) {
      assert m[a] == mid[Before(i, a)] && m[b] == mid[Before(i, b)];
    }
    forall k | 0 <= k < |m| ensures (m[k].installed ==> k == 0) && (m[k].anchored ==> m[k].installed) {
      assert m[k] == mid[Before(i, k)];
    }
  }

  lemma {:induction false} MovedReselected(slot: Slot, mid: Slot, i: nat, sources: Sources, now: int)
    requires i < |slot| == |mid|
    requires forall k :: 0 <= k < |slot| ==> Became(slot[k], mid[k], sources, now)
    ensures Reselected(slot, MoveToFront(mid, i), sources, now)
  {
    var m := MoveToFront(mid, i);
    MovedFrom(mid, i);
    forall k | 0 <= k < |m| ensures From(m[k], slot, sources, now) {
      assert Became(slot[Before(i, k)], m[k], sources, now);
    }
    forall j | 0 <= j < |slot| ensures Into(slot[j], m, sources, now) {
      var k := if j == i then 0 else if j < i then j + 1 else j;
      assert Before(i, k) == j;
      assert Became(slot[j], m[k], sources, now);
    }
  }

  /** The slot in which route i has just replaced whatever was installed. */
  function Replaced(slot: Slot, i: nat): Slot
    requires i < |slot|
  {
    (if slot[0].installed then slot[0 := Uninstalled(slot[0])] else slot)[i := Installed(slot[i])]
  }

  /** install_route: a route comes to be installed only where none was, and only
      it, at the head. */
  lemma {:induction false} InstallOk(slot: Slot, i: nat, env: Env)
    requires i < |slot| && SlotOk(slot)
    ensures SlotOk(InstallRoute(slot, i, env))
    ensures InstallRoute(slot, i, env)[0].installed <==> slot[0].installed || env.installOk
    ensures !slot[0].installed && env.installOk ==>
            SameKey(InstallRoute(slot, i, env)[0], slot[i].neigh, slot[i].nexthop)
  {
    var out := InstallRoute(slot, i, env);
    if out != slot {
      assert out == MoveToFront(Replaced(slot, i), i);
      MovedOk(Replaced(slot, i), i);
    }
  }

  /** switch_routes: the new route takes the place of the installed one. */
  lemma {:induction false} SwitchOk(slot: Slot, i: nat, env: Env)
    requires i < |slot| && SlotOk(slot)
    ensures SlotOk(SwitchRoutes(slot, i, env))
    ensures SwitchRoutes(slot, i, env)[0].installed <==> slot[0].installed
    ensures slot[0].installed && env.installOk ==>
            SameKey(SwitchRoutes(slot, i, env)[0], slot[i].neigh, slot[i].nexthop)
  {
    var out := SwitchRoutes(slot, i, env);
    if slot[0].installed && env.installOk {
      assert out == MoveToFront(Replaced(slot, i), i);
      MovedOk(Replaced(slot, i), i);
    }
  }

  /** consider_route keeps the slot well formed, changes nothing but
      installation, and installs only what is feasible at that moment. */
  lemma {:induction false} ConsiderKeeps(slot: Slot, i: nat, sources: Sources, env: Env)
    requires i < |slot| && SlotOk(slot)
    ensures SlotOk(ConsiderRoute(slot, i, sources, env))
    ensures Reselected(slot, ConsiderRoute(slot, i, sources, env), sources, env.now)
  {
    var out := ConsiderRoute(slot, i, sources, env);
    if out == slot {
      ReselectedSelf(slot, sources, env.now);
    } else {
      var mid := Replaced(slot, i);
      assert out == MoveToFront(mid, i);
      assert Distinct(mid) && AnchoredOnly(mid);
      MovedOk(mid, i);
      assert forall k :: 0 <= k < |slot| ==> Became(slot[k], mid[k], sources, env.now);
      MovedReselected(slot, mid, i, sources, env.now);
    }
  }

  lemma {:induction false} RouteChangedKeeps(slot: Slot, i: nat, oldMetric: nat, sources: Sources, env: Env)
    requires i < |slot| && SlotOk(slot)
    ensures SlotOk(RouteChanged(slot, i, oldMetric, sources, env))
    ensures Reselected(slot, RouteChanged(slot, i, oldMetric, sources, env), sources, env.now)
  {
    var out := RouteChanged(slot, i, oldMetric, sources, env);
    if out == slot {
      ReselectedSelf(slot, sources, env.now);
    } else if slot[i].installed {
      ConsiderKeeps(slot, FindBestRoute(slot, sources, env.now), sources, env);
    } else {
      ConsiderKeeps(slot, i, sources, env);
    }
  }

  lemma {:induction false} RouteLostKeeps(slot: Slot, sources: Sources, env: Env)
    requires SlotOk(slot)
    ensures SlotOk(RouteLost(slot, sources, env))
    ensures Reselected(slot, RouteLost(slot, sources, env), sources, env.now)
  {
    if slot == [] {
      ReselectedSelf(slot, sources, env.now);
    } else {
      ConsiderKeeps(slot, FindBestRoute(slot, sources, env.now), sources, env);
    }
  }

  // ----- Installation and feasibility -----

  predicate WasInstalled(slot: Slot, r: Route) {
    exists j :: 0 <= j < |slot| && slot[j].installed && SameKey(slot[j], r.neigh, r.nexthop)
  }

  predicate SameDistances(s: Sources, s': Sources) {
    forall id :: id in s ==> id in s' && s'[id].seqno == s[id].seqno && s'[id].metric == s[id].metric
                             && s'[id].time == s[id].time
  }

  lemma {:induction false} ReselectedInstalls(slot: Slot, slot': Slot, sources: Sources, now: int, k: nat)
    requires Reselected(slot, slot', sources, now) && k < |slot'| && slot'[k].installed
    ensures WasInstalled(slot, slot'[k]) || RouteFeasible(sources, slot'[k], now)
  {
    assert From(slot'[k], slot, sources, now);
    var j :| 0 <= j < |slot| && Became(slot[j], slot'[k], sources, now);
    if slot[j].installed {
      assert SameKey(slot[j], slot'[k].neigh, slot'[k].nexthop);
    }
  }

  lemma {:induction false} OverwrittenInstalls(slot: Slot, i: nat, w: Route, r: Route)
    requires i < |slot| && SameKey(w, slot[i].neigh, slot[i].nexthop) && (w.installed ==> slot[i].installed)
    requires WasInstalled(slot[i := w], r)
    ensures WasInstalled(slot, r)
  {
    var j :| 0 <= j < |slot| && slot[i := w][j].installed && SameKey(slot[i := w][j], r.neigh, r.nexthop);
    assert slot[j].installed && SameKey(slot[j], r.neigh, r.nexthop);
  }

  /** update_route turns `installed` on only for a route that, with the distance
      it then holds, passes the feasibility test at that moment. */
  lemma {:induction false} UpdateInstallsFeasible(rt: Router, myid: RouterId, u: Update, cost: nat, add: nat,
                                                  keep: bool, env: Env, k: nat)
    requires SlotOk(rt.slot)
    requires forall i :: 0 <= i < |rt.slot| ==> rt.slot[i].src in rt.sources
    requires k < |UpdateRoute(rt, myid, u, cost, add, keep, env).slot|
    ensures var rt' := UpdateRoute(rt, myid, u, cost, add, keep, env);
            rt'.slot[k].installed ==>
              WasInstalled(rt.slot, rt'.slot[k]) || RouteFeasible(rt'.sources, rt'.slot[k], env.now)
  {
    var rt' := UpdateRoute(rt, myid, u, cost, add, keep, env);
    var i := FindRoute(rt.slot, u.neigh, u.nexthop);
    var rt1 := Router(FindSource(rt.sources, u.id, u.seqno, env.now), rt.slot);
    if !rt'.slot[k].installed {
    } else if rt'.slot == rt.slot {
      assert SameKey(rt.slot[k], rt'.slot[k].neigh, rt'.slot[k].nexthop);
    } else if i < |rt.slot| {
      var feasible := UpdateFeasible(rt1.sources[u.id], u.seqno, u.refmetric, env.now);
      KnownInstalls(rt1, i, u, cost, add, feasible, keep, env, k);
    } else {
      AppendedInstalls(rt.slot, NewRoute(u, cost, add, env.now), rt1.sources, env, k);
      FeasibleSame(rt1.sources, rt'.sources, rt'.slot[k], env.now);
    }
  }

  lemma {:induction false} KnownInstalls(rt: Router, i: nat, u: Update, cost: nat, add: nat, feasible: bool,
                                         keep: bool, env: Env, k: nat)
    requires SlotOk(rt.slot) && i < |rt.slot| && u.id in rt.sources && rt.slot[i].src in rt.sources
    requires SameKey(rt.slot[i], u.neigh, u.nexthop)
    requires k < |UpdateKnown(rt, i, u, cost, add, feasible, keep, env).slot|
    ensures var rt' := UpdateKnown(rt, i, u, cost, add, feasible, keep, env);
            rt'.slot[k].installed ==>
              WasInstalled(rt.slot, rt'.slot[k]) || RouteFeasible(rt'.sources, rt'.slot[k], env.now)
  {
    var rt' := UpdateKnown(rt, i, u, cost, add, feasible, keep, env);
    if rt'.slot[k].installed {
      RewrittenInstalls(rt.slot, i, RewriteRoute(rt.slot[i], u, cost, add, feasible, keep, env), rt.sources, env,
        rt'.slot, k);
      FeasibleSame(rt.sources, rt'.sources, rt'.slot[k], env.now);
    }
  }

  lemma {:induction false} AppendedInstalls(slot: Slot, n: Route, sources: Sources, env: Env, k: nat)
    requires SlotOk(slot) && FindRoute(slot, n.neigh, n.nexthop) == |slot| && !n.installed && !n.anchored
    requires var slot' := ConsiderRoute(slot + [n], |slot|, sources, env);
             k < |slot'| && slot'[k].installed
    ensures var slot' := ConsiderRoute(slot + [n], |slot|, sources, env);
            WasInstalled(slot, slot'[k]) || RouteFeasible(sources, slot'[k], env.now)
  {
    var slot1 := slot + [n];
    AppendOk(slot, n);
    ConsiderKeeps(slot1, |slot|, sources, env);
    var slot' := ConsiderRoute(slot1, |slot|, sources, env);
    ReselectedInstalls(slot1, slot', sources, env.now, k);
    if WasInstalled(slot1, slot'[k]) {
      var j :| 0 <= j < |slot1| && slot1[j].installed && SameKey(slot1[j], slot'[k].neigh, slot'[k].nexthop);
      assert slot[j].installed && SameKey(slot[j], slot'[k].neigh, slot'[k].nexthop);
    }
  }

  lemma {:induction false} FeasibleSame(s: Sources, s': Sources, r: Route, now: int)
    requires SameDistances(s, s') && s.Keys == s'.Keys
    ensures RouteFeasible(s, r, now) <==> RouteFeasible(s', r, now)
  {}

  lemma {:induction false} RewrittenInstalls(slot: Slot, i: nat, w: Route, sources: Sources, env: Env, slot3: Slot,
                                             k: nat)
    requires SlotOk(slot) && i < |slot| && SameKey(w, slot[i].neigh, slot[i].nexthop)
    requires (w.installed ==> slot[i].installed) && (w.anchored ==> w.installed)
    requires var slot2 := RouteChanged(slot[i := w], i, RouteMetric(slot[i]), sources, env);
             slot3 == slot2 || slot3 == RouteLost(slot2, sources, env)
    requires k < |slot3| && slot3[k].installed
    ensures WasInstalled(slot, slot3[k]) || RouteFeasible(sources, slot3[k], env.now)
  {
    var slot1 := slot[i := w];
    OverwriteOk(slot, i, w);
    var slot2 := RouteChanged(slot1, i, RouteMetric(slot[i]), sources, env);
    RouteChangedKeeps(slot1, i, RouteMetric(slot[i]), sources, env);
    RouteLostKeeps(slot2, sources, env);
    if slot3 != slot2 && !RouteFeasible(sources, slot3[k], env.now) {
      ReselectedInstalls(slot2, slot3, sources, env.now, k);
      var j :| 0 <= j < |slot2| && slot2[j].installed && SameKey(slot2[j], slot3[k].neigh, slot3[k].nexthop);
      StillInstalled(slot2, slot3, sources, env.now, j, k);
      ReselectedInstalls(slot1, slot2, sources, env.now, j);
    } else if slot3 == slot2 {
      ReselectedInstalls(slot1, slot2, sources, env.now, k);
    }
    if WasInstalled(slot1, slot3[k]) {
      OverwrittenInstalls(slot, i, w, slot3[k]);
    }
  }

  /** A route installed before and after a selection is unchanged by it. */
  lemma {:induction false} StillInstalled(slot: Slot, slot': Slot, sources: Sources, now: int, j: nat, k: nat)
    requires SlotOk(slot) && Reselected(slot, slot', sources, now)
    requires j < |slot| && k < |slot'| && slot[j].installed && slot'[k].installed
    requires SameKey(slot[j], slot'[k].neigh, slot'[k].nexthop)
    ensures slot[j] == slot'[k]
  {
    assert From(slot'[k], slot, sources, now);
    var m :| 0 <= m < |slot| && Became(slot[m], slot'[k], sources, now);
    assert m == j;
  }

  // ----- The feasibility distance over a history of announcements -----

  datatype Announced = Announced(seqno: nat, metric: nat, now: int)

  function AnnounceAll(s: Source, h: seq<Announced>): Source
    decreases |h|
  {
    if h == [] then s
    else
      var s' := AnnounceAll(s, h[..|h| - 1]);
      var a := h[|h| - 1];
      UpdateSource(s', a.seqno, a.metric, a.now)
  }

  /** No announcement finds the entry stale or out of the comparison window. */
  predicate Undisturbed(s: Source, h: seq<Announced>)
    decreases |h|
  {
    h == [] ||
    (var a := h[|h| - 1];
     var s' := AnnounceAll(s, h[..|h| - 1]);
     Undisturbed(s, h[..|h| - 1]) && !Stale(s', a.now) && Close(a.seqno, s'.seqno))
  }

  predicate AtLeastAsGood(s1: nat, m1: nat, s2: nat, m2: nat) {
    s1 > s2 || (s1 == s2 && m1 <= m2)
  }

  /** The feasibility distance is the minimum of the entry's initial distance
      and everything finite announced since: it is one of them and no worse than
      any of them. */
  lemma {:induction false} DistanceIsMinimum(s: Source, h: seq<Announced>)
    requires Undisturbed(s, h)
    ensures var f := AnnounceAll(s, h);
            && AtLeastAsGood(f.seqno, f.metric, s.seqno, s.metric)
            && (forall i :: 0 <= i < |h| && h[i].metric < INFINITY
                  ==> AtLeastAsGood(f.seqno, f.metric, h[i].seqno, h[i].metric))
            && ((f.seqno, f.metric) == (s.seqno, s.metric)
                || exists i :: && 0 <= i < |h| && h[i].metric < INFINITY
                               && (f.seqno, f.metric) == (h[i].seqno, h[i].metric))
    decreases |h|
  {
    if h != [] {
      var n := |h| - 1;
      var t := h[..n];
      DistanceIsMinimum(s, t);
      var g := AnnounceAll(s, t);
      CloseCompare(g.seqno, h[n].seqno);
      forall i | 0 <= i < |h| && h[i].metric < INFINITY
        ensures var f := AnnounceAll(s, h); AtLeastAsGood(f.seqno, f.metric, h[i].seqno, h[i].metric)
      {
        if i < n {
          assert h[i] == t[i];
        }
      }
      if (g.seqno, g.metric) != (s.seqno, s.metric) {
        var i :| 0 <= i < |t| && t[i].metric < INFINITY && (g.seqno, g.metric) == (t[i].seqno, t[i].metric);
        assert h[i] == t[i];
      }
    }
  }
}
