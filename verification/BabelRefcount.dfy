/** Reference counts of babeld's sources. */
module BabelRefcount {
  import opened BabelRoute

  /** Routes of the slot that point at a source. */
  function CountSrc(slot: Slot, id: RouterId): nat {
    if slot == [] then 0
    else CountSrc(slot[..|slot| - 1], id) + (if slot[|slot| - 1].src == id then 1 else 0)
  }

  predicate SourcesKnown(rt: Router) {
    forall i :: 0 <= i < |rt.slot| ==> rt.slot[i].src in rt.sources
  }

  /** Each source's route_count is the number of routes that point at it. */
  predicate CountsOk(rt: Router) {
    && SourcesKnown(rt)
    && forall id :: id in rt.sources ==> rt.sources[id].routeCount == CountSrc(rt.slot, id)
  }

  lemma {:induction false} CountConcat(a: Slot, b: Slot, id: RouterId)
    ensures CountSrc(a + b, id) == CountSrc(a, id) + CountSrc(b, id)
    decreases |b|
  {
    if b == [] {
      assert a + b == a;
    } else {
      assert (a + b)[..|a + b| - 1] == a + b[..|b| - 1];
      CountConcat(a, b[..|b| - 1], id);
    }
  }

  lemma {:induction false} CountPointwise(a: Slot, b: Slot, id: RouterId)
    requires |a| == |b| && forall i :: 0 <= i < |a| ==> a[i].src == b[i].src
    ensures CountSrc(a, id) == CountSrc(b, id)
    decreases |a|
  {
    if a != [] {
      CountPointwise(a[..|a| - 1], b[..|b| - 1], id);
    }
  }

  lemma {:induction false} CountTakeOut(slot: Slot, i: nat, id: RouterId)
    requires i < |slot|
    ensures CountSrc(slot, id) == CountSrc(Removed(slot, i), id) + (if slot[i].src == id then 1 else 0)
  {
    assert slot == slot[..i] + ([slot[i]] + slot[i + 1..]);
    CountConcat(slot[..i], slot[i + 1..], id);
    CountConcat(slot[..i], [slot[i]] + slot[i + 1..], id);
    CountConcat([slot[i]], slot[i + 1..], id);
  }

  lemma {:induction false} CountMoved(slot: Slot, i: nat, id: RouterId)
    requires i < |slot|
    ensures CountSrc(MoveToFront(slot, i), id) == CountSrc(slot, id)
  {
    CountTakeOut(slot, i, id);
    assert MoveToFront(slot, i) == [slot[i]] + Removed(slot, i);
    CountConcat([slot[i]], Removed(slot, i), id);
  }

  lemma {:induction false} CountOverwrite(slot: Slot, i: nat, w: Route, id: RouterId)
    requires i < |slot|
    ensures CountSrc(slot[i := w], id)
            == CountSrc(slot, id) - (if slot[i].src == id then 1 else 0) + (if w.src == id then 1 else 0)
  {
    CountTakeOut(slot, i, id);
    CountTakeOut(slot[i := w], i, id);
    assert Removed(slot[i := w], i) == Removed(slot, i);
  }

  /** consider_route only reorders: no source gains or loses a reference. */
  lemma {:induction false} ConsiderCount(slot: Slot, i: nat, sources: Sources, env: Env, id: RouterId)
    requires i < |slot|
    ensures CountSrc(ConsiderRoute(slot, i, sources, env), id) == CountSrc(slot, id)
  {
    if ConsiderRoute(slot, i, sources, env) != slot {
      var mid := Replaced(slot, i);
      CountPointwise(slot, mid, id);
      CountMoved(mid, i, id);
    }
  }

  lemma {:induction false} ChangedCount(slot: Slot, i: nat, oldMetric: nat, sources: Sources, env: Env, id: RouterId)
    requires i < |slot|
    ensures CountSrc(RouteChanged(slot, i, oldMetric, sources, env), id) == CountSrc(slot, id)
  {
    ConsiderCount(slot, i, sources, env, id);
    ConsiderCount(slot, FindBestRoute(slot, sources, env.now), sources, env, id);
  }

  lemma {:induction false} LostCount(slot: Slot, sources: Sources, env: Env, id: RouterId)
    ensures CountSrc(RouteLost(slot, sources, env), id) == CountSrc(slot, id)
  {
    if slot != [] {
      ConsiderCount(slot, FindBestRoute(slot, sources, env.now), sources, env, id);
    }
  }

  lemma {:induction false} CountZero(slot: Slot, id: RouterId)
    requires forall i :: 0 <= i < |slot| ==> slot[i].src != id
    ensures CountSrc(slot, id) == 0
    decreases |slot|
  {
    if slot != [] {
      CountZero(slot[..|slot| - 1], id);
    }
  }

  lemma {:induction false} ReselectedSources(slot: Slot, slot': Slot, sources: Sources, now: int, known: set<RouterId>)
    requires Reselected(slot, slot', sources, now) && forall i :: 0 <= i < |slot| ==> slot[i].src in known
    ensures forall k :: 0 <= k < |slot'| ==> slot'[k].src in known
  {
    forall k | 0 <= k < |slot'| ensures slot'[k].src in known {
      assert From(slot'[k], slot, sources, now);
    }
  }

  /** update_route keeps every reference count exact; in particular its
      release_source never finds a count of zero. */
  lemma {:induction false} UpdateKeepsCounts(rt: Router, myid: RouterId, u: Update, cost: nat, add: nat, keep: bool,
                                             env: Env)
    requires SlotOk(rt.slot) && CountsOk(rt)
    ensures SlotOk(UpdateRoute(rt, myid, u, cost, add, keep, env).slot)
    ensures CountsOk(UpdateRoute(rt, myid, u, cost, add, keep, env))
  {
    var rt' := UpdateRoute(rt, myid, u, cost, add, keep, env);
    if u.id != myid && add < INFINITY {
      var i := FindRoute(rt.slot, u.neigh, u.nexthop);
      var sources := FindSource(rt.sources, u.id, u.seqno, env.now);
      FoundCounts(rt, u.id, u.seqno, env.now);
      var feasible := UpdateFeasible(sources[u.id], u.seqno, u.refmetric, env.now);
      if i < |rt.slot| {
        var w := RewriteRoute(rt.slot[i], u, cost, add, feasible, keep, env);
        RewrittenCounts(Router(sources, rt.slot), i, w, env, rt'.slot);
      } else if u.refmetric < INFINITY && (feasible || keep) {
        AppendedCounts(Router(sources, rt.slot), NewRoute(u, cost, add, env.now), env);
      }
    }
  }

  lemma {:induction false} FoundCounts(rt: Router, id: RouterId, seqno: nat, now: int)
    requires CountsOk(rt)
    ensures CountsOk(Router(FindSource(rt.sources, id, seqno, now), rt.slot))
  {
    if id !in rt.sources {
      CountZero(rt.slot, id);
    }
  }

  lemma {:induction false} RewrittenKnown(rt: Router, i: nat, w: Route, env: Env, slot2: Slot, slot3: Slot)
    requires SlotOk(rt.slot) && SourcesKnown(rt) && i < |rt.slot| && w.src in rt.sources
    requires SameKey(w, rt.slot[i].neigh, rt.slot[i].nexthop)
    requires (w.installed ==> rt.slot[i].installed) && (w.anchored ==> w.installed)
    requires slot2 == RouteChanged(rt.slot[i := w], i, RouteMetric(rt.slot[i]), rt.sources, env)
    requires slot3 == slot2 || slot3 == RouteLost(slot2, rt.sources, env)
    ensures SlotOk(slot3) && SourcesKnown(Router(rt.sources, slot3))
  {
    var slot1 := rt.slot[i := w];
    OverwriteOk(rt.slot, i, w);
    RouteChangedKeeps(slot1, i, RouteMetric(rt.slot[i]), rt.sources, env);
    ReselectedSources(slot1, slot2, rt.sources, env.now, rt.sources.Keys);
    if slot3 != slot2 {
      RouteLostKeeps(slot2, rt.sources, env);
      ReselectedSources(slot2, slot3, rt.sources, env.now, rt.sources.Keys);
    }
  }

  lemma {:induction false} RewrittenCounts(rt: Router, i: nat, w: Route, env: Env, slot3: Slot)
    requires SlotOk(rt.slot) && CountsOk(rt) && i < |rt.slot| && w.src in rt.sources
    requires SameKey(w, rt.slot[i].neigh, rt.slot[i].nexthop)
    requires (w.installed ==> rt.slot[i].installed) && (w.anchored ==> w.installed)
    requires var slot2 := RouteChanged(rt.slot[i := w], i, RouteMetric(rt.slot[i]), rt.sources, env);
             slot3 == slot2 || slot3 == RouteLost(slot2, rt.sources, env)
    ensures SlotOk(slot3)
    ensures CountsOk(Router(ReleaseSource(RetainSource(rt.sources, w.src), rt.slot[i].src), slot3))
  {
    var slot1 := rt.slot[i := w];
    var slot2 := RouteChanged(slot1, i, RouteMetric(rt.slot[i]), rt.sources, env);
    RewrittenKnown(rt, i, w, env, slot2, slot3);
    forall id ensures CountSrc(slot3, id)
                      == CountSrc(rt.slot, id) - (if rt.slot[i].src == id then 1 else 0)
                        + (if w.src == id then 1 else 0) {
      CountOverwrite(rt.slot, i, w, id);
      ChangedCount(slot1, i, RouteMetric(rt.slot[i]), rt.sources, env, id);
      LostCount(slot2, rt.sources, env, id);
    }
    MovedReference(rt, slot3, w.src, rt.slot[i].src);
  }

  /** retain_source of one source and release_source of another, when exactly
      one route has moved from the latter to the former. */
  lemma {:induction false} MovedReference(rt: Router, slot': Slot, to: RouterId, from: RouterId)
    requires CountsOk(rt) && to in rt.sources && from in rt.sources && SourcesKnown(Router(rt.sources, slot'))
    requires forall id ::
        CountSrc(slot', id) == CountSrc(rt.slot, id) - (if from == id then 1 else 0) + (if to == id then 1 else 0)
    ensures CountsOk(Router(ReleaseSource(RetainSource(rt.sources, to), from), slot'))
  {
    var final := ReleaseSource(RetainSource(rt.sources, to), from);
    assert CountSrc(slot', from) >= 0;
    forall id | id in final ensures final[id].routeCount == CountSrc(slot', id) {}
  }

  lemma {:induction false} AppendedCounts(rt: Router, n: Route, env: Env)
    requires SlotOk(rt.slot) && CountsOk(rt) && n.src in rt.sources
    requires FindRoute(rt.slot, n.neigh, n.nexthop) == |rt.slot| && !n.installed && !n.anchored
    ensures var slot' := ConsiderRoute(rt.slot + [n], |rt.slot|, rt.sources, env);
            SlotOk(slot') && CountsOk(Router(RetainSource(rt.sources, n.src), slot'))
  {
    var slot1 := rt.slot + [n];
    AppendOk(rt.slot, n);
    var slot' := ConsiderRoute(slot1, |rt.slot|, rt.sources, env);
    ConsiderKeeps(slot1, |rt.slot|, rt.sources, env);
    ReselectedSources(slot1, slot', rt.sources, env.now, rt.sources.Keys);
    var final := RetainSource(rt.sources, n.src);
    forall id | id in final ensures final[id].routeCount == CountSrc(slot', id) {
      ConsiderCount(slot1, |rt.slot|, rt.sources, env, id);
      assert slot1[..|rt.slot|] == rt.slot;
    }
  }

  /** flush_route keeps them too. */
  lemma {:induction false} FlushKeepsCounts(rt: Router, i: nat, env: Env)
    requires SlotOk(rt.slot) && CountsOk(rt) && i < |rt.slot|
    ensures SlotOk(FlushRoute(rt, i, env).slot)
    ensures CountsOk(FlushRoute(rt, i, env))
    ensures |FlushRoute(rt, i, env).slot| == |rt.slot| - 1
  {
    var slot1 := Removed(rt.slot, i);
    var slot' := FlushRoute(rt, i, env).slot;
    FlushKeepsSlot(rt, i, env);
    forall id ensures CountSrc(slot', id) == CountSrc(rt.slot, id) - (if rt.slot[i].src == id then 1 else 0) {
      CountTakeOut(rt.slot, i, id);
      LostCount(slot1, rt.sources, env, id);
    }
    DroppedReference(rt, slot', rt.slot[i].src);
  }

  lemma {:induction false} FlushKeepsSlot(rt: Router, i: nat, env: Env)
    requires SlotOk(rt.slot) && SourcesKnown(rt) && i < |rt.slot|
    ensures var slot' := FlushRoute(rt, i, env).slot;
            SlotOk(slot') && SourcesKnown(Router(rt.sources, slot')) && |slot'| == |rt.slot| - 1
  {
    var slot1 := Removed(rt.slot, i);
    RemoveOk(rt.slot, i);
    RouteLostKeeps(slot1, rt.sources, env);
    ReselectedSources(slot1, RouteLost(slot1, rt.sources, env), rt.sources, env.now, rt.sources.Keys);
  }

  lemma {:induction false} DroppedReference(rt: Router, slot': Slot, from: RouterId)
    requires CountsOk(rt) && from in rt.sources && SourcesKnown(Router(rt.sources, slot'))
    requires forall id :: CountSrc(slot', id) == CountSrc(rt.slot, id) - (if from == id then 1 else 0)
    ensures CountsOk(Router(ReleaseSource(rt.sources, from), slot'))
  {
    var final := ReleaseSource(rt.sources, from);
    assert CountSrc(slot', from) >= 0;
    forall id | id in final ensures final[id].routeCount == CountSrc(slot', id) {}
  }

  /** No route points at the source. */
  predicate Unused(slot: Slot, id: RouterId) {
    forall i :: 0 <= i < |slot| ==> slot[i].src != id
  }

  lemma {:induction false} CountPositive(slot: Slot, id: RouterId)
    ensures CountSrc(slot, id) == 0 <==> Unused(slot, id)
    decreases |slot|
  {
    if slot != [] {
      var front := slot[..|slot| - 1];
      CountPositive(front, id);
      assert slot == front + [slot[|slot| - 1]];
    }
  }

  /** What the counts are for: a source is freed exactly when no route points at
      it, so that no route is ever left pointing at a source that is gone. */
  lemma {:induction false} FreedWhenUnused(rt: Router, id: RouterId)
    requires CountsOk(rt) && id in rt.sources
    ensures id !in FlushSource(rt.sources, id) <==> Unused(rt.slot, id)
    ensures CountsOk(Router(FlushSource(rt.sources, id), rt.slot))
  {
    CountPositive(rt.slot, id);
  }

  lemma {:induction false} SameSourcesCounts(rt: Router, slot': Slot)
    requires CountsOk(rt) && |slot'| == |rt.slot| && forall i :: 0 <= i < |slot'| ==> slot'[i].src == rt.slot[i].src
    ensures CountsOk(Router(rt.sources, slot'))
  {
    forall id | id in rt.sources ensures rt.sources[id].routeCount == CountSrc(slot', id) {
      CountPointwise(rt.slot, slot', id);
    }
  }

  lemma {:induction false} UninstallKeepsCounts(rt: Router)
    requires SlotOk(rt.slot) && CountsOk(rt)
    ensures SlotOk(UninstallRoute(rt.slot)) && CountsOk(Router(rt.sources, UninstallRoute(rt.slot)))
    ensures forall i :: 0 <= i < |rt.slot| ==> !UninstallRoute(rt.slot)[i].installed
  {
    SameSourcesCounts(rt, UninstallRoute(rt.slot));
    if rt.slot != [] && rt.slot[0].installed {
      OverwriteOk(rt.slot, 0, Uninstalled(rt.slot[0]));
    }
  }

  lemma {:induction false} InstallKeepsCounts(rt: Router, i: nat, env: Env)
    requires SlotOk(rt.slot) && CountsOk(rt) && i < |rt.slot|
    ensures CountsOk(Router(rt.sources, InstallRoute(rt.slot, i, env)))
    ensures CountsOk(Router(rt.sources, SwitchRoutes(rt.slot, i, env)))
  {
    var mid := Replaced(rt.slot, i);
    SameSourcesCounts(rt, mid);
    MovedCounts(Router(rt.sources, mid), i);
    assert InstallRoute(rt.slot, i, env) == rt.slot || InstallRoute(rt.slot, i, env) == MoveToFront(mid, i);
    assert SwitchRoutes(rt.slot, i, env) == rt.slot || SwitchRoutes(rt.slot, i, env) == MoveToFront(mid, i);
  }

  lemma {:induction false} MovedCounts(rt: Router, i: nat)
    requires CountsOk(rt) && i < |rt.slot|
    ensures CountsOk(Router(rt.sources, MoveToFront(rt.slot, i)))
  {
    MovedFrom(rt.slot, i);
    forall id | id in rt.sources ensures rt.sources[id].routeCount == CountSrc(MoveToFront(rt.slot, i), id) {
      CountMoved(rt.slot, i, id);
    }
  }

  /** A selection keeps the slot well formed and the counts exact. */
  lemma {:induction false} SelectionKeepsCounts(rt: Router, i: nat, oldMetric: nat, env: Env)
    requires SlotOk(rt.slot) && CountsOk(rt) && i < |rt.slot|
    ensures var slot' := ConsiderRoute(rt.slot, i, rt.sources, env);
            SlotOk(slot') && CountsOk(Router(rt.sources, slot'))
    ensures var slot' := RouteChanged(rt.slot, i, oldMetric, rt.sources, env);
            SlotOk(slot') && CountsOk(Router(rt.sources, slot'))
    ensures var slot' := RouteLost(rt.slot, rt.sources, env);
            SlotOk(slot') && CountsOk(Router(rt.sources, slot'))
  {
    var now, keys := env.now, rt.sources.Keys;
    ConsiderKeeps(rt.slot, i, rt.sources, env);
    RouteChangedKeeps(rt.slot, i, oldMetric, rt.sources, env);
    RouteLostKeeps(rt.slot, rt.sources, env);
    ReselectedSources(rt.slot, ConsiderRoute(rt.slot, i, rt.sources, env), rt.sources, now, keys);
    ReselectedSources(rt.slot, RouteChanged(rt.slot, i, oldMetric, rt.sources, env), rt.sources, now, keys);
    ReselectedSources(rt.slot, RouteLost(rt.slot, rt.sources, env), rt.sources, now, keys);
    forall id | id in rt.sources
      ensures rt.sources[id].routeCount == CountSrc(ConsiderRoute(rt.slot, i, rt.sources, env), id)
      ensures rt.sources[id].routeCount == CountSrc(RouteChanged(rt.slot, i, oldMetric, rt.sources, env), id)
      ensures rt.sources[id].routeCount == CountSrc(RouteLost(rt.slot, rt.sources, env), id)
    {
      ConsiderCount(rt.slot, i, rt.sources, env, id);
      ChangedCount(rt.slot, i, oldMetric, rt.sources, env, id);
      LostCount(rt.slot, rt.sources, env, id);
    }
  }

  /** Rewriting a route under its own source, then perhaps reselecting. */
  lemma {:induction false} RewriteKeepsCounts(rt: Router, i: nat, w: Route, oldMetric: nat, env: Env)
    requires SlotOk(rt.slot) && CountsOk(rt) && i < |rt.slot| && w.src == rt.slot[i].src
    requires SameKey(w, rt.slot[i].neigh, rt.slot[i].nexthop)
    requires (w.installed ==> rt.slot[i].installed) && (w.anchored ==> w.installed)
    ensures var slot1 := rt.slot[i := w];
            var slot2 := RouteChanged(slot1, i, oldMetric, rt.sources, env);
            && SlotOk(slot1) && CountsOk(Router(rt.sources, slot1))
            && SlotOk(slot2) && CountsOk(Router(rt.sources, slot2))
  {
    OverwriteOk(rt.slot, i, w);
    SameSourcesCounts(rt, rt.slot[i := w]);
    SelectionKeepsCounts(Router(rt.sources, rt.slot[i := w]), i, oldMetric, env);
  }

  /** update_route_metric keeps the slot well formed and every count exact. */
  lemma {:induction false} RefreshKeepsCounts(rt: Router, i: nat, cost: nat, add: nat, env: Env)
    requires SlotOk(rt.slot) && CountsOk(rt) && i < |rt.slot|
    ensures SlotOk(UpdateRouteMetric(rt, i, cost, add, env).slot) && CountsOk(UpdateRouteMetric(rt, i, cost, add, env))
  {
    var r := rt.slot[i];
    if RouteExpired(r, env.now) {
      RewriteKeepsCounts(rt, i, ExpireRoute(r, rt.sources, env), RouteMetric(r), env);
    } else {
      RewriteKeepsCounts(rt, i, ChangeRouteMetric(r, r.refmetric, cost, add, env), RouteMetric(r), env);
    }
  }

  /** So does retracting a route. */
  lemma {:induction false} RetractKeepsCounts(rt: Router, i: nat, env: Env)
    requires SlotOk(rt.slot) && CountsOk(rt) && i < |rt.slot|
    ensures SlotOk(RetractRoute(rt, i, env).slot) && CountsOk(RetractRoute(rt, i, env))
  {
    var r := rt.slot[i];
    RewriteKeepsCounts(rt, i, ChangeRouteMetric(r, INFINITY, INFINITY, 0, env), RouteMetric(r), env);
  }

  // ----- Expiry of sources -----

  /** Whether expire_sources frees the source. */
  predicate Expires(s: Source, now: int) {
    Stale(s, now) && s.routeCount == 0
  }

  /** What it leaves of one that stays: a time in the future is set back. */
  function Clamped(s: Source, now: int): Source {
    if s.time > now then s.(time := now) else s
  }

  function ExpireSources(sources: Sources, now: int): Sources {
    map id | id in sources && !Expires(sources[id], now) :: Clamped(sources[id], now)
  }

  /** expire_sources frees exactly the stale sources no route points at. */
  lemma {:induction false} ExpireKeepsCounts(rt: Router, now: int)
    requires CountsOk(rt)
    ensures CountsOk(Router(ExpireSources(rt.sources, now), rt.slot))
    ensures forall id :: id in rt.sources && id !in ExpireSources(rt.sources, now) <==>
              id in rt.sources && Stale(rt.sources[id], now) && Unused(rt.slot, id)
  {
    forall id | id in rt.sources
      ensures rt.sources[id].routeCount == 0 <==> Unused(rt.slot, id)
    {
      CountPositive(rt.slot, id);
    }
  }
}
