/** What route selection chooses: when the installed route gives way to another, to
    which, and when a destination is left without one. */
module BabelSelect {
  import opened BabelSeqno
  import opened BabelRoute

  /** Worth giving up the installed route for: finite, and at least 64 shorter
      unless the installed one is infinite. */
  predicate Worth(r: Route, installed: Route) {
    && RouteMetric(r) < INFINITY
    && (RouteMetric(installed) >= INFINITY || RouteMetric(r) + 64 <= RouteMetric(installed))
  }

  /** The same routes with the same fields, in the same order but for route i, which
      now stands at the head, and it alone is installed. */
  predicate TakesOver(slot: Slot, slot': Slot, i: nat)
    requires i < |slot|
  {
    && |slot'| == |slot|
    && slot'[0].installed && Uninstalled(slot'[0]) == Uninstalled(slot[i])
    && (forall k :: 0 < k < |slot| ==>
          !slot'[k].installed && Uninstalled(slot'[k]) == Uninstalled(slot[Before(i, k)]))
  }

  /** Whether consider_route is to install the route. */
  predicate Deserves(slot: Slot, i: nat, sources: Sources, env: Env)
    requires i < |slot|
  {
    && !slot[i].installed && RouteFeasible(sources, slot[i], env.now) && !env.xrouteWins
    && (slot[0].installed ==> Worth(slot[i], slot[0]))
  }

  lemma {:induction false} ReplacedTakesOver(slot: Slot, i: nat)
    requires i < |slot| && HeadOnly(slot) && !slot[i].installed
    ensures TakesOver(slot, MoveToFront(Replaced(slot, i), i), i)
  {
    MovedFrom(Replaced(slot, i), i);
  }

  /** consider_route: a feasible route that no exported route outranks takes over
      where nothing is installed or where it is worth it, if the kernel agrees;
      otherwise nothing changes. */
  lemma {:induction false} ConsiderExactly(slot: Slot, i: nat, sources: Sources, env: Env)
    requires i < |slot| && SlotOk(slot)
    ensures var slot' := ConsiderRoute(slot, i, sources, env);
            if Deserves(slot, i, sources, env) && env.installOk then TakesOver(slot, slot', i) else slot' == slot
  {
    var slot' := ConsiderRoute(slot, i, sources, env);
    if Deserves(slot, i, sources, env) && env.installOk {
      assert slot' == MoveToFront(Replaced(slot, i), i);
      ReplacedTakesOver(slot, i);
    }
  }

  // ----- A change of the installed route -----

  /** The route with that neighbour and next hop. */
  function Entry(slot: Slot, r: Route): Route
    requires FindRoute(slot, r.neigh, r.nexthop) < |slot|
  {
    slot[FindRoute(slot, r.neigh, r.nexthop)]
  }

  predicate Present(slot: Slot, r: Route) {
    FindRoute(slot, r.neigh, r.nexthop) < |slot|
  }

  lemma {:induction false} EntryAt(slot: Slot, k: nat, r: Route)
    requires Distinct(slot) && k < |slot| && SameKey(slot[k], r.neigh, r.nexthop)
    ensures Present(slot, r) && Entry(slot, r) == slot[k]
  {}

  /** From one slot to the next the installed route, if there is one, stays or gives
      way to one worth it. */
  predicate Steady(slot: Slot, slot': Slot) {
    slot != [] && slot[0].installed ==>
      && slot' != [] && slot'[0].installed && Present(slot', slot[0])
      && Uninstalled(Entry(slot', slot[0])) == Uninstalled(slot[0])
      && (slot'[0] == slot[0] || Worth(slot'[0], slot[0]))
  }

  lemma {:induction false} ConsiderSteady(slot: Slot, i: nat, sources: Sources, env: Env)
    requires i < |slot| && SlotOk(slot)
    ensures Steady(slot, ConsiderRoute(slot, i, sources, env))
  {
    var slot' := ConsiderRoute(slot, i, sources, env);
    ConsiderExactly(slot, i, sources, env);
    ConsiderKeeps(slot, i, sources, env);
    if slot[0].installed {
      var k := if slot' == slot then 0 else 1;
      assert slot' != slot ==> i > 0 && Before(i, 1) == 0;
      EntryAt(slot', k, slot[0]);
    }
  }

  lemma {:induction false} ChangedSteady(slot: Slot, i: nat, oldMetric: nat, sources: Sources, env: Env)
    requires i < |slot| && SlotOk(slot)
    ensures Steady(slot, RouteChanged(slot, i, oldMetric, sources, env))
  {
    var slot' := RouteChanged(slot, i, oldMetric, sources, env);
    if slot' == slot {
      if slot[0].installed {
        EntryAt(slot, 0, slot[0]);
      }
    } else if slot[i].installed {
      ConsiderSteady(slot, FindBestRoute(slot, sources, env.now), sources, env);
    } else {
      ConsiderSteady(slot, i, sources, env);
    }
  }

  /** The shortest of those selection may choose from. */
  predicate Shortest(r: Route, slot: Slot, sources: Sources, now: int) {
    forall j :: 0 <= j < |slot| && Eligible(slot[j], sources, now) ==> RouteMetric(r) <= RouteMetric(slot[j])
  }

  /** Some eligible route is at least that much shorter than the given metric. */
  predicate Shorter(slot: Slot, sources: Sources, now: int, metric: nat, gap: nat) {
    exists j :: 0 <= j < |slot| && Eligible(slot[j], sources, now) && RouteMetric(slot[j]) + gap <= metric
  }

  /** route_changed for the installed route: it gives way exactly when it has become
      longer and an eligible route is at least 96 shorter, unless an exported route
      outranks that or the kernel refuses; the route that takes over is then one of
      the shortest eligible.  Otherwise nothing changes. */
  lemma {:induction false} InstalledChanged(slot: Slot, oldMetric: nat, sources: Sources, env: Env)
    requires slot != [] && SlotOk(slot) && slot[0].installed
    ensures var slot' := RouteChanged(slot, 0, oldMetric, sources, env);
            var m := RouteMetric(slot[0]);
            if m > oldMetric && Shorter(slot, sources, env.now, m, 96) && !env.xrouteWins && env.installOk
            then
              && slot'[0].installed && !SameKey(slot'[0], slot[0].neigh, slot[0].nexthop)
              && Eligible(slot'[0], sources, env.now) && Shortest(slot'[0], slot, sources, env.now)
            else slot' == slot
  {
    var b := FindBestRoute(slot, sources, env.now);
    var slot' := RouteChanged(slot, 0, oldMetric, sources, env);
    ConsiderExactly(slot, b, sources, env);
    if Shorter(slot, sources, env.now, RouteMetric(slot[0]), 96) {
      var j :| && 0 <= j < |slot| && Eligible(slot[j], sources, env.now)
               && RouteMetric(slot[j]) + 96 <= RouteMetric(slot[0]);
      assert RouteMetric(slot[b]) + 96 <= RouteMetric(slot[0]) && b > 0;
    } else if b > 0 {
      assert Eligible(slot[b], sources, env.now);
    }
  }

  // ----- The loss of the installed route -----

  /** route_lost, with nothing installed: find_best_route takes the head as a
      candidate whatever it is, so that a route is installed exactly when the head is
      feasible or an eligible route is strictly shorter than the head, unless an
      exported route outranks it or the kernel refuses.  It is then feasible and no
      eligible route is shorter.  Otherwise nothing changes. */
  lemma {:induction false} LostExactly(slot: Slot, sources: Sources, env: Env)
    requires slot != [] && SlotOk(slot) && !slot[0].installed
    ensures var slot' := RouteLost(slot, sources, env);
            if && (RouteFeasible(sources, slot[0], env.now)
                   || Shorter(slot, sources, env.now, RouteMetric(slot[0]), 1))
               && !env.xrouteWins && env.installOk
            then
              && slot'[0].installed && RouteFeasible(sources, slot'[0], env.now)
              && Shortest(slot'[0], slot, sources, env.now)
            else slot' == slot
  {
    var b := FindBestRoute(slot, sources, env.now);
    ConsiderExactly(slot, b, sources, env);
    if b > 0 {
      assert Eligible(slot[b], sources, env.now) && RouteMetric(slot[b]) + 1 <= RouteMetric(slot[0]);
    }
  }

  function Held(neigh: RouterId, refmetric: nat, cost: nat): Route {
    Route(0, 1, refmetric, cost, 0, neigh, 0, 0, 15, false, false, true)
  }

  /** A destination left without a route although a feasible one is there: the head
      is unfeasible and not longer. */
  lemma {:induction false} Stranded()
    ensures var sources := map[0 := Source(1, 20, 0, 2)];
            var slot := [Held(1, 30, 10), Held(2, 10, 100)];
            var env := Env(0, false, true, true);
            && SlotOk(slot) && Eligible(slot[1], sources, 0) && RouteMetric(slot[1]) < INFINITY
            && RouteLost(slot, sources, env) == slot && !slot[0].installed && !slot[1].installed
  {
    var sources := map[0 := Source(1, 20, 0, 2)];
    var slot := [Held(1, 30, 10), Held(2, 10, 100)];
    LostExactly(slot, sources, Env(0, false, true, true));
  }

  // ----- update_route -----

  /** The sources update_route tests against, and its verdict. */
  function SourcesFor(rt: Router, u: Update, now: int): (s: Sources)
    ensures u.id in s
  {
    FindSource(rt.sources, u.id, u.seqno, now)
  }

  predicate Passes(rt: Router, u: Update, now: int) {
    UpdateFeasible(SourcesFor(rt, u, now)[u.id], u.seqno, u.refmetric, now)
  }

  /** What the entry of the update holds: the update, and its metric unless the
      kernel has refused the change; the clock is noted only for a finite update that
      is feasible or kept regardless. */
  predicate Stores(r: Route, was: Route, u: Update, cost: nat, add: nat, refused: bool, noted: bool, now: int) {
    && (r.src, r.seqno, r.neigh, r.nexthop) == (u.id, u.seqno, u.neigh, u.nexthop)
    && (r.refmetric, r.cost, r.addMetric)
       == (if refused then (was.refmetric, was.cost, was.addMetric) else (u.refmetric, cost, add))
    && r.time == (if noted then now else was.time)
    && r.holdTime == Max(4 * u.interval / 100 + u.interval / 50, 15)
  }

  /** The update is stored in the entry, which takes over exactly when it is feasible
      and worth it (or nothing is installed), no exported route outranks it and the
      kernel agrees. */
  predicate Adopted(rt: Router, slot': Slot, was: Route, u: Update, cost: nat, add: nat, noted: bool, env: Env) {
    && Present(slot', was)
    && var e, metric := Entry(slot', was), u.refmetric + cost + add;
       && e.heard && Stores(e, was, u, cost, add, false, noted, env.now)
       && (e.installed <==>
             && Passes(rt, u, env.now) && !env.xrouteWins && env.installOk
             && (rt.slot != [] && rt.slot[0].installed ==>
                   && metric < INFINITY
                   && (RouteMetric(rt.slot[0]) >= INFINITY || metric + 64 <= RouteMetric(rt.slot[0]))))
  }

  predicate SameButAt(slot: Slot, slot': Slot, i: nat) {
    |slot'| == |slot| && forall j :: 0 <= j < |slot| && j != i ==> slot'[j] == slot[j]
  }

  /** The update reaches a route that is not installed. */
  lemma {:induction false} UpdateOther(rt: Router, myid: RouterId, u: Update, cost: nat, add: nat, keep: bool, env: Env)
    requires SlotOk(rt.slot) && u.id != myid && add < INFINITY
    requires var i := FindRoute(rt.slot, u.neigh, u.nexthop);
             i < |rt.slot| && !rt.slot[i].installed
    ensures var i, slot' := FindRoute(rt.slot, u.neigh, u.nexthop), UpdateRoute(rt, myid, u, cost, add, keep, env).slot;
            && Adopted(rt, slot', rt.slot[i], u, cost, add,
                       u.refmetric < INFINITY && (keep || Passes(rt, u, env.now)), env)
            && (!Entry(slot', rt.slot[i]).installed ==> SameButAt(rt.slot, slot', i))
  {
    var i, sources := FindRoute(rt.slot, u.neigh, u.nexthop), SourcesFor(rt, u, env.now);
    var w := RewriteRoute(rt.slot[i], u, cost, add, Passes(rt, u, env.now), keep, env);
    var slot1 := rt.slot[i := w];
    OverwriteOk(rt.slot, i, w);
    assert UpdateRoute(rt, myid, u, cost, add, keep, env).slot == ConsiderRoute(slot1, i, sources, env);
    Considered(slot1, i, sources, env);
  }

  /** The update is for a route the router does not have: a retraction, and an
      unfeasible one not to be kept, change nothing; any other is adopted. */
  lemma {:induction false} UpdateNew(rt: Router, myid: RouterId, u: Update, cost: nat, add: nat, keep: bool, env: Env)
    requires SlotOk(rt.slot) && u.id != myid && add < INFINITY
    requires FindRoute(rt.slot, u.neigh, u.nexthop) == |rt.slot|
    ensures var slot', n := UpdateRoute(rt, myid, u, cost, add, keep, env).slot, NewRoute(u, cost, add, env.now);
            if u.refmetric < INFINITY && (keep || Passes(rt, u, env.now))
            then
              && Adopted(rt, slot', n, u, cost, add, true, env)
              && (!Entry(slot', n).installed ==> slot' == rt.slot + [n])
            else slot' == rt.slot
  {
    if u.refmetric < INFINITY && (keep || Passes(rt, u, env.now)) {
      var n, sources := NewRoute(u, cost, add, env.now), SourcesFor(rt, u, env.now);
      AppendOk(rt.slot, n);
      Considered(rt.slot + [n], |rt.slot|, sources, env);
    }
  }

  lemma {:induction false} Considered(slot: Slot, i: nat, sources: Sources, env: Env)
    requires i < |slot| && SlotOk(slot) && !slot[i].installed
    ensures var slot' := ConsiderRoute(slot, i, sources, env);
            && Present(slot', slot[i]) && Uninstalled(Entry(slot', slot[i])) == Uninstalled(slot[i])
            && (Entry(slot', slot[i]).installed <==> Deserves(slot, i, sources, env) && env.installOk)
            && (!Entry(slot', slot[i]).installed ==> slot' == slot)
  {
    var slot' := ConsiderRoute(slot, i, sources, env);
    ConsiderExactly(slot, i, sources, env);
    ConsiderKeeps(slot, i, sources, env);
    EntryAt(slot', if slot' == slot then i else 0, slot[i]);
  }

  /** Whether the update makes the installed route give up at once: it is unfeasible
      and from another source. */
  predicate Disowned(rt: Router, u: Update, now: int)
    requires rt.slot != []
  {
    !Passes(rt, u, now) && u.id != rt.slot[0].src
  }

  /** The update reaches the installed route and does not make it give up: it is
      stored, and the route gives way exactly when it has become longer and an
      eligible route is at least 96 shorter than it now is, to one of the shortest
      eligible, unless an exported route outranks that or the kernel refuses. */
  lemma {:induction false} UpdateInstalled(rt: Router, myid: RouterId, u: Update, cost: nat, add: nat, keep: bool,
                                           env: Env)
    requires SlotOk(rt.slot) && u.id != myid && add < INFINITY
    requires rt.slot != [] && rt.slot[0].installed && SameKey(rt.slot[0], u.neigh, u.nexthop)
    requires !Disowned(rt, u, env.now)
    ensures var r, slot' := rt.slot[0], UpdateRoute(rt, myid, u, cost, add, keep, env).slot;
            var sources, rest := SourcesFor(rt, u, env.now), rt.slot[1..];
            && Present(slot', r) && slot'[0].installed
            && Stores(Entry(slot', r), r, u, cost, add, MetricRefused(r, u.refmetric, cost, add, env),
                      u.refmetric < INFINITY && (keep || Passes(rt, u, env.now)), env.now)
            && var m := RouteMetric(Entry(slot', r));
               if m > RouteMetric(r) && Shorter(rest, sources, env.now, m, 96) && !env.xrouteWins && env.installOk
               then
                 && !Entry(slot', r).installed && Eligible(slot'[0], sources, env.now)
                 && Shortest(slot'[0], rest, sources, env.now)
               else Entry(slot', r).installed && slot'[1..] == rest
  {
    var r, sources := rt.slot[0], SourcesFor(rt, u, env.now);
    var w := RewriteRoute(r, u, cost, add, Passes(rt, u, env.now), keep, env);
    assert FindRoute(rt.slot, u.neigh, u.nexthop) == 0;
    var slot' := UpdateRoute(rt, myid, u, cost, add, keep, env).slot;
    assert slot' == RouteChanged(rt.slot[0 := w], 0, RouteMetric(r), sources, env);
    RewrittenStores(rt, u, cost, add, keep, env);
    InstalledRewritten(rt.slot, w, sources, env);
  }

  lemma {:induction false} RewrittenStores(rt: Router, u: Update, cost: nat, add: nat, keep: bool, env: Env)
    requires rt.slot != [] && rt.slot[0].installed && SameKey(rt.slot[0], u.neigh, u.nexthop)
    requires !Disowned(rt, u, env.now)
    ensures var w := RewriteRoute(rt.slot[0], u, cost, add, Passes(rt, u, env.now), keep, env);
            && w.installed
            && Stores(w, rt.slot[0], u, cost, add, MetricRefused(rt.slot[0], u.refmetric, cost, add, env),
                      u.refmetric < INFINITY && (keep || Passes(rt, u, env.now)), env.now)
  {}

  lemma {:induction false} InstalledRewritten(slot: Slot, w: Route, sources: Sources, env: Env)
    requires SlotOk(slot) && slot != [] && slot[0].installed && w.installed
    requires SameKey(w, slot[0].neigh, slot[0].nexthop)
    ensures var slot', m := RouteChanged(slot[0 := w], 0, RouteMetric(slot[0]), sources, env), RouteMetric(w);
            && Present(slot', slot[0]) && slot'[0].installed
            && Uninstalled(Entry(slot', slot[0])) == Uninstalled(w)
            && if m > RouteMetric(slot[0]) && Shorter(slot[1..], sources, env.now, m, 96)
                  && !env.xrouteWins && env.installOk
               then
                 && !Entry(slot', slot[0]).installed && Eligible(slot'[0], sources, env.now)
                 && Shortest(slot'[0], slot[1..], sources, env.now)
               else Entry(slot', slot[0]).installed && slot'[1..] == slot[1..]
  {
    var slot1, was := slot[0 := w], RouteMetric(slot[0]);
    var slot' := RouteChanged(slot1, 0, was, sources, env);
    OverwriteOk(slot, 0, w);
    InstalledChanged(slot1, was, sources, env);
    ChangedSteady(slot1, 0, was, sources, env);
    RouteChangedKeeps(slot1, 0, was, sources, env);
    assert slot1[1..] == slot[1..];
    ShorterRest(slot1, sources, env.now, RouteMetric(w), 96);
    assert forall j :: 0 <= j < |slot| - 1 ==> slot[1..][j] == slot1[j + 1];
    EntryInstalled(slot', w);
  }

  lemma {:induction false} ShorterRest(slot: Slot, sources: Sources, now: int, metric: nat, gap: nat)
    requires slot != [] && (RouteMetric(slot[0]) + gap > metric || !Eligible(slot[0], sources, now))
    ensures Shorter(slot, sources, now, metric, gap) <==> Shorter(slot[1..], sources, now, metric, gap)
  {
    var rest := slot[1..];
    if Shorter(slot, sources, now, metric, gap) {
      var j :| 0 <= j < |slot| && Eligible(slot[j], sources, now) && RouteMetric(slot[j]) + gap <= metric;
      assert rest[j - 1] == slot[j];
    }
    if Shorter(rest, sources, now, metric, gap) {
      var j :| 0 <= j < |rest| && Eligible(rest[j], sources, now) && RouteMetric(rest[j]) + gap <= metric;
      assert slot[j + 1] == rest[j];
    }
  }

  lemma {:induction false} EntryInstalled(slot: Slot, r: Route)
    requires SlotOk(slot) && slot != [] && slot[0].installed && Present(slot, r)
    ensures Entry(slot, r).installed <==> SameKey(slot[0], r.neigh, r.nexthop)
  {}

  /** The update makes the installed route give up: it is stored there, and another
      route takes over exactly when it is eligible and strictly shorter than the
      unfeasible one; a feasible route that is not shorter leaves the destination
      without a route. */
  lemma {:induction false} UpdateDisowned(rt: Router, myid: RouterId, u: Update, cost: nat, add: nat, keep: bool,
                                          env: Env)
    requires SlotOk(rt.slot) && u.id != myid && add < INFINITY
    requires rt.slot != [] && rt.slot[0].installed && SameKey(rt.slot[0], u.neigh, u.nexthop)
    requires Disowned(rt, u, env.now)
    ensures var r, slot' := rt.slot[0], UpdateRoute(rt, myid, u, cost, add, keep, env).slot;
            var sources, rest := SourcesFor(rt, u, env.now), rt.slot[1..];
            && Present(slot', r) && !Entry(slot', r).installed
            && Stores(Entry(slot', r), r, u, cost, add, false, u.refmetric < INFINITY && keep, env.now)
            && (slot'[0].installed <==>
                  Shorter(rest, sources, env.now, RouteMetric(Entry(slot', r)), 1) && !env.xrouteWins && env.installOk)
            && (slot'[0].installed ==> RouteFeasible(sources, slot'[0], env.now)
                                       && Shortest(slot'[0], rest, sources, env.now))
  {
    var r, sources := rt.slot[0], SourcesFor(rt, u, env.now);
    var w := RewriteRoute(r, u, cost, add, false, keep, env);
    var slot1 := rt.slot[0 := w];
    assert FindRoute(rt.slot, u.neigh, u.nexthop) == 0;
    OverwriteOk(rt.slot, 0, w);
    assert !RouteFeasible(sources, w, env.now);
    assert RouteChanged(slot1, 0, RouteMetric(r), sources, env) == slot1;
    var slot' := UpdateRoute(rt, myid, u, cost, add, keep, env).slot;
    assert slot' == RouteLost(slot1, sources, env);
    LostExactly(slot1, sources, env);
    RouteLostKeeps(slot1, sources, env);
    ShorterRest(slot1, sources, env.now, RouteMetric(w), 1);
    assert forall j :: 0 <= j < |rt.slot| - 1 ==> rt.slot[1..][j] == slot1[j + 1];
    HeadKept(slot1, slot', sources, env.now);
  }

  /** The head of an uninstalled slot, if unfeasible, is not what selection installs. */
  lemma {:induction false} HeadKept(slot: Slot, slot': Slot, sources: Sources, now: int)
    requires slot != [] && SlotOk(slot) && SlotOk(slot') && Reselected(slot, slot', sources, now)
    requires !slot[0].installed && !RouteFeasible(sources, slot[0], now)
    ensures Present(slot', slot[0]) && Entry(slot', slot[0]) == slot[0].(anchored := false)
  {
    assert Into(slot[0], slot', sources, now);
    var k :| 0 <= k < |slot'| && Became(slot[0], slot'[k], sources, now);
    assert slot'[k].neigh == Uninstalled(slot'[k]).neigh && slot'[k].nexthop == Uninstalled(slot'[k]).nexthop;
    EntryAt(slot', k, slot[0]);
  }

  /** update_route as a whole: the installed route stays, or gives way to one worth
      it, unless the update makes it give up. */
  lemma {:induction false} UpdateSteady(rt: Router, myid: RouterId, u: Update, cost: nat, add: nat, keep: bool,
                                        env: Env)
    requires SlotOk(rt.slot) && rt.slot != [] && rt.slot[0].installed
    requires u.id == myid || add >= INFINITY || !SameKey(rt.slot[0], u.neigh, u.nexthop) || !Disowned(rt, u, env.now)
    ensures var r, slot' := rt.slot[0], UpdateRoute(rt, myid, u, cost, add, keep, env).slot;
            && Present(slot', r) && slot' != [] && slot'[0].installed
            && (Entry(slot', r).installed || Worth(slot'[0], Entry(slot', r)))
            && (!SameKey(r, u.neigh, u.nexthop) ==> Uninstalled(Entry(slot', r)) == Uninstalled(r))
  {
    var r, i := rt.slot[0], FindRoute(rt.slot, u.neigh, u.nexthop);
    var slot', sources := UpdateRoute(rt, myid, u, cost, add, keep, env).slot, SourcesFor(rt, u, env.now);
    if slot' == rt.slot {
      EntryAt(slot', 0, r);
    } else if i < |rt.slot| {
      var w := RewriteRoute(rt.slot[i], u, cost, add, Passes(rt, u, env.now), keep, env);
      var slot1 := rt.slot[i := w];
      OverwriteOk(rt.slot, i, w);
      assert slot' == RouteChanged(slot1, i, RouteMetric(rt.slot[i]), sources, env);
      ChangedSteady(slot1, i, RouteMetric(rt.slot[i]), sources, env);
      RouteChangedKeeps(slot1, i, RouteMetric(rt.slot[i]), sources, env);
      SteadyEntry(slot1, slot');
    } else {
      var n := NewRoute(u, cost, add, env.now);
      var slot1 := rt.slot + [n];
      AppendOk(rt.slot, n);
      assert slot' == ConsiderRoute(slot1, |rt.slot|, sources, env);
      ConsiderSteady(slot1, |rt.slot|, sources, env);
      ConsiderKeeps(slot1, |rt.slot|, sources, env);
      SteadyEntry(slot1, slot');
    }
  }

  lemma {:induction false} SteadyEntry(slot: Slot, slot': Slot)
    requires slot != [] && slot[0].installed && SlotOk(slot') && Steady(slot, slot')
    ensures var o := Entry(slot', slot[0]);
            o.installed || Worth(slot'[0], o)
  {}

  /** An update of the router's own, or one the input filter refuses, changes nothing. */
  lemma {:induction false} UpdateIgnored(rt: Router, myid: RouterId, u: Update, cost: nat, add: nat, keep: bool,
                                         env: Env)
    requires u.id == myid || add >= INFINITY
    ensures UpdateRoute(rt, myid, u, cost, add, keep, env) == rt
  {}

  // ----- The other changes of a route -----

  /** A route's metric has changed, its entry now being w: an installed route gives way
      as in UpdateInstalled, another takes over as in UpdateOther. */
  predicate Settled(slot: Slot, slot': Slot, i: nat, w: Route, sources: Sources, env: Env)
    requires i < |slot|
  {
    && Present(slot', slot[i]) && Uninstalled(Entry(slot', slot[i])) == Uninstalled(w)
    && if slot[i].installed
       then
         if RouteMetric(w) > RouteMetric(slot[i])
            && Shorter(Removed(slot, i), sources, env.now, RouteMetric(w), 96) && !env.xrouteWins && env.installOk
         then
           && !Entry(slot', slot[i]).installed && slot'[0].installed && Eligible(slot'[0], sources, env.now)
           && Shortest(slot'[0], Removed(slot, i), sources, env.now)
         else Entry(slot', slot[i]).installed && SameButAt(slot, slot', i)
       else
         && (Entry(slot', slot[i]).installed <==>
               && RouteFeasible(sources, w, env.now) && !env.xrouteWins && env.installOk
               && (slot[0].installed ==> Worth(w, slot[0])))
         && (!Entry(slot', slot[i]).installed ==> SameButAt(slot, slot', i))
  }

  lemma {:induction false} ChangedSettles(slot: Slot, i: nat, w: Route, sources: Sources, env: Env)
    requires SlotOk(slot) && i < |slot| && SameKey(w, slot[i].neigh, slot[i].nexthop)
    requires w.installed == slot[i].installed && (w.anchored ==> w.installed)
    ensures Settled(slot, RouteChanged(slot[i := w], i, RouteMetric(slot[i]), sources, env), i, w, sources, env)
  {
    if slot[i].installed {
      assert Removed(slot, 0) == slot[1..];
      InstalledRewritten(slot, w, sources, env);
      var slot' := RouteChanged(slot[0 := w], 0, RouteMetric(slot[0]), sources, env);
      if slot'[1..] == slot[1..] {
        assert |slot'| == |slot| && forall j :: 0 < j < |slot| ==> slot'[j] == slot'[1..][j - 1] == slot[j];
      }
    } else {
      OverwriteOk(slot, i, w);
      Considered(slot[i := w], i, sources, env);
    }
  }

  /** A change of the neighbour's cost, for a route that has not expired: the cost and
      the filter's surplus are stored unless the kernel refuses, and the route settles
      if its metric is another. */
  lemma {:induction false} RefreshExactly(rt: Router, i: nat, cost: nat, add: nat, env: Env)
    requires SlotOk(rt.slot) && i < |rt.slot| && !RouteExpired(rt.slot[i], env.now)
    ensures var r := rt.slot[i];
            var w := if MetricRefused(r, r.refmetric, cost, add, env) then r else r.(cost := cost, addMetric := add);
            var rt' := UpdateRouteMetric(rt, i, cost, add, env);
            && rt'.sources == rt.sources
            && if RouteMetric(w) == RouteMetric(r) then rt'.slot == rt.slot[i := w]
               else Settled(rt.slot, rt'.slot, i, w, rt.sources, env)
  {
    var r := rt.slot[i];
    ChangedSettles(rt.slot, i, ChangeRouteMetric(r, r.refmetric, cost, add, env), rt.sources, env);
  }

  /** A route that has expired: it is retracted under the seqno after its source's,
      unless the kernel refuses the change of metric. */
  lemma {:induction false} ExpiryExactly(rt: Router, i: nat, cost: nat, add: nat, env: Env)
    requires SlotOk(rt.slot) && i < |rt.slot| && RouteExpired(rt.slot[i], env.now) && rt.slot[i].src in rt.sources
    ensures var r, rt' := rt.slot[i], UpdateRouteMetric(rt, i, cost, add, env);
            && rt'.sources == rt.sources
            && if r.refmetric >= INFINITY then rt' == rt
               else
                 && Present(rt'.slot, r)
                 && var e := Entry(rt'.slot, r);
                    && e.seqno == rt.sources[r.src].seqno + 1 && e.src == r.src
                    && (e.refmetric, e.cost, e.addMetric)
                       == (if MetricRefused(r, INFINITY, INFINITY, 0, env)
                           then (r.refmetric, r.cost, r.addMetric) else (INFINITY, INFINITY, 0))
                    && (RouteMetric(r) < INFINITY ==>
                          Settled(rt.slot, rt'.slot, i, ExpireRoute(r, rt.sources, env), rt.sources, env))
  {
    var r := rt.slot[i];
    if r.refmetric < INFINITY {
      var w := ExpireRoute(r, rt.sources, env);
      ChangedSettles(rt.slot, i, w, rt.sources, env);
      if RouteMetric(r) >= INFINITY {
        EntryAt(rt.slot[i := w], i, r);
      }
    }
  }

  /** A retraction: the metric becomes infinite unless the kernel refuses, and the route
      settles. */
  lemma {:induction false} RetractExactly(rt: Router, i: nat, env: Env)
    requires SlotOk(rt.slot) && i < |rt.slot|
    ensures var r, rt' := rt.slot[i], RetractRoute(rt, i, env);
            var w := if MetricRefused(r, INFINITY, INFINITY, 0, env) then r
                     else r.(refmetric := INFINITY, cost := INFINITY, addMetric := 0);
            && rt'.sources == rt.sources
            && if r.refmetric == INFINITY then rt' == rt
               else if RouteMetric(r) == INFINITY then rt'.slot == rt.slot[i := w]
               else Settled(rt.slot, rt'.slot, i, w, rt.sources, env)
  {
    var r := rt.slot[i];
    ChangedSettles(rt.slot, i, ChangeRouteMetric(r, INFINITY, INFINITY, 0, env), rt.sources, env);
  }

  /** A route flushed: the others stay; if it was installed another takes over exactly as
      after any loss. */
  lemma {:induction false} FlushExactly(rt: Router, i: nat, env: Env)
    requires SlotOk(rt.slot) && i < |rt.slot|
    ensures var rest, slot' := Removed(rt.slot, i), FlushRoute(rt, i, env).slot;
            if !rt.slot[i].installed || rest == [] then slot' == rest
            else if && (RouteFeasible(rt.sources, rest[0], env.now)
                        || Shorter(rest, rt.sources, env.now, RouteMetric(rest[0]), 1))
                    && !env.xrouteWins && env.installOk
            then
              && |slot'| == |rest| && slot'[0].installed && RouteFeasible(rt.sources, slot'[0], env.now)
              && Shortest(slot'[0], rest, rt.sources, env.now)
            else slot' == rest
  {
    var rest := Removed(rt.slot, i);
    RemoveOk(rt.slot, i);
    if rt.slot[i].installed && rest != [] {
      assert !rest[0].installed;
      LostExactly(rest, rt.sources, env);
      RouteLostKeeps(rest, rt.sources, env);
    }
  }

  // ----- The feasibility distance, stale or not -----

  /** An update passes if the source has not been heard of for over 200 seconds, if it is
      a retraction, or if it is strictly better than the distance. */
  lemma {:induction false} FeasibleExactly(s: Source, seqno: nat, metric: nat, now: int)
    requires Close(seqno, s.seqno)
    ensures UpdateFeasible(s, seqno, metric, now) <==>
              || s.time + 200 < now || metric >= 65535
              || seqno > s.seqno || (seqno == s.seqno && metric < s.metric)
  {
    CloseCompare(seqno, s.seqno);
  }

  /** An announcement replaces a stale distance, whatever it is, and a fresh one by a
      better; a finite one keeps the source fresh. */
  lemma {:induction false} SourceExactly(s: Source, seqno: nat, metric: nat, now: int)
    requires Close(seqno, s.seqno)
    ensures var t := UpdateSource(s, seqno, metric, now);
            && t.routeCount == s.routeCount
            && t.time == (if metric < 65535 then now else s.time)
            && (t.seqno, t.metric)
               == if metric < 65535
                     && (s.time + 200 < now || seqno > s.seqno || (seqno == s.seqno && metric < s.metric))
                  then (seqno, metric) else (s.seqno, s.metric)
  {
    CloseCompare(seqno, s.seqno);
    CloseCompare(s.seqno, seqno);
  }

  // ----- Metrics and times -----

  /** The kernel is asked only when an installed route becomes finite or infinite. */
  lemma {:induction false} MetricRefusedExactly(r: Route, refmetric: nat, cost: nat, add: nat, env: Env)
    ensures var w := r.(refmetric := refmetric, cost := cost, addMetric := add);
            MetricRefused(r, refmetric, cost, add, env) <==>
              r.installed && !env.metricOk && (RouteMetric(r) == 65535) != (RouteMetric(w) == 65535)
  {}

  /** A route's metric adds up and saturates; over an interface it does not interfere
      with, its cost counts by the diversity factor in 256ths, rounded to the nearest,
      and never for nothing. */
  lemma {:induction false} MetricsExactly(r: Route, factor: nat)
    ensures var m := r.refmetric + r.cost + r.addMetric;
            RouteMetric(r) == if m >= 65535 then 65535 else m
    ensures var m := RouteMetricNoninterfering(r, factor);
            && m <= 65535
            && (r.refmetric < 65535 ==> m > r.refmetric)
            && (m < 65535 && m > r.refmetric + 1 ==>
                  -128 <= 256 * (m - r.refmetric - r.addMetric) - factor * r.cost <= 128)
            && (factor == 256 && r.cost > 0 ==> m == RouteMetric(r))
  {
    var x := factor * r.cost + 128;
    assert 256 * (x / 256) <= x < 256 * (x / 256) + 256;
    if factor == 256 {
      assert x / 256 == r.cost;
    }
  }

  /** A route lives through six of its neighbour's update intervals (given in hundredths
      of a second) less two seconds, and at least fifteen seconds, from the last update
      that counted. */
  lemma {:induction false} HeardNotExpired(r: Route, interval: nat, now: int)
    requires r.holdTime == HoldTime(interval)
    requires now - r.time <= 15 || 100 * (now - r.time) <= 6 * interval - 200
    ensures !RouteExpired(r, now)
  {}

  /** And no longer than that. */
  lemma {:induction false} SilentExpires(r: Route, interval: nat, now: int)
    requires r.holdTime == HoldTime(interval)
    requires now - r.time > 15 && 100 * (now - r.time) > 6 * interval
    ensures RouteExpired(r, now)
  {}
}
