/** retract_neighbour_routes, and which routes through the neighbour escape it. */
module BabelRetract {
  import opened BabelPrefix
  import opened BabelRoute
  import opened BabelRefcount
  import opened BabelTable

  /** A route the loop is to retract. */
  predicate Live(r: Route, neigh: RouterId) {
    r.neigh == neigh && r.refmetric != INFINITY
  }

  predicate NoneLive(slot: Slot, neigh: RouterId) {
    forall k :: 0 <= k < |slot| ==> !Live(slot[k], neigh)
  }

  /** The installed route is to be retracted, and what is installed then is still
      live: the kernel has refused the change, or selection has gone over to another
      route through the neighbour and moved it to the front, behind the loop. */
  predicate Evades(rt: Router, neigh: RouterId, env: Env) {
    rt.slot != [] && rt.slot[0].installed && Live(rt.slot[0], neigh) &&
    var r := rt.slot[0];
    var retracted := rt.slot[0 := ChangeRouteMetric(r, INFINITY, INFINITY, 0, env)];
    || MetricRefused(r, INFINITY, INFINITY, 0, env)
    || Live(RouteChanged(retracted, 0, RouteMetric(r), rt.sources, env)[0], neigh)
  }

  // ----- One route -----

  /** The walk has passed these: of them only an installed one is live. */
  predicate Passed(slot: Slot, k: nat, neigh: RouterId)
    requires k <= |slot|
  {
    forall j :: 0 <= j < k && Live(slot[j], neigh) ==> slot[j].installed
  }

  lemma {:induction false} FoundHere(slot: Slot, k: nat, r: Route)
    requires Distinct(slot) && k < |slot| && SameKey(slot[k], r.neigh, r.nexthop)
    ensures FindRoute(slot, r.neigh, r.nexthop) == k
  {}

  /** The installed route is retracted: the walk goes on behind it. */
  lemma {:induction false} HeadStep(rt: Router, neigh: RouterId, env: Env)
    requires SlotOk(rt.slot) && rt.slot != [] && rt.slot[0].installed && Live(rt.slot[0], neigh)
    ensures var slot', r := RetractRoute(rt, 0, env).slot, rt.slot[0];
            var p := FindRoute(slot', r.neigh, r.nexthop);
            && p < |slot'| == |rt.slot| && SlotOk(slot') && slot'[0].installed && Passed(slot', p + 1, neigh)
            && (Live(slot'[0], neigh) <==> Evades(rt, neigh, env))
  {
    var r := rt.slot[0];
    var r1 := ChangeRouteMetric(r, INFINITY, INFINITY, 0, env);
    var slot1, slot' := rt.slot[0 := r1], RetractRoute(rt, 0, env).slot;
    OverwriteOk(rt.slot, 0, r1);
    RouteChangedKeeps(slot1, 0, RouteMetric(r), rt.sources, env);
    var b := FindBestRoute(slot1, rt.sources, env.now);
    if slot' == slot1 {
      FoundHere(slot', 0, r);
    } else {
      assert slot' == SwitchRoutes(slot1, b, env);
      assert slot'[1] == Uninstalled(r1);
      FoundHere(slot', 1, r);
    }
  }

  /** Another route is retracted: the walk goes on behind it, or starts again at
      the second when nothing was installed and the retracted route now is. */
  lemma {:induction false} OtherStep(rt: Router, k: nat, neigh: RouterId, env: Env)
    requires SlotOk(rt.slot) && k < |rt.slot| && !rt.slot[k].installed && Live(rt.slot[k], neigh)
    requires Passed(rt.slot, k, neigh)
    ensures var slot', r := RetractRoute(rt, k, env).slot, rt.slot[k];
            var p := FindRoute(slot', r.neigh, r.nexthop);
            && p < |slot'| == |rt.slot| && SlotOk(slot') && Passed(slot', p + 1, neigh)
            && (rt.slot[0].installed ==> slot'[0] == rt.slot[0] && p == k)
            && (!rt.slot[0].installed ==> !Live(slot'[0], neigh) && (p == k || slot'[0].installed))
  {
    var r := rt.slot[k];
    var r1 := ChangeRouteMetric(r, INFINITY, INFINITY, 0, env);
    var slot1, slot' := rt.slot[k := r1], RetractRoute(rt, k, env).slot;
    OverwriteOk(rt.slot, k, r1);
    RouteChangedKeeps(slot1, k, RouteMetric(r), rt.sources, env);
    if slot' == slot1 {
      FoundHere(slot', k, r);
    } else {
      assert slot' == InstallRoute(slot1, k, env);
      FoundHere(slot', 0, r);
    }
  }

  // ----- The routes not retracted -----

  /** Every route through another neighbour is still there, changed at most in being
      installed. */
  predicate Spared(a: Slot, b: Slot, neigh: RouterId) {
    forall k {:trigger Holds(b, a[k])} :: 0 <= k < |a| && a[k].neigh != neigh ==> Holds(b, a[k])
  }

  lemma {:induction false} SparedSelf(a: Slot, neigh: RouterId)
    ensures Spared(a, a, neigh)
  {
    KeptSelf(a, (n, h) => n == neigh);
  }

  lemma {:induction false} SparedTransitive(a: Slot, b: Slot, c: Slot, neigh: RouterId)
    requires Spared(a, b, neigh) && Spared(b, c, neigh)
    ensures Spared(a, c, neigh)
  {
    forall k | 0 <= k < |a| && a[k].neigh != neigh ensures Holds(c, a[k]) {
      assert Holds(b, a[k]);
      var j :| 0 <= j < |b| && Uninstalled(b[j]) == Uninstalled(a[k]);
      assert b[j].neigh == Uninstalled(b[j]).neigh == Uninstalled(a[k]).neigh == a[k].neigh;
      assert Holds(c, b[j]);
    }
  }

  lemma {:induction false} RetractSpares(rt: Router, k: nat, neigh: RouterId, env: Env)
    requires SlotOk(rt.slot) && k < |rt.slot| && rt.slot[k].neigh == neigh
    ensures Spared(rt.slot, RetractRoute(rt, k, env).slot, neigh)
  {
    var r := rt.slot[k];
    var r1 := ChangeRouteMetric(r, INFINITY, INFINITY, 0, env);
    var slot1, slot' := rt.slot[k := r1], RetractRoute(rt, k, env).slot;
    OverwriteOk(rt.slot, k, r1);
    RouteChangedKeeps(slot1, k, RouteMetric(r), rt.sources, env);
    ReselectedSelf(slot1, rt.sources, env.now);
    ReselectedSelf(rt.slot, rt.sources, env.now);
    forall j | 0 <= j < |rt.slot| && rt.slot[j].neigh != neigh ensures Holds(slot', rt.slot[j]) {
      if slot' == rt.slot {
        assert Uninstalled(slot'[j]) == Uninstalled(rt.slot[j]);
      } else {
        assert slot1[j] == rt.slot[j];
        assert Into(slot1[j], slot', rt.sources, env.now);
      }
    }
  }

  // ----- One slot -----

  function RouterIn(slots: seq<TableSlot>, srcs: map<Dest, Sources>, i: nat): Router
    requires i < |slots|
  {
    Router(SourcesAt(srcs, slots[i].dest), slots[i].routes)
  }

  /** Nothing but the routes of the i-th slot differs. */
  predicate OnlySlot(slots: seq<TableSlot>, slots': seq<TableSlot>, i: nat) {
    && |slots'| == |slots| && i < |slots|
    && slots'[i].dest == slots[i].dest && |slots'[i].routes| == |slots[i].routes|
    && (forall j :: 0 <= j < |slots| && j != i ==> slots'[j] == slots[j])
  }

  /** What the walk knows of the head: at the start nothing has changed, later the
      head is live exactly when the installed route has evaded. */
  ghost predicate HeadKnown(rt: Router, k: nat, neigh: RouterId, rt0: Router, env0: Env) {
    rt.slot != [] && if k == 0 then rt == rt0 else Live(rt.slot[0], neigh) <==> Evades(rt0, neigh, env0)
  }

  /** One retraction; the walk goes on behind the route, wherever it now stands. */
  lemma {:induction false} StepKnown(rt: Router, k: nat, neigh: RouterId, env: Env, rt0: Router, env0: Env)
    requires SlotOk(rt.slot) && k < |rt.slot| && Live(rt.slot[k], neigh) && Passed(rt.slot, k, neigh)
    requires HeadKnown(rt, k, neigh, rt0, env0) && (k == 0 ==> env == env0)
    ensures var rt', r := RetractRoute(rt, k, env), rt.slot[k];
            var next := FindRoute(rt'.slot, r.neigh, r.nexthop) + 1;
            && next <= |rt'.slot| == |rt.slot| && SlotOk(rt'.slot) && Passed(rt'.slot, next, neigh)
            && HeadKnown(rt', next, neigh, rt0, env0)
            && Turns(rt'.slot) <= Turns(rt.slot) && (next > k || Turns(rt'.slot) < Turns(rt.slot))
  {
    if rt.slot[k].installed {
      HeadStep(rt, neigh, env);
    } else {
      OtherStep(rt, k, neigh, env);
    }
  }

  /** How often the walk may still start again. */
  function Turns(slot: Slot): nat {
    if slot != [] && slot[0].installed then 0 else 1
  }

  /** Where the walk along a slot stands, having begun with rt0. */
  ghost predicate Walked(rt: Router, k: nat, neigh: RouterId, rt0: Router, env0: Env) {
    && k <= |rt.slot| && Passed(rt.slot, k, neigh) && Spared(rt0.slot, rt.slot, neigh)
    && HeadKnown(rt, k, neigh, rt0, env0)
  }

  /** One retraction in the table; next is where the walk goes on. */
  method RetractNext(table: RouteTable, i: nat, k: nat, neigh: RouterId, env: Env, ghost rt0: Router, ghost env0: Env)
    returns (next: nat)
    requires table.Valid() && i < |table.slots| && k < |table.slots[i].routes| && (k == 0 ==> env == env0)
    requires Live(table.slots[i].routes[k], neigh)
    requires Walked(RouterIn(table.slots, table.srcs, i), k, neigh, rt0, env0)
    modifies table
    ensures table.Valid() && table.srcs == old(table.srcs) && OnlySlot(old(table.slots), table.slots, i)
    ensures Walked(RouterIn(table.slots, table.srcs, i), next, neigh, rt0, env0) && next > 0
    ensures var was, now := old(table.slots)[i].routes, table.slots[i].routes;
            Turns(now) <= Turns(was) && (next > k || Turns(now) < Turns(was))
  {
    var r := table.slots[i].routes[k];
    ghost var rt := RouterIn(table.slots, table.srcs, i);
    StepKnown(rt, k, neigh, env, rt0, env0);
    RetractSpares(rt, k, neigh, env);
    SparedTransitive(rt0.slot, rt.slot, RetractRoute(rt, k, env).slot, neigh);
    table.Retract(i, k, env);
    next := table.FindRouteIn(i, r.neigh, r.nexthop);
    next := next + 1;
  }

  /** The walk along one slot.  It terminates although a retraction may move a route
      to the front; routes through other neighbours are spared; and a route through
      the neighbour stays live if and only if the installed one evades. */
  method RetractSlot(table: RouteTable, i: nat, neigh: RouterId, envs: nat -> Env)
    requires table.Valid() && i < |table.slots|
    modifies table
    ensures table.Valid() && table.srcs == old(table.srcs) && OnlySlot(old(table.slots), table.slots, i)
    ensures Spared(old(table.slots)[i].routes, table.slots[i].routes, neigh)
    ensures NoneLive(table.slots[i].routes, neigh) <==>
              !Evades(RouterIn(old(table.slots), old(table.srcs), i), neigh, envs(0))
  {
    var k, turn := 0, 0;
    ghost var rt0 := RouterIn(table.slots, table.srcs, i);
    SparedSelf(rt0.slot, neigh);
    while k < |table.slots[i].routes|
      invariant table.Valid() && table.srcs == old(table.srcs) && OnlySlot(old(table.slots), table.slots, i)
      invariant 0 <= k && 0 <= turn && (k == 0 ==> turn == 0)
      invariant Walked(RouterIn(table.slots, table.srcs, i), k, neigh, rt0, envs(0))
      decreases Turns(table.slots[i].routes), |table.slots[i].routes| - k
    {
      if Live(table.slots[i].routes[k], neigh) {
        k := RetractNext(table, i, k, neigh, envs(turn), rt0, envs(0));
        turn := turn + 1;
      } else {
        k := k + 1;
      }
    }
  }

  // ----- The whole table -----

  /** What the loop leaves of one slot: the index is advanced twice, so that every
      other slot is skipped. */
  ghost predicate Done(slots: seq<TableSlot>, slots': seq<TableSlot>, srcs: map<Dest, Sources>, j: nat,
                       neigh: RouterId, envs: (nat, nat) -> Env)
    requires |slots'| == |slots| && j < |slots|
  {
    if j % 2 == 1 then slots'[j] == slots[j]
    else
      && slots'[j].dest == slots[j].dest && Spared(slots[j].routes, slots'[j].routes, neigh)
      && (NoneLive(slots'[j].routes, neigh) <==> !Evades(RouterIn(slots, srcs, j), neigh, envs(j, 0)))
  }

  /** The table has no finite route through the neighbour. */
  predicate Retracted(slots: seq<TableSlot>, neigh: RouterId) {
    forall j :: 0 <= j < |slots| ==> NoneLive(slots[j].routes, neigh)
  }

  /** The condition for that, on the table before: nothing to retract in the slots
      that are skipped, and nothing that evades in the others. */
  predicate Retractable(slots: seq<TableSlot>, srcs: map<Dest, Sources>, neigh: RouterId, envs: (nat, nat) -> Env) {
    forall j :: 0 <= j < |slots| ==>
      if j % 2 == 1 then NoneLive(slots[j].routes, neigh) else !Evades(RouterIn(slots, srcs, j), neigh, envs(j, 0))
  }

  /** retract_neighbour_routes, whatever the kernel answers each time: the table
      stays valid, and no finite route through the neighbour is left if and only if
      there was none in the slots skipped and none evades in the others. */
  method RetractNeighbourRoutes(table: RouteTable, neigh: RouterId, envs: (nat, nat) -> Env)
    requires table.Valid()
    modifies table
    ensures table.Valid() && table.srcs == old(table.srcs) && |table.slots| == |old(table.slots)|
    ensures forall j :: 0 <= j < |table.slots| ==>
              Done(old(table.slots), table.slots, table.srcs, j, neigh, envs)
    ensures Retracted(table.slots, neigh) <==> Retractable(old(table.slots), table.srcs, neigh, envs)
  {
    var i := 0;
    while i < |table.slots|
      invariant 0 <= i && i % 2 == 0 && table.Valid() && table.srcs == old(table.srcs)
      invariant |table.slots| == |old(table.slots)|
      invariant forall j :: 0 <= j < i && j < |table.slots| ==>
                  Done(old(table.slots), table.slots, table.srcs, j, neigh, envs)
      invariant forall j :: i <= j < |table.slots| ==> table.slots[j] == old(table.slots)[j]
    {
      ghost var before := table.slots;
      RetractSlot(table, i, neigh, (turn: nat) => envs(i, turn));
      forall j | 0 <= j < i + 2 && j < |table.slots|
        ensures Done(old(table.slots), table.slots, table.srcs, j, neigh, envs)
      {
        if j < i {
          assert Done(old(table.slots), before, table.srcs, j, neigh, envs);
        }
      }
      i := i + 1;
      i := i + 1;
    }
    RetractedExactly(old(table.slots), table.slots, table.srcs, neigh, envs);
  }

  lemma {:induction false} RetractedExactly(slots: seq<TableSlot>, slots': seq<TableSlot>, srcs: map<Dest, Sources>,
                                            neigh: RouterId, envs: (nat, nat) -> Env)
    requires |slots'| == |slots|
    requires forall j :: 0 <= j < |slots| ==> Done(slots, slots', srcs, j, neigh, envs)
    ensures Retracted(slots', neigh) <==> Retractable(slots, srcs, neigh, envs)
  {
    forall j | 0 <= j < |slots|
      ensures NoneLive(slots'[j].routes, neigh) <==>
                if j % 2 == 1 then NoneLive(slots[j].routes, neigh)
                else !Evades(RouterIn(slots, srcs, j), neigh, envs(j, 0))
    {
      assert Done(slots, slots', srcs, j, neigh, envs);
    }
  }

  // ----- A route that evades -----

  function Through(nexthop: nat, cost: nat, installed: bool): Route {
    Route(0, 1, 10, cost, 0, 7, nexthop, 0, 15, installed, installed, true)
  }

  /** Two routes through one neighbour by different next hops, and a kernel that
      refuses nothing: the second takes the place of the first and stays live. */
  lemma {:induction false} SecondRouteEvades()
    ensures var rt := Router(map[0 := Source(1, 20, 0, 2)], [Through(1, 10, true), Through(2, 20, false)]);
            SlotOk(rt.slot) && CountsOk(rt) && Evades(rt, 7, Env(0, false, true, true))
  {
    var rt := Router(map[0 := Source(1, 20, 0, 2)], [Through(1, 10, true), Through(2, 20, false)]);
    var env := Env(0, false, true, true);
    var slot1 := rt.slot[0 := ChangeRouteMetric(rt.slot[0], INFINITY, INFINITY, 0, env)];
    assert slot1[..1] == [slot1[0]] && FindBestRoute([slot1[0]], rt.sources, 0) == 0;
    assert FindBestRoute(slot1, rt.sources, 0) == 1;
    assert RouteChanged(slot1, 0, 20, rt.sources, env) == SwitchRoutes(slot1, 1, env);
    assert CountSrc(rt.slot, 0) == 2 by {
      assert rt.slot[..1] == [rt.slot[0]] && rt.slot[..1][..0] == [];
    }
  }
}
