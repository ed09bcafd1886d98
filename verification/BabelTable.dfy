/** babeld's routing table: an array of slots kept sorted by destination, each
    slot the routes to one destination with the installed one first, and the
    sources the routes point at. */
module BabelTable {
  import opened Wrappers
  import opened BabelPrefix
  import opened BabelRoute
  import opened BabelRefcount

  datatype TableSlot = TableSlot(dest: Dest, routes: Slot)

  /** Strictly increasing destinations. */
  predicate Sorted(slots: seq<TableSlot>) {
    forall i, j {:trigger CompareDest(slots[i].dest, slots[j].dest)} ::
      0 <= i < j < |slots| ==> CompareDest(slots[i].dest, slots[j].dest) < 0
  }

  predicate SlotsOk(slots: seq<TableSlot>) {
    forall i :: 0 <= i < |slots| ==> slots[i].routes != [] && SlotOk(slots[i].routes)
  }

  /** The table as a map: the routes to a destination. */
  function SlotAt(slots: seq<TableSlot>, d: Dest): Slot {
    if slots == [] then []
    else if slots[|slots| - 1].dest == d then slots[|slots| - 1].routes
    else SlotAt(slots[..|slots| - 1], d)
  }

  function SourcesAt(srcs: map<Dest, Sources>, d: Dest): Sources {
    if d in srcs then srcs[d] else map[]
  }

  function Total(slots: seq<TableSlot>): nat {
    if slots == [] then 0 else Total(slots[..|slots| - 1]) + |slots[|slots| - 1].routes|
  }

  // ----- The sorted array refines the map -----

  lemma {:induction false} FoundAt(slots: seq<TableSlot>, i: nat)
    requires Sorted(slots) && i < |slots|
    ensures SlotAt(slots, slots[i].dest) == slots[i].routes
    decreases |slots|
  {
    var n := |slots| - 1;
    if i < n {
      CompareDestOrder(slots[i].dest, slots[n].dest);
      FoundAt(slots[..n], i);
    }
  }

  lemma {:induction false} NotFound(slots: seq<TableSlot>, d: Dest)
    requires forall i :: 0 <= i < |slots| ==> slots[i].dest != d
    ensures SlotAt(slots, d) == []
    decreases |slots|
  {
    if slots != [] {
      NotFound(slots[..|slots| - 1], d);
    }
  }

  lemma {:induction false} TotalConcat(a: seq<TableSlot>, b: seq<TableSlot>)
    ensures Total(a + b) == Total(a) + Total(b)
    decreases |b|
  {
    if b == [] {
      assert a + b == a;
    } else {
      assert (a + b)[..|a + b| - 1] == a + b[..|b| - 1];
      TotalConcat(a, b[..|b| - 1]);
    }
  }

  lemma {:induction false} SlotAtPresent(slots: seq<TableSlot>, d: Dest) returns (i: nat)
    requires SlotAt(slots, d) != []
    ensures i < |slots| && slots[i].dest == d && slots[i].routes == SlotAt(slots, d)
    decreases |slots|
  {
    var n := |slots| - 1;
    if slots[n].dest == d {
      i := n;
    } else {
      i := SlotAtPresent(slots[..n], d);
    }
  }

  /** Storing a new list of routes under an existing slot. */
  function Store(slots: seq<TableSlot>, i: nat, routes: Slot): seq<TableSlot>
    requires i < |slots|
  {
    if routes == [] then slots[..i] + slots[i + 1..] else slots[i := slots[i].(routes := routes)]
  }

  lemma {:induction false} StoreTwice(slots: seq<TableSlot>, i: nat, a: Slot, b: Slot)
    requires i < |slots| && a != []
    ensures Store(Store(slots, i, a), i, b) == Store(slots, i, b)
  {}

  lemma {:induction false} StoreSorted(slots: seq<TableSlot>, i: nat, routes: Slot)
    requires Sorted(slots) && SlotsOk(slots) && i < |slots| && SlotOk(routes)
    ensures Sorted(Store(slots, i, routes)) && SlotsOk(Store(slots, i, routes))
  {
    var s := Store(slots, i, routes);
    if routes == [] {
      assert forall k :: 0 <= k < |s| ==> s[k] == slots[if k < i then k else k + 1];
    } else {
      assert forall k :: 0 <= k < |s| ==> s[k].dest == slots[k].dest;
    }
  }

  /** Two sorted arrays that hold the same slot for d, or neither of them one. */
  lemma {:induction false} SameSlotAt(a: seq<TableSlot>, b: seq<TableSlot>, d: Dest)
    requires Sorted(a) && Sorted(b)
    requires forall k :: 0 <= k < |a| && a[k].dest == d ==> a[k] in b
    requires forall k :: 0 <= k < |b| && b[k].dest == d ==> b[k] in a
    ensures SlotAt(a, d) == SlotAt(b, d)
  {
    if k :| 0 <= k < |a| && a[k].dest == d {
      FoundAt(a, k);
      var j :| 0 <= j < |b| && b[j] == a[k];
      FoundAt(b, j);
    } else {
      NotFound(a, d);
      NotFound(b, d);
    }
  }

  lemma {:induction false} StoreMembers(slots: seq<TableSlot>, i: nat, routes: Slot)
    requires i < |slots|
    ensures var s := Store(slots, i, routes);
            && (forall k :: 0 <= k < |slots| && k != i ==> slots[k] in s)
            && (forall k :: 0 <= k < |s| && (routes == [] || k != i) ==>
              s[k] in slots && s[k] in slots[..i] + slots[i + 1..])
            && (routes != [] ==> s[i] == slots[i].(routes := routes))
  {
    var s := Store(slots, i, routes);
    var rest := slots[..i] + slots[i + 1..];
    forall k | 0 <= k < |slots| && k != i ensures slots[k] in s {
      assert slots[k] == s[if routes == [] && k > i then k - 1 else k];
    }
    forall k | 0 <= k < |s| && (routes == [] || k != i) ensures s[k] in slots && s[k] in rest {
      var j := if routes == [] && k >= i then k + 1 else k;
      assert s[k] == slots[j];
      assert rest[if j < i then j else j - 1] == slots[j];
    }
  }

  /** Storing changes what the map holds at that destination and nowhere else. */
  lemma {:induction false} StoreUpdates(slots: seq<TableSlot>, i: nat, routes: Slot, d: Dest)
    requires Sorted(slots) && SlotsOk(slots) && i < |slots| && SlotOk(routes)
    ensures SlotAt(Store(slots, i, routes), d) == if d == slots[i].dest then routes else SlotAt(slots, d)
  {
    var s := Store(slots, i, routes);
    StoreSorted(slots, i, routes);
    StoreMembers(slots, i, routes);
    if d != slots[i].dest {
      SameSlotAt(slots, s, d);
    } else if routes != [] {
      FoundAt(s, i);
    } else {
      OthersDiffer(slots, i);
      forall k | 0 <= k < |s| ensures s[k].dest != d {
        assert s[k] in slots[..i] + slots[i + 1..];
      }
      NotFound(s, d);
    }
  }

  /** insert_route's new slot. */
  function Insert(slots: seq<TableSlot>, n: nat, e: TableSlot): seq<TableSlot>
    requires n <= |slots|
  {
    slots[..n] + [e] + slots[n..]
  }

  /** The place find_route_slot returns for a destination it does not find. */
  predicate Gap(slots: seq<TableSlot>, n: nat, d: Dest) {
    && n <= |slots|
    && (forall k {:trigger CompareDest(slots[k].dest, d)} :: 0 <= k < n ==> CompareDest(slots[k].dest, d) < 0)
    && (forall k {:trigger CompareDest(d, slots[k].dest)} :: n <= k < |slots| ==> CompareDest(d, slots[k].dest) < 0)
  }

  lemma {:induction false} InsertSorted(slots: seq<TableSlot>, n: nat, e: TableSlot)
    requires Sorted(slots) && SlotsOk(slots) && Gap(slots, n, e.dest) && e.routes != [] && SlotOk(e.routes)
    ensures Sorted(Insert(slots, n, e)) && SlotsOk(Insert(slots, n, e))
  {
    var s := Insert(slots, n, e);
    assert forall k :: 0 <= k < |s| ==> s[k] == if k < n then slots[k] else if k == n then e else slots[k - 1];
  }

  lemma {:induction false} GapAbsent(slots: seq<TableSlot>, n: nat, d: Dest)
    requires Gap(slots, n, d)
    ensures forall k :: 0 <= k < |slots| ==> slots[k].dest != d
    ensures SlotAt(slots, d) == []
  {
    CompareDestOrder(d, d);
    NotFound(slots, d);
  }

  lemma {:induction false} InsertUpdates(slots: seq<TableSlot>, n: nat, e: TableSlot, d: Dest)
    requires Sorted(slots) && SlotsOk(slots) && Gap(slots, n, e.dest) && e.routes != [] && SlotOk(e.routes)
    ensures SlotAt(Insert(slots, n, e), d) == if d == e.dest then e.routes else SlotAt(slots, d)
  {
    var s := Insert(slots, n, e);
    InsertSorted(slots, n, e);
    assert s[n] == e;
    if d == e.dest {
      FoundAt(s, n);
    } else {
      assert forall k :: 0 <= k < |slots| ==> slots[k] == s[if k < n then k else k + 1];
      forall k | 0 <= k < |s| && s[k].dest == d ensures s[k] in slots {
        assert s[k] == slots[if k < n then k else k - 1];
      }
      SameSlotAt(slots, s, d);
    }
  }

  lemma {:induction false} OthersDiffer(slots: seq<TableSlot>, i: nat)
    requires Sorted(slots) && i < |slots|
    ensures forall k :: 0 <= k < |slots| && k != i ==> slots[k].dest != slots[i].dest
  {
    forall k | 0 <= k < |slots| && k != i ensures slots[k].dest != slots[i].dest {
      CompareDestOrder(slots[k].dest, slots[i].dest);
    }
  }

  /** Every destination's sources count its routes exactly. */
  ghost predicate AllCounted(slots: seq<TableSlot>, srcs: map<Dest, Sources>) {
    forall d :: CountsOk(Router(SourcesAt(srcs, d), SlotAt(slots, d)))
  }

  class RouteTable {
    var slots: seq<TableSlot>
    var srcs: map<Dest, Sources>

    ghost predicate Valid()
      reads this
    {
      TableOk(slots, srcs)
    }

    /** The table's content for one destination, as the selection functions see it. */
    ghost function RouterAt(d: Dest): Router
      reads this
    {
      Router(SourcesAt(srcs, d), SlotAt(slots, d))
    }

    constructor ()
      ensures Valid() && slots == [] && srcs == map[]
    {
      slots, srcs := [], map[];
    }

    /** find_route_slot: binary search.  When the destination is absent, n is
        where its slot belongs. */
    method FindRouteSlot(d: Dest) returns (i: int, n: nat)
      requires Sorted(slots)
      ensures -1 <= i < |slots|
      ensures i >= 0 ==> slots[i].dest == d && SlotAt(slots, d) == slots[i].routes
      ensures i < 0 ==> Gap(slots, n, d) && SlotAt(slots, d) == []
    {
      if |slots| < 1 {
        return -1, 0;
      }
      var p, g := 0, |slots| - 1;
      while p <= g
        invariant 0 <= p <= g + 1 <= |slots|
        invariant forall k {:trigger CompareDest(slots[k].dest, d)} :: 0 <= k < p ==> CompareDest(slots[k].dest, d) < 0
        invariant forall k {:trigger CompareDest(d, slots[k].dest)} :: g < k < |slots| ==>
                  CompareDest(d, slots[k].dest) < 0
        decreases g - p
      {
        var m := (p + g) / 2;
        var c := CompareDest(d, slots[m].dest);
        CompareDestOrder(d, slots[m].dest);
        if c == 0 {
          FoundAt(slots, m);
          return m, 0;
        } else if c < 0 {
          BelowMiddle(slots, d, m);
          g := m - 1;
        } else {
          AboveMiddle(slots, d, m);
          p := m + 1;
        }
      }
      GapAbsent(slots, p, d);
      return -1, p;
    }

    /** find_route: the list walk within a slot. */
    method FindRouteIn(i: nat, neigh: RouterId, nexthop: nat) returns (k: nat)
      requires i < |slots|
      ensures k == FindRoute(slots[i].routes, neigh, nexthop)
    {
      var rs := slots[i].routes;
      k := 0;
      while k < |rs| && !SameKey(rs[k], neigh, nexthop)
        invariant 0 <= k <= |rs|
        invariant k + FindRoute(rs[k..], neigh, nexthop) == FindRoute(rs, neigh, nexthop)
      {
        assert rs[k..][1..] == rs[k + 1..];
        k := k + 1;
      }
    }

    /** find_installed_route. */
    method FindInstalledRoute(d: Dest) returns (r: Option<Route>)
      requires Valid()
      ensures r.Some? ==> r.value.installed && r.value in SlotAt(slots, d)
      ensures r.None? ==> forall k :: 0 <= k < |SlotAt(slots, d)| ==> !SlotAt(slots, d)[k].installed
    {
      var i, _ := FindRouteSlot(d);
      if i >= 0 && slots[i].routes[0].installed {
        return Some(slots[i].routes[0]);
      }
      return None;
    }

    /** find_best_route. */
    method FindBestIn(i: nat, now: int) returns (b: nat)
      requires i < |slots| && slots[i].routes != []
      ensures b == FindBestRoute(slots[i].routes, SourcesAt(srcs, slots[i].dest), now)
    {
      var rs, sources := slots[i].routes, SourcesAt(srcs, slots[i].dest);
      b := 0;
      var k := 1;
      while k < |rs|
        invariant 1 <= k <= |rs|
        invariant b == FindBestRoute(rs[..k], sources, now)
      {
        assert rs[..k + 1][..k] == rs[..k];
        if Eligible(rs[k], sources, now) && RouteMetric(rs[k]) < RouteMetric(rs[b]) {
          b := k;
        }
        k := k + 1;
      }
      assert rs[..k] == rs;
    }

    /** Overwrites the routes of one slot in place. */
    method Put(i: nat, routes: Slot)
      requires i < |slots| && routes != []
      modifies `slots
      ensures slots == Store(old(slots), i, routes)
    {
      slots := slots[i := slots[i].(routes := routes)];
    }

    /** move_installed_route. */
    method MoveInstalledRoute(i: nat, k: nat)
      requires i < |slots| && k < |slots[i].routes|
      modifies `slots
      ensures slots == Store(old(slots), i, MoveToFront(old(slots)[i].routes, k))
    {
      var rs := slots[i].routes;
      if k > 0 {
        Put(i, [rs[k]] + rs[..k] + rs[k + 1..]);
      } else {
        assert MoveToFront(rs, 0) == rs;
      }
    }

    /** install_route. */
    method Install(i: nat, k: nat, env: Env)
      requires i < |slots| && k < |slots[i].routes|
      modifies `slots
      ensures slots == Store(old(slots), i, InstallRoute(old(slots)[i].routes, k, env))
      ensures old(Valid()) ==> Valid()
    {
      InstallKeepsTable(slots, srcs, i, k, env);
      var rs := slots[i].routes;
      if rs[k].installed || (k != 0 && rs[0].installed) || !env.installOk {
        return;
      }
      Put(i, rs[k := Installed(rs[k])]);
      MoveInstalledRoute(i, k);
    }

    /** switch_routes. */
    method Switch(i: nat, k: nat, env: Env)
      requires i < |slots| && k < |slots[i].routes|
      modifies `slots
      ensures slots == Store(old(slots), i, SwitchRoutes(old(slots)[i].routes, k, env))
      ensures old(Valid()) ==> Valid()
    {
      InstallKeepsTable(slots, srcs, i, k, env);
      var rs := slots[i].routes;
      if !rs[0].installed || !env.installOk {
        return;
      }
      Put(i, rs[0 := Uninstalled(rs[0])][k := Installed(rs[k])]);
      MoveInstalledRoute(i, k);
    }

    /** consider_route. */
    method Consider(i: nat, k: nat, env: Env)
      requires i < |slots| && k < |slots[i].routes|
      modifies `slots
      ensures slots
              == Store(old(slots), i, ConsiderRoute(old(slots)[i].routes, k, SourcesAt(srcs, old(slots)[i].dest), env))
      ensures old(Valid()) ==> Valid()
    {
      SelectionKeepsTable(slots, srcs, i, k, 0, env);
      var rs := slots[i].routes;
      if rs[k].installed || !RouteFeasible(SourcesAt(srcs, slots[i].dest), rs[k], env.now) || env.xrouteWins {
        return;
      }
      if !rs[0].installed {
        Install(i, k, env);
      } else if RouteMetric(rs[k]) >= INFINITY {
        return;
      } else if RouteMetric(rs[0]) >= INFINITY || RouteMetric(rs[0]) >= RouteMetric(rs[k]) + 64 {
        Switch(i, k, env);
      }
    }

    /** route_changed. */
    method Changed(i: nat, k: nat, oldMetric: nat, env: Env)
      requires i < |slots| && k < |slots[i].routes|
      modifies `slots
      ensures slots == Store(old(slots), i,
                             RouteChanged(old(slots)[i].routes, k, oldMetric, SourcesAt(srcs, old(slots)[i].dest), env))
      ensures old(Valid()) ==> Valid()
    {
      SelectionKeepsTable(slots, srcs, i, k, oldMetric, env);
      var rs := slots[i].routes;
      if rs[k].installed {
        if RouteMetric(rs[k]) > oldMetric {
          var b := FindBestIn(i, env.now);
          if RouteMetric(rs[b]) <= RouteMetric(rs[k]) - 96 {
            Consider(i, b, env);
          }
        }
      } else {
        Consider(i, k, env);
      }
    }

    /** route_lost. */
    method Lost(i: nat, env: Env)
      requires i < |slots| && slots[i].routes != []
      modifies `slots
      ensures slots == Store(old(slots), i, RouteLost(old(slots)[i].routes, SourcesAt(srcs, old(slots)[i].dest), env))
      ensures old(Valid()) ==> Valid()
    {
      SelectionKeepsTable(slots, srcs, i, 0, 0, env);
      var b := FindBestIn(i, env.now);
      Consider(i, b, env);
    }

    /** uninstall_route on the installed route of a destination, if there is one. */
    method Uninstall(d: Dest)
      requires Valid()
      modifies this
      ensures Valid() && srcs == old(srcs)
      ensures SlotAt(slots, d) == UninstallRoute(old(SlotAt(slots, d)))
      ensures forall k :: 0 <= k < |SlotAt(slots, d)| ==> !SlotAt(slots, d)[k].installed
      ensures forall d' :: d' != d ==> RouterAt(d') == old(RouterAt(d'))
    {
      Counted(slots, srcs, d);
      UninstallKeepsCounts(RouterAt(d));
      var i, n := FindRouteSlot(d);
      if i >= 0 && slots[i].routes[0].installed {
        StoreKeepsTable(slots, srcs, i, UninstallRoute(slots[i].routes));
        Put(i, slots[i].routes[0 := Uninstalled(slots[i].routes[0])]);
      }
    }

    /** update_route_metric on the k-th route of the i-th slot. */
    method Refresh(i: nat, k: nat, cost: nat, add: nat, env: Env)
      requires Valid() && i < |slots| && k < |slots[i].routes|
      modifies this
      ensures Valid() && srcs == old(srcs)
      ensures var d := old(slots)[i].dest;
              && old(RouterAt(d)).slot == old(slots)[i].routes
              && RouterAt(d) == UpdateRouteMetric(old(RouterAt(d)), k, cost, add, env)
      ensures forall d' :: d' != old(slots)[i].dest ==> RouterAt(d') == old(RouterAt(d'))
    {
      FoundAt(slots, i);
      Counted(slots, srcs, slots[i].dest);
      RefreshKeepsCounts(RouterAt(slots[i].dest), k, cost, add, env);
      StoreKeepsTable(slots, srcs, i, UpdateRouteMetric(RouterAt(slots[i].dest), k, cost, add, env).slot);
      RefreshAt(i, k, cost, add, env);
    }

    /** The writes update_route_metric makes. */
    method RefreshAt(i: nat, k: nat, cost: nat, add: nat, env: Env)
      requires i < |slots| && k < |slots[i].routes|
      modifies `slots
      ensures var rt := Router(SourcesAt(srcs, old(slots)[i].dest), old(slots)[i].routes);
              slots == Store(old(slots), i, UpdateRouteMetric(rt, k, cost, add, env).slot)
    {
      var rs, sources := slots[i].routes, SourcesAt(srcs, slots[i].dest);
      var r := rs[k];
      if RouteExpired(r, env.now) {
        if r.refmetric < INFINITY {
          Put(i, rs[k := ExpireRoute(r, sources, env)]);
          if RouteMetric(r) < INFINITY {
            Changed(i, k, RouteMetric(r), env);
          }
        }
      } else {
        Put(i, rs[k := ChangeRouteMetric(r, r.refmetric, cost, add, env)]);
        if RouteMetric(slots[i].routes[k]) != RouteMetric(r) {
          Changed(i, k, RouteMetric(r), env);
        }
      }
    }

    /** One route of retract_neighbour_routes. */
    method Retract(i: nat, k: nat, env: Env)
      requires Valid() && i < |slots| && k < |slots[i].routes|
      modifies this
      ensures Valid() && srcs == old(srcs)
      ensures var d := old(slots)[i].dest;
              && old(RouterAt(d)).slot == old(slots)[i].routes
              && RouterAt(d) == RetractRoute(old(RouterAt(d)), k, env)
              && slots == Store(old(slots), i, RetractRoute(old(RouterAt(d)), k, env).slot)
      ensures forall d' :: d' != old(slots)[i].dest ==> RouterAt(d') == old(RouterAt(d'))
    {
      FoundAt(slots, i);
      Counted(slots, srcs, slots[i].dest);
      RetractKeepsCounts(RouterAt(slots[i].dest), k, env);
      StoreKeepsTable(slots, srcs, i, RetractRoute(RouterAt(slots[i].dest), k, env).slot);
      RetractAt(i, k, env);
    }

    method RetractAt(i: nat, k: nat, env: Env)
      requires i < |slots| && k < |slots[i].routes|
      modifies `slots
      ensures var rt := Router(SourcesAt(srcs, old(slots)[i].dest), old(slots)[i].routes);
              slots == Store(old(slots), i, RetractRoute(rt, k, env).slot)
    {
      var r := slots[i].routes[k];
      if r.refmetric != INFINITY {
        Put(i, slots[i].routes[k := ChangeRouteMetric(r, INFINITY, INFINITY, 0, env)]);
        if RouteMetric(r) != INFINITY {
          Changed(i, k, RouteMetric(r), env);
        }
      }
    }

    /** flush_source: the source is freed exactly when no route of the destination
        points at it. */
    method FreeSource(d: Dest, id: RouterId) returns (freed: bool)
      requires Valid() && id in SourcesAt(srcs, d)
      modifies this`srcs
      ensures Valid()
      ensures freed <==> Unused(SlotAt(slots, d), id)
      ensures SourcesAt(srcs, d) == (if freed then SourcesAt(old(srcs), d) - {id} else SourcesAt(old(srcs), d))
      ensures forall d' :: d' != d ==> SourcesAt(srcs, d') == SourcesAt(old(srcs), d')
    {
      Counted(slots, srcs, d);
      FreedWhenUnused(RouterAt(d), id);
      freed := srcs[d][id].routeCount == 0;
      assert freed <==> id !in FlushSource(SourcesAt(srcs, d), id);
      if freed {
        srcs := srcs[d := srcs[d] - {id}];
        AllCountedAfter(slots, old(srcs), slots, srcs, d);
      }
    }

    /** expire_sources: exactly the stale sources that no route points at are
        freed; what stays keeps its distance and its count. */
    method ExpireAll(now: int)
      requires Valid()
      modifies this`srcs
      ensures Valid()
      ensures forall d :: SourcesAt(srcs, d) == ExpireSources(SourcesAt(old(srcs), d), now)
    {
      var todo := srcs.Keys;
      while todo != {}
        invariant todo <= old(srcs.Keys) == srcs.Keys
        invariant forall d :: SourcesAt(srcs, d)
                    == if d in todo then SourcesAt(old(srcs), d) else ExpireSources(SourcesAt(old(srcs), d), now)
        decreases todo
      {
        var d :| d in todo;
        srcs := srcs[d := ExpireSources(srcs[d], now)];
        todo := todo - {d};
      }
      forall d ensures CountsOk(Router(SourcesAt(srcs, d), SlotAt(slots, d))) {
        Counted(slots, old(srcs), d);
        ExpireKeepsCounts(Router(SourcesAt(old(srcs), d), SlotAt(slots, d)), now);
      }
    }

    /** The branch of update_route for a route it already has. */
    method RewriteKnown(i: nat, k: nat, u: Update, cost: nat, add: nat, feasible: bool, keepUnfeasible: bool, env: Env)
      requires i < |slots| && k < |slots[i].routes| && u.id in SourcesAt(srcs, slots[i].dest)
      modifies this
      ensures var d := old(slots)[i].dest;
              var rt := Router(SourcesAt(old(srcs), d), old(slots)[i].routes);
              var rt' := UpdateKnown(rt, k, u, cost, add, feasible, keepUnfeasible, env);
              slots == Store(old(slots), i, rt'.slot) && srcs == old(srcs)[d := rt'.sources]
    {
      var d := slots[i].dest;
      var sources, src := SourcesAt(srcs, d), slots[i].routes[k].src;
      RewriteAt(i, k, u, cost, add, feasible, keepUnfeasible, env);
      srcs := srcs[d := ReleaseSource(RetainSource(sources, u.id), src)];
    }

    /** What it writes into the slot. */
    method RewriteAt(i: nat, k: nat, u: Update, cost: nat, add: nat, feasible: bool, keepUnfeasible: bool, env: Env)
      requires i < |slots| && k < |slots[i].routes| && u.id in SourcesAt(srcs, slots[i].dest)
      modifies `slots
      ensures var rt := Router(SourcesAt(srcs, old(slots)[i].dest), old(slots)[i].routes);
              slots == Store(old(slots), i, UpdateKnown(rt, k, u, cost, add, feasible, keepUnfeasible, env).slot)
    {
      ghost var sources := SourcesAt(srcs, slots[i].dest);
      var r := slots[i].routes[k];
      Put(i, slots[i].routes[k := RewriteRoute(r, u, cost, add, feasible, keepUnfeasible, env)]);
      ghost var slot1 := slots[i].routes;
      ghost var slot2 := RouteChanged(slot1, k, RouteMetric(r), sources, env);
      Changed(i, k, RouteMetric(r), env);
      StoreTwice(old(slots), i, slot1, slot2);
      StoreTwice(old(slots), i, slot2, RouteLost(slot2, sources, env));
      if !feasible && r.installed && u.id != r.src {
        Lost(i, env);
      }
    }

    /** The branch that adds a route: insert_route, then consider_route. */
    method AddNew(i: int, n: nat, d: Dest, route: Route, env: Env)
      requires -1 <= i < |slots| && (i >= 0 ==> slots[i].dest == d && slots[i].routes != []) && (i < 0 ==> n <= |slots|)
      requires route.src in SourcesAt(srcs, d)
      modifies this
      ensures var routes := if i < 0 then [] else old(slots)[i].routes;
              var rt' := InsertRoute(Router(SourcesAt(old(srcs), d), routes), route, env);
              slots == Replace(old(slots), i, n, d, rt'.slot) && srcs == old(srcs)[d := rt'.sources]
    {
      var sources := SourcesAt(srcs, d);
      if i < 0 {
        slots := slots[..n] + [TableSlot(d, [route])] + slots[n..];
        assert slots[n].dest == d && slots[n].routes == [] + [route];
        Consider(n, 0, env);
      } else {
        var k := |slots[i].routes|;
        Put(i, slots[i].routes + [route]);
        Consider(i, k, env);
      }
      srcs := srcs[d := RetainSource(sources, route.src)];
    }

    /** update_route past its early returns, given what find_route_slot found. */
    method UpdateAt(i: int, n: nat, myid: RouterId, d: Dest, u: Update, cost: nat, add: nat, keepUnfeasible: bool,
                    env: Env)
      requires -1 <= i < |slots| && (i >= 0 ==> slots[i].dest == d && slots[i].routes != []) && (i < 0 ==> n <= |slots|)
      requires u.id != myid && add < INFINITY
      modifies this
      ensures var routes := if i < 0 then [] else old(slots)[i].routes;
              var rt' := UpdateRoute(Router(SourcesAt(old(srcs), d), routes), myid, u, cost, add, keepUnfeasible, env);
              slots == Replace(old(slots), i, n, d, rt'.slot) && srcs == old(srcs)[d := rt'.sources]
    {
      var k := 0;
      if i >= 0 {
        k := FindRouteIn(i, u.neigh, u.nexthop);
      }
      var sources: Sources := FindSource(SourcesAt(srcs, d), u.id, u.seqno, env.now);
      srcs := srcs[d := sources];
      var feasible := UpdateFeasible(sources[u.id], u.seqno, u.refmetric, env.now);
      if i >= 0 && k < |slots[i].routes| {
        RewriteKnown(i, k, u, cost, add, feasible, keepUnfeasible, env);
        MapTwice(old(srcs), d, sources, srcs[d]);
      } else if u.refmetric < INFINITY && (feasible || keepUnfeasible) {
        AddNew(i, n, d, NewRoute(u, cost, add, env.now), env);
        MapTwice(old(srcs), d, sources, srcs[d]);
      } else {
        assert i >= 0 ==> Store(slots, i, slots[i].routes) == slots;
      }
    }

    /** update_route for a destination that is not martian: at that destination
        the table does what the selection functions say, elsewhere nothing. */
    method Update(myid: RouterId, d: Dest, u: Update, cost: nat, add: nat, keepUnfeasible: bool, env: Env)
      requires Valid()
      modifies this
      ensures Valid()
      ensures RouterAt(d) == UpdateRoute(old(RouterAt(d)), myid, u, cost, add, keepUnfeasible, env)
      ensures forall d' :: d' != d ==> RouterAt(d') == old(RouterAt(d'))
    {
      if u.id == myid || add >= INFINITY {
        return;
      }
      ghost var rt := RouterAt(d);
      ghost var rt' := UpdateRoute(rt, myid, u, cost, add, keepUnfeasible, env);
      Counted(slots, srcs, d);
      UpdateKeepsCounts(rt, myid, u, cost, add, keepUnfeasible, env);
      var i, n := FindRouteSlot(d);
      UpdateAt(i, n, myid, d, u, cost, add, keepUnfeasible, env);
      ReplaceOk(old(slots), i, n, d, rt'.slot);
      AllCountedAfter(old(slots), old(srcs), slots, srcs, d);
    }

    /** flush_route on the k-th route of the i-th slot. */
    method Flush(i: nat, k: nat, env: Env)
      requires Valid() && i < |slots| && k < |slots[i].routes|
      modifies this
      ensures Valid()
      ensures var d := old(slots)[i].dest;
              && old(RouterAt(d)).slot == old(slots)[i].routes
              && RouterAt(d) == FlushRoute(old(RouterAt(d)), k, env)
              && slots == Store(old(slots), i, FlushRoute(old(RouterAt(d)), k, env).slot)
      ensures forall d' :: d' != old(slots)[i].dest ==> RouterAt(d') == old(RouterAt(d'))
      ensures Total(slots) == old(Total(slots)) - 1
    {
      var d := slots[i].dest;
      FoundAt(slots, i);
      Counted(slots, srcs, d);
      ghost var rt' := FlushRoute(RouterAt(d), k, env);
      FlushKeepsCounts(RouterAt(d), k, env);
      Unlink(i, k, env);
      ReplaceOk(old(slots), i, 0, d, rt'.slot);
      AllCountedAfter(old(slots), old(srcs), slots, srcs, d);
      StoreTotal(old(slots), i, rt'.slot);
    }

    /** The writes flush_route makes. */
    method Unlink(i: nat, k: nat, env: Env)
      requires i < |slots| && k < |slots[i].routes|
      modifies this
      ensures var d := old(slots)[i].dest;
              var rt' := FlushRoute(Router(SourcesAt(old(srcs), d), old(slots)[i].routes), k, env);
              slots == Store(old(slots), i, rt'.slot) && srcs == old(srcs)[d := rt'.sources]
    {
      var d := slots[i].dest;
      var rs, r := slots[i].routes, slots[i].routes[k];
      var left := rs[..k] + rs[k + 1..];
      if left == [] {
        slots := slots[..i] + slots[i + 1..];
      } else {
        Put(i, left);
        if r.installed {
          Lost(i, env);
        }
      }
      srcs := srcs[d := ReleaseSource(SourcesAt(srcs, d), r.src)];
    }

    /** flush_neighbour_routes and flush_interface_routes: the scan stays on a
        slot until nothing in it matches, although each flush may reorder the
        slot or delete it.  It terminates, no matching route is left, and every
        other route is still there, changed at most in being installed, whatever
        the kernel answers at each flush. */
    method FlushMatching(p: Matcher, envs: nat -> Env)
      requires Valid()
      modifies this
      ensures Valid()
      ensures forall d :: NoneMatch(SlotAt(slots, d), p)
      ensures forall d :: Kept(SlotAt(old(slots), d), SlotAt(slots, d), p)
    {
      var i, turn := 0, 0;
      KeptAllSelf(slots, p);
      while i < |slots|
        invariant 0 <= i <= |slots| && 0 <= turn && Valid()
        invariant Scanned(slots, i, p)
        invariant KeptAll(old(slots), slots, p)
        decreases Total(slots), |slots| - i
      {
        var k := FirstMatch(i, p);
        if k < |slots[i].routes| {
          FlushOne(i, k, p, envs(turn), old(slots));
          turn := turn + 1;
        } else {
          i := i + 1;
        }
      }
      forall d ensures NoneMatch(SlotAt(slots, d), p) {
        if SlotAt(slots, d) != [] {
          var j := SlotAtPresent(slots, d);
        }
      }
    }

    /** One turn of that scan. */
    method FlushOne(i: nat, k: nat, p: Matcher, env: Env, ghost start: seq<TableSlot>)
      requires Valid() && i < |slots| && k < |slots[i].routes| && Matches(p, slots[i].routes[k])
      requires Scanned(slots, i, p) && KeptAll(start, slots, p)
      modifies this
      ensures Valid() && i <= |slots| && Total(slots) < old(Total(slots))
      ensures Scanned(slots, i, p) && KeptAll(start, slots, p)
    {
      ghost var before, dest := slots, slots[i].dest;
      ghost var rt := RouterAt(dest);
      FoundAt(slots, i);
      FlushedKept(rt, k, p, env);
      Flush(i, k, env);
      forall d | d != dest ensures SlotAt(slots, d) == SlotAt(before, d) {
        assert RouterAt(d) == old(RouterAt(d));
      }
      KeptAllAfter(start, before, slots, dest, p);
    }

    /** The walk along one slot's list. */
    method FirstMatch(i: nat, p: Matcher) returns (k: nat)
      requires i < |slots|
      ensures k <= |slots[i].routes|
      ensures k < |slots[i].routes| ==> Matches(p, slots[i].routes[k])
      ensures k == |slots[i].routes| ==> NoneMatch(slots[i].routes, p)
    {
      k := 0;
      while k < |slots[i].routes| && !Matches(p, slots[i].routes[k])
        invariant 0 <= k <= |slots[i].routes|
        invariant forall j :: 0 <= j < k ==> !Matches(p, slots[i].routes[j])
      {
        k := k + 1;
      }
    }
  }

  /** What a flush selects routes by: the neighbour and the next hop. */
  type Matcher = (RouterId, nat) -> bool

  predicate Matches(p: Matcher, r: Route) {
    p(r.neigh, r.nexthop)
  }

  predicate NoneMatch(slot: Slot, p: Matcher) {
    forall k :: 0 <= k < |slot| ==> !Matches(p, slot[k])
  }

  /** The slot holds this route, installed or not. */
  predicate Holds(slot: Slot, r: Route) {
    exists k :: 0 <= k < |slot| && Uninstalled(slot[k]) == Uninstalled(r)
  }

  /** b is what is left of a: every route of a that does not match, and no
      route that a does not have. */
  predicate Kept(a: Slot, b: Slot, p: Matcher) {
    && (forall k {:trigger Holds(b, a[k])} :: 0 <= k < |a| && !Matches(p, a[k]) ==> Holds(b, a[k]))
    && (forall k {:trigger Holds(a, b[k])} :: 0 <= k < |b| ==> Holds(a, b[k]))
  }

  ghost predicate KeptAll(a: seq<TableSlot>, b: seq<TableSlot>, p: Matcher) {
    forall d :: Kept(SlotAt(a, d), SlotAt(b, d), p)
  }

  predicate Scanned(slots: seq<TableSlot>, i: nat, p: Matcher) {
    forall j :: 0 <= j < i && j < |slots| ==> NoneMatch(slots[j].routes, p)
  }

  lemma {:induction false} KeptAllSelf(a: seq<TableSlot>, p: Matcher)
    ensures KeptAll(a, a, p)
  {
    forall d ensures Kept(SlotAt(a, d), SlotAt(a, d), p) {
      KeptSelf(SlotAt(a, d), p);
    }
  }

  lemma {:induction false} KeptAllAfter(start: seq<TableSlot>, a: seq<TableSlot>, b: seq<TableSlot>, dest: Dest,
                                        p: Matcher)
    requires KeptAll(start, a, p) && Kept(SlotAt(a, dest), SlotAt(b, dest), p)
    requires forall d :: d != dest ==> SlotAt(b, d) == SlotAt(a, d)
    ensures KeptAll(start, b, p)
  {
    forall d ensures Kept(SlotAt(start, d), SlotAt(b, d), p) {
      if d == dest {
        KeptTransitive(SlotAt(start, d), SlotAt(a, d), SlotAt(b, d), p);
      }
    }
  }

  lemma {:induction false} KeptSelf(a: Slot, p: Matcher)
    ensures Kept(a, a, p)
  {
    forall k | 0 <= k < |a| ensures Holds(a, a[k]) {
      assert Uninstalled(a[k]) == Uninstalled(a[k]);
    }
  }

  lemma {:induction false} KeptTransitive(a: Slot, b: Slot, c: Slot, p: Matcher)
    requires Kept(a, b, p) && Kept(b, c, p)
    ensures Kept(a, c, p)
  {
    forall k | 0 <= k < |a| && !Matches(p, a[k]) ensures Holds(c, a[k]) {
      assert Holds(b, a[k]);
      var j :| 0 <= j < |b| && Uninstalled(b[j]) == Uninstalled(a[k]);
      assert Matches(p, b[j]) == Matches(p, Uninstalled(b[j])) == Matches(p, Uninstalled(a[k])) == Matches(p, a[k]);
      assert Holds(c, b[j]);
    }
    forall k | 0 <= k < |c| ensures Holds(a, c[k]) {
      assert Holds(b, c[k]);
      var j :| 0 <= j < |b| && Uninstalled(b[j]) == Uninstalled(c[k]);
      assert Holds(a, b[j]);
    }
  }

  lemma {:induction false} FlushedKept(rt: Router, k: nat, p: Matcher, env: Env)
    requires SlotOk(rt.slot) && k < |rt.slot| && Matches(p, rt.slot[k])
    ensures Kept(rt.slot, FlushRoute(rt, k, env).slot, p)
  {
    var left := Removed(rt.slot, k);
    RemoveOk(rt.slot, k);
    forall j | 0 <= j < |rt.slot| && !Matches(p, rt.slot[j]) ensures Holds(left, rt.slot[j]) {
      assert left[if j < k then j else j - 1] == rt.slot[j];
    }
    forall j | 0 <= j < |left| ensures Holds(rt.slot, left[j]) {
      assert left[j] == rt.slot[if j < k then j else j + 1];
    }
    assert Kept(rt.slot, left, p);
    var slot' := FlushRoute(rt, k, env).slot;
    if slot' != left {
      RouteLostKeeps(left, rt.sources, env);
      ReselectedKept(left, slot', rt.sources, env.now, p);
      KeptTransitive(rt.slot, left, slot', p);
    }
  }

  lemma {:induction false} ReselectedKept(slot: Slot, slot': Slot, sources: Sources, now: int, p: Matcher)
    requires Reselected(slot, slot', sources, now)
    ensures Kept(slot, slot', p)
  {
    forall j | 0 <= j < |slot| ensures Holds(slot', slot[j]) {
      assert Into(slot[j], slot', sources, now);
    }
    forall k | 0 <= k < |slot'| ensures Holds(slot, slot'[k]) {
      assert From(slot'[k], slot, sources, now);
    }
  }

  lemma {:induction false} StoreTotal(slots: seq<TableSlot>, i: nat, routes: Slot)
    requires i < |slots|
    ensures Total(Store(slots, i, routes)) == Total(slots) - |slots[i].routes| + |routes|
  {
    assert slots == slots[..i] + ([slots[i]] + slots[i + 1..]);
    TotalConcat(slots[..i], [slots[i]] + slots[i + 1..]);
    TotalConcat([slots[i]], slots[i + 1..]);
    if routes == [] {
      TotalConcat(slots[..i], slots[i + 1..]);
    } else {
      var e := slots[i].(routes := routes);
      assert Store(slots, i, routes) == slots[..i] + ([e] + slots[i + 1..]);
      TotalConcat(slots[..i], [e] + slots[i + 1..]);
      TotalConcat([e], slots[i + 1..]);
      assert Total([e]) == |routes|;
    }
    assert Total([slots[i]]) == |slots[i].routes|;
  }

  lemma {:induction false} MapTwice(m: map<Dest, Sources>, d: Dest, a: Sources, b: Sources)
    ensures m[d := a][d := b] == m[d := b]
  {}

  /** The slots after the routes to d have been replaced: i and n are what
      find_route_slot returned for d. */
  function Replace(slots: seq<TableSlot>, i: int, n: nat, d: Dest, routes: Slot): seq<TableSlot>
    requires -1 <= i < |slots| && (i < 0 ==> n <= |slots|)
  {
    if i >= 0 then Store(slots, i, routes)
    else if routes == [] then slots
    else Insert(slots, n, TableSlot(d, routes))
  }

  lemma {:induction false} ReplaceOk(slots: seq<TableSlot>, i: int, n: nat, d: Dest, routes: Slot)
    requires Sorted(slots) && SlotsOk(slots) && SlotOk(routes)
    requires -1 <= i < |slots| && (i >= 0 ==> slots[i].dest == d) && (i < 0 ==> Gap(slots, n, d))
    ensures var s := Replace(slots, i, n, d, routes);
            && Sorted(s) && SlotsOk(s)
            && forall d' :: SlotAt(s, d') == if d' == d then routes else SlotAt(slots, d')
  {
    var s := Replace(slots, i, n, d, routes);
    if i >= 0 {
      StoreSorted(slots, i, routes);
      forall d' ensures SlotAt(s, d') == if d' == d then routes else SlotAt(slots, d') {
        StoreUpdates(slots, i, routes, d');
      }
    } else {
      GapAbsent(slots, n, d);
      if routes != [] {
        InsertSorted(slots, n, TableSlot(d, routes));
        forall d' ensures SlotAt(s, d') == if d' == d then routes else SlotAt(slots, d') {
          InsertUpdates(slots, n, TableSlot(d, routes), d');
        }
      }
    }
  }

  lemma {:induction false} Counted(slots: seq<TableSlot>, srcs: map<Dest, Sources>, d: Dest)
    requires AllCounted(slots, srcs) && SlotsOk(slots)
    ensures CountsOk(Router(SourcesAt(srcs, d), SlotAt(slots, d))) && SlotOk(SlotAt(slots, d))
  {
    if SlotAt(slots, d) != [] {
      var i := SlotAtPresent(slots, d);
    }
  }

  /** Storing routes that are well formed and counted keeps the table. */
  lemma {:induction false} StoreKeepsTable(slots: seq<TableSlot>, srcs: map<Dest, Sources>, i: nat, routes: Slot)
    requires Sorted(slots) && SlotsOk(slots) && AllCounted(slots, srcs) && i < |slots| && SlotOk(routes)
    requires CountsOk(Router(SourcesAt(srcs, slots[i].dest), routes))
    ensures var s := Store(slots, i, routes);
            && Sorted(s) && SlotsOk(s) && AllCounted(s, srcs)
            && forall d :: SlotAt(s, d) == if d == slots[i].dest then routes else SlotAt(slots, d)
  {
    ReplaceOk(slots, i, 0, slots[i].dest, routes);
    AllCountedAfter(slots, srcs, Store(slots, i, routes), srcs, slots[i].dest);
  }

  /** consider_route, route_changed and route_lost keep the table. */
  lemma {:induction false} SelectionKeepsTable(
    slots: seq<TableSlot>, srcs: map<Dest, Sources>, i: nat, k: nat, oldMetric: nat, env: Env)
    requires i < |slots| && k < |slots[i].routes|
    ensures Sorted(slots) && SlotsOk(slots) && AllCounted(slots, srcs) ==>
              var rs, sources := slots[i].routes, SourcesAt(srcs, slots[i].dest);
              && TableOk(Store(slots, i, ConsiderRoute(rs, k, sources, env)), srcs)
              && TableOk(Store(slots, i, RouteChanged(rs, k, oldMetric, sources, env)), srcs)
              && TableOk(Store(slots, i, RouteLost(rs, sources, env)), srcs)
  {
    if Sorted(slots) && SlotsOk(slots) && AllCounted(slots, srcs) {
      var rs, sources := slots[i].routes, SourcesAt(srcs, slots[i].dest);
      FoundAt(slots, i);
      Counted(slots, srcs, slots[i].dest);
      SelectionKeepsCounts(Router(sources, rs), k, oldMetric, env);
      StoreKeepsTable(slots, srcs, i, ConsiderRoute(rs, k, sources, env));
      StoreKeepsTable(slots, srcs, i, RouteChanged(rs, k, oldMetric, sources, env));
      StoreKeepsTable(slots, srcs, i, RouteLost(rs, sources, env));
    }
  }

  /** install_route and switch_routes keep it too. */
  lemma {:induction false} InstallKeepsTable(slots: seq<TableSlot>, srcs: map<Dest, Sources>, i: nat, k: nat, env: Env)
    requires i < |slots| && k < |slots[i].routes|
    ensures TableOk(slots, srcs) ==>
              && TableOk(Store(slots, i, InstallRoute(slots[i].routes, k, env)), srcs)
              && TableOk(Store(slots, i, SwitchRoutes(slots[i].routes, k, env)), srcs)
  {
    if TableOk(slots, srcs) {
      var rs, sources := slots[i].routes, SourcesAt(srcs, slots[i].dest);
      FoundAt(slots, i);
      Counted(slots, srcs, slots[i].dest);
      InstallOk(rs, k, env);
      SwitchOk(rs, k, env);
      InstallKeepsCounts(Router(sources, rs), k, env);
      StoreKeepsTable(slots, srcs, i, InstallRoute(rs, k, env));
      StoreKeepsTable(slots, srcs, i, SwitchRoutes(rs, k, env));
    }
  }

  ghost predicate TableOk(slots: seq<TableSlot>, srcs: map<Dest, Sources>) {
    Sorted(slots) && SlotsOk(slots) && AllCounted(slots, srcs)
  }

  lemma {:induction false} AllCountedAfter(slots: seq<TableSlot>, srcs: map<Dest, Sources>, slots': seq<TableSlot>,
                                           srcs': map<Dest, Sources>, d: Dest)
    requires AllCounted(slots, srcs)
    requires forall d' :: d' != d ==>
             SlotAt(slots', d') == SlotAt(slots, d') && SourcesAt(srcs', d') == SourcesAt(srcs, d')
    requires CountsOk(Router(SourcesAt(srcs', d), SlotAt(slots', d)))
    ensures AllCounted(slots', srcs')
  {
    forall d' ensures CountsOk(Router(SourcesAt(srcs', d'), SlotAt(slots', d'))) {
      assert CountsOk(Router(SourcesAt(srcs, d'), SlotAt(slots, d')));
    }
  }

  lemma {:induction false} BelowMiddle(slots: seq<TableSlot>, d: Dest, m: nat)
    requires Sorted(slots) && m < |slots| && CompareDest(d, slots[m].dest) < 0
    ensures forall k {:trigger CompareDest(d, slots[k].dest)} :: m <= k < |slots| ==> CompareDest(d, slots[k].dest) < 0
  {
    forall k | m < k < |slots| ensures CompareDest(d, slots[k].dest) < 0 {
      CompareDestTransitive(d, slots[m].dest, slots[k].dest);
    }
  }

  lemma {:induction false} AboveMiddle(slots: seq<TableSlot>, d: Dest, m: nat)
    requires Sorted(slots) && m < |slots| && CompareDest(slots[m].dest, d) < 0
    ensures forall k {:trigger CompareDest(slots[k].dest, d)} :: 0 <= k <= m ==> CompareDest(slots[k].dest, d) < 0
  {
    forall k | 0 <= k < m ensures CompareDest(slots[k].dest, d) < 0 {
      CompareDestTransitive(slots[k].dest, slots[m].dest, d);
    }
  }
}
