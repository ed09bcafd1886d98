/** Loop freedom in terms of what a router can see: the steps to avoid, told from
    the fields of the route and the source alone, on 16-bit seqnos. */
module BabelHazard {
  import opened BabelSeqno
  import opened BabelRoute
  import opened BabelNetwork

  /** A finite unfeasible update for an installed route that is retracted, from
      the route's own source. */
  predicate RevivalHazard(net: Net, s: Step)
    requires Enabled(net, s)
  {
    Rewrites(net, s) &&
    var r := Rewritten(net, s);
    && r.installed && r.refmetric >= INFINITY && r.src == s.m.id && s.m.metric < INFINITY && !FeasibleAt(net, s)
    && !MetricRefused(r, s.m.metric, s.cost, s.add, s.env)
  }

  /** A refused change of metric for an installed route that has a finite metric
      and is given another seqno or source. */
  predicate RefusalHazard(net: Net, s: Step)
    requires Enabled(net, s)
  {
    || (Rewrites(net, s) &&
        var r := Rewritten(net, s);
        && (FeasibleAt(net, s) || s.m.id == r.src)
        && MetricRefused(r, s.m.metric, s.cost, s.add, s.env)
        && r.refmetric < INFINITY && (s.m.id != r.src || Wire(s.m.seqno) != Wire(r.seqno)))
    || (s.Refresh? &&
        var rt := net.routers[s.at];
        var r := rt.slot[s.i];
        && RouteExpired(r, s.env.now) && r.refmetric < INFINITY && MetricRefused(r, INFINITY, INFINITY, 0, s.env)
        && r.src in rt.sources && Wire(rt.sources[r.src].seqno + 1) != Wire(r.seqno))
  }

  predicate Hazard(net: Net, s: Step)
    requires Enabled(net, s)
  {
    RevivalHazard(net, s) || RefusalHazard(net, s)
  }

  lemma {:induction false} WiresDiffer(a: nat, b: nat)
    requires a != b && -MODULUS < a - b < MODULUS
    ensures Wire(a) != Wire(b)
  {}

  /** The refused update's seqno is within the window of the source's. */
  lemma {:induction false} RefusedInWindow(rt: Router, i: nat, u: Update, cost: nat, add: nat, feasible: bool,
                                           keep: bool, env: Env)
    requires SlotOk(rt.slot) && i < |rt.slot| && u.id in rt.sources && SameKey(rt.slot[i], u.neigh, u.nexthop)
    requires u.id == rt.slot[i].src && rt.slot[i].refmetric < INFINITY
    requires MetricRefused(rt.slot[i], u.refmetric, cost, add, env)
    requires Windowed(UpdateKnown(rt, i, u, cost, add, feasible, keep, env))
    ensures Close(u.seqno, rt.sources[u.id].seqno)
  {
    var r := rt.slot[i];
    var w := RewriteRoute(r, u, cost, add, feasible, keep, env);
    var slot1 := rt.slot[i := w];
    OverwriteOk(rt.slot, i, w);
    RouteChangedKeeps(slot1, i, RouteMetric(r), rt.sources, env);
    var rt' := UpdateKnown(rt, i, u, cost, add, feasible, keep, env);
    WindowedBack(rt'.sources, slot1, rt'.slot, rt.sources, env.now);
    assert InWindow(rt'.sources, slot1[i]);
  }

  lemma {:induction false} BreaksIsHazard(net: Net, s: Step)
    requires Inv(net) && Proper(net, s) && AllAnchored(net) && Breaks(net, s)
    ensures Hazard(net, s)
  {
    var rt := net.routers[s.at];
    assert SlotInv(FdsOf(net), s.at, rt.slot) && SlotOk(rt.slot) && GoodSlot(rt.slot);
    if Rewrites(net, s) {
      var i := FindRoute(rt.slot, s.m.from, s.nexthop);
      var r := rt.slot[i];
      assert RouteInv(FdsOf(net), s.at, r) && GoodRoute(r) && InWindow(rt.sources, r);
      if Mislabels(net, s) && s.m.id == r.src {
        var u := AsUpdate(s.m, s.nexthop, s.interval);
        assert FindSource(rt.sources, u.id, u.seqno, s.env.now) == rt.sources;
        RefusedInWindow(rt, i, u, s.cost, s.add, FeasibleAt(net, s), s.keepUnfeasible, s.env);
        WiresDiffer(u.seqno, r.seqno);
      }
    } else {
      var r := rt.slot[s.i];
      assert InWindow(rt.sources, r);
      WiresDiffer(rt.sources[r.src].seqno + 1, r.seqno);
    }
  }

  predicate NoHazards(net: Net, steps: seq<Step>)
    requires Runs(net, steps)
    decreases |steps|
  {
    steps == [] || (!Hazard(net, steps[0]) && NoHazards(Apply(net, steps[0]), steps[1..]))
  }

  lemma {:induction false} NoHazardsSuffice(net: Net, steps: seq<Step>)
    requires Inv(net) && Runs(net, steps) && AllAnchored(net) && NoHazards(net, steps)
    ensures NeverBreaks(net, steps)
    decreases |steps|
  {
    if steps != [] {
      if Breaks(net, steps[0]) {
        BreaksIsHazard(net, steps[0]);
      }
      AnchoredExactly(net, steps[0]);
      StepKeepsInv(net, steps[0]);
      NoHazardsSuffice(Apply(net, steps[0]), steps[1..]);
    }
  }

  /** Loop-freedom: no run from empty tables in which no router meets a hazard
      reaches a forwarding loop. */
  lemma {:induction false} LoopFreeWithoutHazards(net: Net, steps: seq<Step>, id: RouterId, path: seq<RouterId>)
    requires Initial(net) && Runs(net, steps) && NoHazards(net, steps)
    ensures !Loop(Exec(net, steps), id, path)
  {
    NoHazardsSuffice(net, steps);
    LoopFreedom(net, steps, id, path);
  }
}
