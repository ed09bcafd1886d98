/** Runs of operations on the pending advertisements, with packets sent in between. */
module BgpAdvertiseRuns {
  import opened Wrappers
  import opened BgpAdvertise

  datatype Op = Set(p: Prefix, attr: Attr) | Unset(p: Prefix) | Remove(p: Prefix)

  /** Whether the last of the operations on a prefix set it. */
  ghost predicate LastIsSet(log: seq<Op>, p: Prefix) {
    log != [] &&
    (if log[|log| - 1].p == p then log[|log| - 1].Set? else LastIsSet(log[..|log| - 1], p))
  }

  datatype Step = Do(op: Op) | SendUpdate(id: Id) | SendWithdraw

  ghost function Apply(s: State, step: Step): (t: State)
    requires Inv(s)
    ensures Inv(t)
  {
    match step
    case Do(Set(p, a)) => SetOut(s, p, a)
    case Do(Unset(p)) => UnsetOut(s, p)
    case Do(Remove(p)) => RemoveOut(s, p)
    case SendUpdate(id) => SentOut(s, id)
    case SendWithdraw => if s.withdraw == [] then s else RemoveOut(s, s.advs[s.withdraw[0]].rn)
  }

  /** The state after some steps from the start, and the operations among them. */
  ghost function After(steps: seq<Step>): (s: State)
    ensures Inv(s)
    decreases |steps|
  {
    EmptyInv();
    if steps == [] then EMPTY else Apply(After(steps[..|steps| - 1]), steps[|steps| - 1])
  }

  ghost function Log(steps: seq<Step>): seq<Op>
    decreases |steps|
  {
    if steps == [] then []
    else Log(steps[..|steps| - 1]) + if steps[|steps| - 1].Do? then [steps[|steps| - 1].op] else []
  }

  /** A withdrawal is pending only for what was sent; the lookup says which prefixes
      were last set. */
  ghost predicate Settled(s: State, log: seq<Op>)
    requires Inv(s)
  {
    && (forall p :: PendingOf(s, p).Withdraw? ==> SentAttr(s, p).Some?)
    && (forall p :: Lookup(s, p) <==> LastIsSet(log, p))
  }

  lemma {:induction false} LookupView(s: State, p: Prefix)
    requires Inv(s)
    ensures Lookup(s, p) <==> PendingOf(s, p).Announce? || (PendingOf(s, p).Nothing? && SentAttr(s, p).Some?)
  {}

  lemma {:induction false} ChangeSettles(s: State, t: State, p: Prefix, pending: Pending, sent: Option<Attr>,
                                         log: seq<Op>, log': seq<Op>)
    requires Inv(s) && Inv(t) && Settled(s, log) && Changed(s, t, p, pending, sent)
    requires pending.Withdraw? ==> sent.Some?
    requires LastIsSet(log', p) <==> pending.Announce? || (pending.Nothing? && sent.Some?)
    requires forall q :: q != p ==> (LastIsSet(log', q) <==> LastIsSet(log, q))
    ensures Settled(t, log')
  {
    forall q ensures Lookup(t, q) <==> LastIsSet(log', q) {
      LookupView(t, q);
      LookupView(s, q);
    }
    forall q | PendingOf(t, q).Withdraw? ensures SentAttr(t, q).Some? {
      if q != p {
        assert PendingOf(s, q).Withdraw?;
      }
    }
  }

  lemma {:induction false} LogSnoc(log: seq<Op>, op: Op, q: Prefix)
    ensures LastIsSet(log + [op], q) <==> if op.p == q then op.Set? else LastIsSet(log, q)
  {
    assert (log + [op])[..|log|] == log;
  }

  lemma {:induction false} OpSettles(s: State, op: Op, log: seq<Op>)
    requires Inv(s) && Settled(s, log)
    ensures Settled(Apply(s, Do(op)), log + [op])
  {
    var t, p, sent := Apply(s, Do(op)), op.p, SentAttr(s, op.p);
    forall q ensures LastIsSet(log + [op], q) <==> if op.p == q then op.Set? else LastIsSet(log, q) {
      LogSnoc(log, op, q);
    }
    match op {
      case Set(_, a) =>
        SetChanges(s, p, a);
        ChangeSettles(s, t, p, Announce(a), sent, log, log + [op]);
      case Unset(_) =>
        UnsetChanges(s, p);
        ChangeSettles(s, t, p, if sent.Some? then Withdraw else Nothing, sent, log, log + [op]);
      case Remove(_) =>
        RemoveChanges(s, p);
        ChangeSettles(s, t, p, Nothing, None, log, log + [op]);
    }
  }

  lemma {:induction false} SendSettles(s: State, step: Step, log: seq<Op>)
    requires Inv(s) && Settled(s, log) && !step.Do?
    ensures Settled(Apply(s, step), log)
  {
    var t := Apply(s, step);
    if step.SendUpdate? {
      if step.id in s.update {
        var p := s.advs[step.id].rn;
        SendChanges(s, step.id);
        LookupView(s, p);
        ChangeSettles(s, t, p, Nothing, Some(AttrOf(s, step.id)), log, log);
      }
    } else if s.withdraw != [] {
      assert s.withdraw[0] in s.withdraw;
      var p := s.advs[s.withdraw[0]].rn;
      RemoveChanges(s, p);
      LookupView(s, p);
      ChangeSettles(s, t, p, Nothing, None, log, log);
    }
  }

  /** Whatever the operations and however many packets were sent between them,
      the lookup is true of exactly the prefixes last set. */
  lemma {:induction false} LookupIsLastSet(steps: seq<Step>)
    ensures Settled(After(steps), Log(steps))
    decreases |steps|
  {
    if steps != [] {
      var front, step := steps[..|steps| - 1], steps[|steps| - 1];
      LookupIsLastSet(front);
      if step.Do? {
        OpSettles(After(front), step.op, Log(front));
      } else {
        SendSettles(After(front), step, Log(front));
        assert Log(steps) == Log(front);
      }
    }
  }

  /** In every reachable state an announcement is in the update FIFO exactly when
      it is on the list of one attribute entry, and that entry's alone; entries are
      one to one with attributes, each counting its list; attribute references are
      exactly the announcements pending and the adjacencies sent. */
  lemma {:induction false} IndexAgrees(steps: seq<Step>, id: Id)
    ensures var s := After(steps);
            && (id in s.update <==> exists b :: b in s.baas && id in s.baas[b].list)
            && (forall b, c :: b in s.baas && c in s.baas && id in s.baas[b].list && id in s.baas[c].list ==> b == c)
            && (forall b, c :: b in s.baas && c in s.baas && s.baas[b].attr == s.baas[c].attr ==> b == c)
            && (forall b :: b in s.baas ==> s.baas[b].refcnt == |s.baas[b].list| > 0 && Distinct(s.baas[b].list))
            && (forall a :: Ref(s.refs, a) == BaaRefs(s.baas, s.hash, a) + |SentWith(s.adjs, a)|)
  {
    var s := After(steps);
    assert forall b :: b in s.baas ==> BaaOk(s.advs, b, s.baas[b]);
    if id in s.update {
      var b := s.advs[id].baa.value;
      assert b in s.baas && id in s.baas[b].list;
    }
  }

  // ----- The order of the queues -----

  /** The queue once nothing is pending for the prefix any more. */
  ghost function Behind(s: State, queue: seq<Id>, p: Prefix): seq<Id>
    requires Inv(s)
  {
    if p in s.adjs && s.adjs[p].adv.Some? then Without(queue, s.adjs[p].adv.value) else queue
  }

  /** An announcement is queued behind all others, which keep their order, and on the
      queue for withdrawals nothing comes in. */
  lemma {:induction false} SetGoesLast(s: State, p: Prefix, a: Attr)
    requires Inv(s)
    ensures var t := SetOut(s, p, a);
            && t.update == Behind(s, s.update, p) + [s.next] && t.withdraw == Behind(s, s.withdraw, p)
            && s.next in t.advs && t.advs[s.next].rn == p
  {
    AdjacentKeeps(s, p);
    IdleQueues(Adjacent(s, p), p);
    var idle := Idle(Adjacent(s, p), p);
    assert SetOut(s, p, a) == Advertised(idle, p, a);
    AdvertisedQueues(idle, p, a);
  }

  lemma {:induction false} IdleQueues(s: State, p: Prefix)
    requires Inv(s) && p in s.adjs
    ensures var t := Idle(s, p);
            t.update == Behind(s, s.update, p) && t.withdraw == Behind(s, s.withdraw, p) && t.next == s.next
  {
    CleanIfPending(s, p);
  }

  lemma {:induction false} AdvertisedQueues(s: State, p: Prefix, a: Attr)
    requires p in s.adjs
    ensures var t := Advertised(s, p, a);
            t.update == s.update + [s.next] && t.withdraw == s.withdraw && s.next in t.advs && t.advs[s.next].rn == p
  {}

  /** So is the withdrawal of what was sent. */
  lemma {:induction false} UnsetGoesLast(s: State, p: Prefix)
    requires Inv(s) && SentAttr(s, p).Some?
    ensures var t := UnsetOut(s, p);
            && t.withdraw == Behind(s, s.withdraw, p) + [s.next] && t.update == Behind(s, s.update, p)
            && s.next in t.advs && t.advs[s.next].rn == p
  {
    IdleQueues(s, p);
    IdleChanges(s, p);
    assert UnsetOut(s, p) == Withdrawing(Idle(s, p), p);
  }
}
