/** bgp_advertise.c on one peer's own structures, and the two packet builders that
    drain them. */
module BgpAdjOut {
  import opened Wrappers
  import opened BgpAdvertise

  /** After cleaning, the next announcement on offer is one of the same attribute,
      and there is none only when no such announcement is left. */
  lemma {:induction false} NextCandidate(s: State, p: Prefix, id: Id, b: Id, l: seq<Id>)
    requires Inv(s) && HasPending(s, p) && id == s.adjs[p].adv.value && s.advs[id].baa == Some(b) && b in s.baas
    requires l == Without(s.baas[b].list, id)
    ensures Inv(Cleaned(s, p))
    ensures l != [] ==> l[0] in Cleaned(s, p).update && AttrOf(Cleaned(s, p), l[0]) == s.baas[b].attr
    ensures l == [] ==> forall x :: x in Cleaned(s, p).update ==> AttrOf(Cleaned(s, p), x) != s.baas[b].attr
  {
    CleanKeeps(s, p);
    BaaFacts(s, id);
    WithoutMembers(s.baas[b].list, id);
    var t := Cleaned(s, p);
    if l != [] {
      assert l[0] in l;
      assert t.advs[l[0]].baa == Some(b);
    }
  }

  lemma {:induction false} NoneLeft(s: State, a: Attr)
    requires Inv(s) && forall x :: x in s.update ==> AttrOf(s, x) != a
    ensures forall q :: PendingOf(s, q) != Announce(a)
  {
    forall q ensures PendingOf(s, q) != Announce(a) {
      if q in s.adjs && s.adjs[q].adv.Some? {
        var id := s.adjs[q].adv.value;
        assert s.advs[id].baa.Some? ==> id in s.update;
      }
    }
  }

  /** Giving up the attribute last sent does not free the one being sent. */
  lemma {:induction false} AttrStaysLive(s: State, p: Prefix, id: Id)
    requires Inv(s) && p in s.adjs && id in s.update
    ensures AttrOf(s, id) in s.refs
    ensures s.adjs[p].attr.Some? ==>
              && s.adjs[p].attr.value in s.refs && s.refs[s.adjs[p].attr.value] > 0
              && AttrOf(s, id) in Unintern(s.refs, s.adjs[p].attr.value)
  {
    SentIsLive(s, p);
    BaaFacts(s, id);
    var a := AttrOf(s, id);
    assert Ref(s.refs, a) == BaaRefs(s.baas, s.hash, a) + |SentWith(s.adjs, a)|;
    if s.adjs[p].attr == Some(a) {
      assert p in SentWith(s.adjs, a);
    }
  }

  class Peer {
    var adjs: Adjs
    var advs: Advs
    var baas: Baas
    var hash: map<Attr, Id>
    var refs: map<Attr, nat>
    var update: seq<Id>
    var withdraw: seq<Id>
    var next: Id

    ghost function Abs(): State
      reads this
    {
      State(adjs, advs, baas, hash, refs, update, withdraw, next)
    }

    constructor ()
      ensures Abs() == EMPTY && Inv(Abs())
    {
      adjs, advs, baas, hash, refs := map[], map[], map[], map[], map[];
      update, withdraw, next := [], [], 0;
      new;
      EmptyInv();
    }

    /** bgp_adj_out_lookup. */
    method LookupOut(p: Prefix) returns (r: bool)
      requires Inv(Abs())
      ensures r <==> Lookup(Abs(), p)
    {
      if p !in adjs {
        return false;
      }
      var adj := adjs[p];
      return if adj.adv.Some? then advs[adj.adv.value].baa.Some? else adj.attr.Some?;
    }

    /** bgp_advertise_delete and bgp_advertise_unintern. */
    method Unlink(id: Id, b: Id) returns (following: Option<Id>)
      requires b in baas && Distinct(baas[b].list) && id in baas[b].list && baas[b].refcnt == |baas[b].list|
      requires baas[b].attr in refs && refs[baas[b].attr] > 0
      modifies this`baas, this`hash, this`refs
      ensures Abs() == Unlinked(old(Abs()), id, b)
      ensures var l := Without(old(baas[b].list), id);
              following == if l == [] then None else Some(l[0])
    {
      WithoutLength(baas[b].list, id);
      var baa := baas[b];
      var l := Without(baa.list, id);
      following := if l == [] then None else Some(l[0]);
      var refcnt := if baa.refcnt > 0 then baa.refcnt - 1 else 0;
      if refcnt > 0 {
        refs := Unintern(refs, baa.attr);
        baas := baas[b := Baa(baa.attr, refcnt, l)];
      } else {
        hash := hash - {baa.attr};
        refs := Unintern(refs, baa.attr);
        baas := baas - {b};
      }
    }

    /** bgp_advertise_clean. */
    method Clean(p: Prefix) returns (following: Option<Id>)
      requires Inv(Abs()) && HasPending(Abs(), p)
      modifies this
      ensures Abs() == Cleaned(old(Abs()), p) && Inv(Abs())
      ensures var adv := old(advs[adjs[p].adv.value]);
              adv.baa.Some? && adv.baa.value in old(baas) ==>
                var l := Without(old(baas)[adv.baa.value].list, old(adjs[p].adv.value));
                following == if l == [] then None else Some(l[0])
    {
      CleanKeeps(Abs(), p);
      var id := adjs[p].adv.value;
      following := None;
      if advs[id].baa.Some? {
        BaaFacts(Abs(), id);
        following := Unlink(id, advs[id].baa.value);
      }
      update, withdraw := Without(update, id), Without(withdraw, id);
      advs := advs - {id};
      adjs := adjs[p := adjs[p].(adv := None)];
    }

    /** bgp_adj_out_set. */
    method Set(p: Prefix, a: Attr)
      requires Inv(Abs())
      modifies this
      ensures Abs() == SetOut(old(Abs()), p, a) && Inv(Abs())
    {
      AdjacentKeeps(Abs(), p);
      if p !in adjs {
        adjs := adjs[p := Adj(None, None)];
      }
      assert Abs() == Adjacent(old(Abs()), p);
      if adjs[p].adv.Some? {
        var _ := Clean(p);
      }
      assert Abs() == Idle(Adjacent(old(Abs()), p), p);
      Advertise(p, a);
    }

    /** A new advertisement with its attribute entry, on the entry's list and on the
        update FIFO. */
    method Advertise(p: Prefix, a: Attr)
      requires p in adjs && (a in hash ==> hash[a] in baas && baas[hash[a]].attr == a)
      modifies this
      ensures Abs() == Advertised(old(Abs()), p, a)
    {
      var id := next;
      var b := Enlist(a, next + 1, id);
      advs := advs[id := Adv(p, Some(b))];
      adjs := adjs[p := adjs[p].(adv := Some(id))];
      update := update + [id];
      next := next + 2;
    }

    /** bgp_advertise_intern and bgp_advertise_add. */
    method Enlist(a: Attr, number: Id, id: Id) returns (b: Id)
      requires a in hash ==> hash[a] in baas && baas[hash[a]].attr == a
      modifies this`refs, this`baas, this`hash
      ensures b == EntryFor(old(baas), old(hash), a, number) && hash == old(hash)[a := b]
      ensures refs == Intern(old(refs), a) && baas == Enlisted(old(baas), old(hash), a, number, id)
    {
      refs := Intern(refs, a);
      b := number;
      if a in hash {
        b := hash[a];
      } else {
        baas := baas[b := Baa(a, 0, [])];
        hash := hash[a := b];
      }
      var baa := baas[b];
      baas := baas[b := Baa(baa.attr, baa.refcnt + 1, [id] + baa.list)];
    }

    /** bgp_adj_out_unset. */
    method Unset(p: Prefix)
      requires Inv(Abs())
      modifies this
      ensures Abs() == UnsetOut(old(Abs()), p) && Inv(Abs())
    {
      if p !in adjs {
        return;
      }
      if adjs[p].adv.Some? {
        var _ := Clean(p);
      }
      assert Abs() == Idle(old(Abs()), p);
      if adjs[p].attr.Some? {
        QueueWithdrawal(p);
      } else {
        adjs := adjs - {p};
      }
    }

    method QueueWithdrawal(p: Prefix)
      requires p in adjs
      modifies this
      ensures Abs() == Withdrawing(old(Abs()), p)
    {
      adjs := adjs[p := adjs[p].(adv := Some(next))];
      advs := advs[next := Adv(p, None)];
      withdraw := withdraw + [next];
      next := next + 1;
    }

    /** bgp_adj_out_remove. */
    method RemoveAdj(p: Prefix)
      requires Inv(Abs()) && p in adjs
      modifies this
      ensures Abs() == RemoveOut(old(Abs()), p) && Inv(Abs())
    {
      SentIsLive(Abs(), p);
      ResentKeeps(Abs(), p, None);
      if adjs[p].attr.Some? {
        refs := Unintern(refs, adjs[p].attr.value);
        adjs := adjs[p := adjs[p].(attr := None)];
      }
      assert Abs() == Resent(old(Abs()), p, None);
      if adjs[p].adv.Some? {
        var _ := Clean(p);
      }
      assert Abs() == Idle(Resent(old(Abs()), p, None), p);
      adjs := adjs - {p};
    }

    /** One turn of the loop of bgp_update_packet. */
    method SendOne(id: Id) returns (following: Option<Id>)
      requires Inv(Abs()) && id in update
      modifies this
      ensures Abs() == SentOut(old(Abs()), id) && Inv(Abs())
      ensures following.Some? ==> following.value in update && AttrOf(Abs(), following.value) == old(AttrOf(Abs(), id))
      ensures following.None? ==> forall x :: x in update ==> AttrOf(Abs(), x) != old(AttrOf(Abs(), id))
    {
      var p, b := advs[id].rn, advs[id].baa.value;
      var a := baas[b].attr;
      AttrStaysLive(Abs(), p, id);
      ResentKeeps(Abs(), p, Some(a));
      if adjs[p].attr.Some? {
        refs := Unintern(refs, adjs[p].attr.value);
      }
      assert a in refs;
      refs := Intern(refs, a);
      adjs := adjs[p := adjs[p].(attr := Some(a))];
      assert Abs() == Resent(old(Abs()), p, Some(a));
      NextCandidate(Abs(), p, id, b, Without(baas[b].list, id));
      following := Clean(p);
    }

    /** That turn, seen from the start of the packet. */
    method SendNext(id: Id, attr: Attr, ghost first: State, ghost sent: seq<Prefix>)
      returns (p: Prefix, following: Option<Id>)
      requires Inv(Abs()) && id in update && AttrOf(Abs(), id) == attr
      requires Inv(first) && Drained(first, Abs(), sent, attr)
      modifies this
      ensures Inv(Abs()) && p == old(advs)[id].rn && Drained(first, Abs(), sent + [p], attr)
      ensures Follows(Abs(), following, attr)
    {
      ghost var before := Abs();
      SendChanges(before, id);
      p := advs[id].rn;
      following := SendOne(id);
      DrainedMore(first, before, Abs(), sent, p, attr);
    }

    /** bgp_update_packet with room for so many prefixes: the announcements packed
        together all have the attribute of the one at the head of the queue; they
        become what was sent, nothing else changes, and while there is room none of
        that attribute is left. */
    method UpdatePacket(room: nat) returns (attr: Attr, sent: seq<Prefix>)
      requires Inv(Abs())
      modifies this
      ensures Inv(Abs()) && |sent| <= room
      ensures old(update) != [] && room > 0
              ==> sent != [] && old(update)[0] in old(advs) && sent[0] == old(advs[update[0]].rn)
      ensures Drained(old(Abs()), Abs(), sent, attr)
      ensures sent != [] && |sent| < room ==> forall q :: PendingOf(Abs(), q) != Announce(attr)
    {
      attr, sent := 0, [];
      var adv: Option<Id> := None;
      if update != [] {
        assert update[0] in update;
        adv := Some(update[0]);
        attr := baas[advs[update[0]].baa.value].attr;
      }
      ghost var first := adv;
      while adv.Some? && |sent| < room
        invariant Inv(Abs()) && |sent| <= room
        invariant Follows(Abs(), adv, attr)
        invariant if sent == [] then adv == first && advs == old(advs)
                  else first.Some? && first.value in old(advs) && sent[0] == old(advs)[first.value].rn
        invariant Drained(old(Abs()), Abs(), sent, attr)
        decreases room - |sent|
      {
        var p;
        p, adv := SendNext(adv.value, attr, old(Abs()), sent);
        sent := sent + [p];
      }
      if adv.None? {
        NoneLeft(Abs(), attr);
      }
    }

    /** bgp_withdraw_packet with room for so many prefixes. */
    method WithdrawPacket(room: nat) returns (sent: seq<Prefix>)
      requires Inv(Abs())
      modifies this
      ensures Inv(Abs()) && |sent| <= room && (|sent| < room ==> withdraw == [])
      ensures forall p :: p in sent ==> old(PendingOf(Abs(), p)) == Withdraw
      ensures forall p :: p in sent ==> PendingOf(Abs(), p) == Nothing && SentAttr(Abs(), p) == None
      ensures forall q :: q !in sent ==>
                PendingOf(Abs(), q) == old(PendingOf(Abs(), q)) && SentAttr(Abs(), q) == old(SentAttr(Abs(), q))
    {
      sent := [];
      while withdraw != [] && |sent| < room
        invariant Inv(Abs()) && |sent| <= room
        invariant Withdrawn(old(Abs()), Abs(), sent)
        decreases room - |sent|
      {
        ghost var before := Abs();
        assert withdraw[0] in withdraw;
        var p := advs[withdraw[0]].rn;
        RemoveChanges(Abs(), p);
        RemoveAdj(p);
        WithdrawnMore(old(Abs()), before, Abs(), sent, p);
        sent := sent + [p];
      }
    }
  }

  /** The announcement to send next has that attribute; there is none only when no
      announcement with it is left. */
  ghost predicate Follows(s: State, following: Option<Id>, a: Attr)
    requires Inv(s)
  {
    match following
    case Some(id) => id in s.update && AttrOf(s, id) == a
    case None => forall x :: x in s.update ==> AttrOf(s, x) != a
  }

  /** The prefixes sent had that announcement pending; the rest is as it was. */
  ghost predicate Drained(s: State, t: State, sent: seq<Prefix>, a: Attr)
    requires Inv(s) && Inv(t)
  {
    && (forall p :: p in sent ==>
      PendingOf(s, p) == Announce(a) && PendingOf(t, p) == Nothing && SentAttr(t, p) == Some(a))
    && (forall q :: q !in sent ==> PendingOf(t, q) == PendingOf(s, q) && SentAttr(t, q) == SentAttr(s, q))
  }

  lemma {:induction false} DrainedMore(s: State, t: State, u: State, sent: seq<Prefix>, p: Prefix, a: Attr)
    requires Inv(s) && Inv(t) && Inv(u) && Drained(s, t, sent, a) && PendingOf(t, p) == Announce(a)
    requires Changed(t, u, p, Nothing, Some(a))
    ensures Drained(s, u, sent + [p], a)
  {
    assert p !in sent;
  }

  ghost predicate Withdrawn(s: State, t: State, sent: seq<Prefix>)
    requires Inv(s) && Inv(t)
  {
    && (forall p :: p in sent ==> PendingOf(s, p) == Withdraw && PendingOf(t, p) == Nothing && SentAttr(t, p) == None)
    && (forall q :: q !in sent ==> PendingOf(t, q) == PendingOf(s, q) && SentAttr(t, q) == SentAttr(s, q))
  }

  lemma {:induction false} WithdrawnMore(s: State, t: State, u: State, sent: seq<Prefix>, p: Prefix)
    requires Inv(s) && Inv(t) && Inv(u) && Withdrawn(s, t, sent) && PendingOf(t, p) == Withdraw
    requires Changed(t, u, p, Nothing, None)
    ensures Withdrawn(s, u, sent + [p])
  {
    assert p !in sent;
  }
}
