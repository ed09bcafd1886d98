/** What is pending for one peer and address family: adjacencies, advertisements,
    the update and withdraw FIFOs, and the index of advertisements by attribute.

    Advertisements and their attribute entries are known by a number, as they are
    known by an address in the source; freeing one takes it out of its map, so
    that every access below is to something that has not been freed. */
module BgpAdvertise {
  import opened Wrappers

  type Prefix = nat
  type Attr = nat
  type Id = nat

  /** bgp_advertise: an announcement has an attribute entry, a withdrawal none. */
  datatype Adv = Adv(rn: Prefix, baa: Option<Id>)

  /** bgp_advertise_attr, with the list of its advertisements. */
  datatype Baa = Baa(attr: Attr, refcnt: nat, list: seq<Id>)

  /** bgp_adj_out: what was last sent, and what is pending. */
  datatype Adj = Adj(attr: Option<Attr>, adv: Option<Id>)

  // ----- Lists -----

  ghost predicate Distinct(s: seq<Id>) {
    forall i, j :: 0 <= i < j < |s| ==> s[i] != s[j]
  }

  function Without(s: seq<Id>, x: Id): seq<Id> {
    if s == [] then [] else if s[0] == x then Without(s[1..], x) else [s[0]] + Without(s[1..], x)
  }

  lemma {:induction false} WithoutMembers(s: seq<Id>, x: Id)
    ensures forall y :: y in Without(s, x) <==> y in s && y != x
    ensures Distinct(s) ==> Distinct(Without(s, x))
    decreases |s|
  {
    if s != [] {
      WithoutMembers(s[1..], x);
      assert s == [s[0]] + s[1..];
      if Distinct(s) && s[0] != x {
        var t := Without(s[1..], x);
        forall k | 0 <= k < |t| ensures t[k] != s[0] {
          assert t[k] in s[1..];
        }
      }
    }
  }

  lemma {:induction false} WithoutLength(s: seq<Id>, x: Id)
    requires Distinct(s)
    ensures |Without(s, x)| == if x in s then |s| - 1 else |s|
    decreases |s|
  {
    if s != [] {
      WithoutLength(s[1..], x);
      assert s == [s[0]] + s[1..];
    }
  }

  // ----- What the structures keep -----

  type Advs = map<Id, Adv>
  type Baas = map<Id, Baa>
  type Adjs = map<Prefix, Adj>

  /** Every advertisement belongs to the adjacency of its prefix, and is the only
      one there. */
  ghost predicate Owned(advs: Advs, adjs: Adjs) {
    && (forall id :: id in advs ==> advs[id].rn in adjs && adjs[advs[id].rn].adv == Some(id))
    && (forall p :: p in adjs && adjs[p].adv.Some? ==> adjs[p].adv.value in advs && advs[adjs[p].adv.value].rn == p)
  }

  /** The FIFOs hold the announcements and the withdrawals, each once. */
  ghost predicate Queued(advs: Advs, update: seq<Id>, withdraw: seq<Id>) {
    && Distinct(update) && Distinct(withdraw)
    && (forall id :: id in update <==> id in advs && advs[id].baa.Some?)
    && (forall id :: id in withdraw <==> id in advs && advs[id].baa.None?)
  }

  /** Every announcement is on the list of its attribute entry and on no other;
      entries are counted right and none is empty. */
  ghost predicate Listed(advs: Advs, baas: Baas) {
    && (forall id :: id in advs && advs[id].baa.Some? ==> advs[id].baa.value in baas)
    && (forall b :: b in baas ==> BaaOk(advs, b, baas[b]))
    && (forall id :: id in advs && advs[id].baa.Some? ==> id in baas[advs[id].baa.value].list)
  }

  ghost predicate BaaOk(advs: Advs, b: Id, baa: Baa) {
    && Distinct(baa.list) && baa.list != [] && baa.refcnt == |baa.list|
    && (forall id :: id in baa.list ==> id in advs && advs[id].baa == Some(b))
  }

  /** The hash finds each entry by its attribute. */
  ghost predicate Hashed(baas: Baas, hash: map<Attr, Id>) {
    && (forall b :: b in baas ==> baas[b].attr in hash && hash[baas[b].attr] == b)
    && (forall a :: a in hash ==> hash[a] in baas && baas[hash[a]].attr == a)
  }

  function Ref(refs: map<Attr, nat>, a: Attr): nat { if a in refs then refs[a] else 0 }

  function BaaRefs(baas: Baas, hash: map<Attr, Id>, a: Attr): nat {
    if a in hash && hash[a] in baas then baas[hash[a]].refcnt else 0
  }

  function SentWith(adjs: Adjs, a: Attr): set<Prefix> {
    set p | p in adjs && adjs[p].attr == Some(a)
  }

  /** References to an attribute: one for each pending announcement of it and one
      for each adjacency it was sent for. Unreferenced attributes are gone. */
  ghost predicate Balanced(refs: map<Attr, nat>, baas: Baas, hash: map<Attr, Id>, adjs: Adjs) {
    && (forall a :: Ref(refs, a) == BaaRefs(baas, hash, a) + |SentWith(adjs, a)|)
    && (forall a :: a in refs ==> refs[a] > 0)
  }

  ghost predicate Fresh(advs: Advs, baas: Baas, next: Id) {
    && (forall id :: id in advs ==> id < next)
    && (forall b :: b in baas ==> b < next)
  }

  function Intern(refs: map<Attr, nat>, a: Attr): map<Attr, nat> {
    refs[a := Ref(refs, a) + 1]
  }

  /** bgp_attr_unintern: the last reference frees the attribute. */
  function Unintern(refs: map<Attr, nat>, a: Attr): map<Attr, nat>
    requires a in refs && refs[a] > 0
  {
    if refs[a] == 1 then refs - {a} else refs[a := refs[a] - 1]
  }

  // ----- Steps on the values -----

  lemma {:induction false} ListShrinks(advs: Advs, baas: Baas, id: Id, b: Id)
    requires Listed(advs, baas) && id in advs && advs[id].baa == Some(b)
    ensures var l := Without(baas[b].list, id);
            var baas' := if l == [] then baas - {b} else baas[b := Baa(baas[b].attr, baas[b].refcnt - 1, l)];
            Listed(advs - {id}, baas') && |l| == |baas[b].list| - 1
  {
    var l := Without(baas[b].list, id);
    var advs' := advs - {id};
    WithoutMembers(baas[b].list, id);
    WithoutLength(baas[b].list, id);
    assert BaaOk(advs, b, baas[b]);
    var baas' := if l == [] then baas - {b} else baas[b := Baa(baas[b].attr, baas[b].refcnt - 1, l)];
    forall c | c in baas' ensures BaaOk(advs', c, baas'[c]) {
      assert BaaOk(advs, c, baas[c]);
    }
    forall x | x in advs' && advs'[x].baa.Some?
      ensures advs'[x].baa.value in baas' && x in baas'[advs'[x].baa.value].list
    {
      assert x in baas[advs[x].baa.value].list;
      assert x != id;
      if advs[x].baa.value == b {
        assert x in l;
      }
    }
  }

  lemma {:induction false} ListUntouched(advs: Advs, baas: Baas, id: Id)
    requires Listed(advs, baas) && id in advs && advs[id].baa.None?
    ensures Listed(advs - {id}, baas)
  {
    var advs' := advs - {id};
    forall c | c in baas ensures BaaOk(advs', c, baas[c]) {
      assert BaaOk(advs, c, baas[c]);
    }
  }

  lemma {:induction false} ListGrows(advs: Advs, baas: Baas, id: Id, b: Id, p: Prefix, a: Attr)
    requires Listed(advs, baas) && id !in advs
    requires b in baas ==> baas[b].attr == a
    ensures var advs' := advs[id := Adv(p, Some(b))];
            var baa := if b in baas then baas[b] else Baa(a, 0, []);
            Listed(advs', baas[b := Baa(a, baa.refcnt + 1, [id] + baa.list)])
  {
    var advs' := advs[id := Adv(p, Some(b))];
    var baa := if b in baas then baas[b] else Baa(a, 0, []);
    var baas' := baas[b := Baa(a, baa.refcnt + 1, [id] + baa.list)];
    forall c | c in baas' ensures BaaOk(advs', c, baas'[c]) {
      if c in baas {
        assert BaaOk(advs, c, baas[c]);
      }
    }
    forall x | x in advs' && advs'[x].baa.Some?
      ensures advs'[x].baa.value in baas' && x in baas'[advs'[x].baa.value].list
    {
      if x != id {
        assert x in baas[advs[x].baa.value].list;
      }
    }
  }

  lemma {:induction false} ListIgnores(advs: Advs, baas: Baas, id: Id, p: Prefix)
    requires Listed(advs, baas) && id !in advs
    ensures Listed(advs[id := Adv(p, None)], baas)
  {
    var advs' := advs[id := Adv(p, None)];
    forall c | c in baas ensures BaaOk(advs', c, baas[c]) {
      assert BaaOk(advs, c, baas[c]);
    }
  }

  /** Changing what was sent for one prefix changes two counts. */
  lemma {:induction false} SentChanges(adjs: Adjs, p: Prefix, adj: Adj, a: Attr)
    ensures var was := p in adjs && adjs[p].attr == Some(a);
            |SentWith(adjs[p := adj], a)|
            == |SentWith(adjs, a)| + (if adj.attr == Some(a) then 1 else 0) - (if was then 1 else 0)
  {
    var before, after := SentWith(adjs, a), SentWith(adjs[p := adj], a);
    assert before - {p} == after - {p};
    assert p in before <==> p in adjs && adjs[p].attr == Some(a);
    assert p in after <==> adj.attr == Some(a);
    assert p in before ==> before == (before - {p}) + {p};
    assert p in after ==> after == (after - {p}) + {p};
    assert p !in before ==> before == before - {p};
    assert p !in after ==> after == after - {p};
  }

  lemma {:induction false} SentDropped(adjs: Adjs, p: Prefix, a: Attr)
    requires p in adjs && adjs[p].attr.None?
    ensures SentWith(adjs - {p}, a) == SentWith(adjs, a)
  {}

  // ----- The structures as a whole -----

  datatype State = State(adjs: Adjs, advs: Advs, baas: Baas, hash: map<Attr, Id>, refs: map<Attr, nat>,
                         update: seq<Id>, withdraw: seq<Id>, next: Id)

  ghost predicate Inv(s: State) {
    && Owned(s.advs, s.adjs) && Queued(s.advs, s.update, s.withdraw) && Listed(s.advs, s.baas)
    && Hashed(s.baas, s.hash) && Balanced(s.refs, s.baas, s.hash, s.adjs) && Fresh(s.advs, s.baas, s.next)
  }

  const EMPTY := State(map[], map[], map[], map[], map[], [], [], 0)

  ghost predicate HasPending(s: State, p: Prefix) {
    p in s.adjs && s.adjs[p].adv.Some? && s.adjs[p].adv.value in s.advs
  }

  /** The announcement leaves the list of its entry, which goes, and leaves the
      hash, when nothing is left on it. */
  ghost function Unlinked(s: State, id: Id, b: Id): State
    requires b in s.baas && s.baas[b].refcnt > 0 && s.baas[b].attr in s.refs && s.refs[s.baas[b].attr] > 0
  {
    var baa, l := s.baas[b], Without(s.baas[b].list, id);
    if l == [] then s.(baas := s.baas - {b}, hash := s.hash - {baa.attr}, refs := Unintern(s.refs, baa.attr))
    else s.(baas := s.baas[b := Baa(baa.attr, baa.refcnt - 1, l)], refs := Unintern(s.refs, baa.attr))
  }

  lemma {:induction false} BaaFacts(s: State, id: Id)
    requires Inv(s) && id in s.advs && s.advs[id].baa.Some?
    ensures var b := s.advs[id].baa.value;
            && b in s.baas && BaaOk(s.advs, b, s.baas[b]) && id in s.baas[b].list && s.baas[b].refcnt > 0
            && s.baas[b].attr in s.refs && s.refs[s.baas[b].attr] > 0
            && s.baas[b].attr in s.hash && s.hash[s.baas[b].attr] == b
  {
    var b := s.advs[id].baa.value;
    assert BaaOk(s.advs, b, s.baas[b]);
    var a := s.baas[b].attr;
    assert Ref(s.refs, a) == BaaRefs(s.baas, s.hash, a) + |SentWith(s.adjs, a)|;
  }

  /** What is pending for a prefix is forgotten. */
  ghost function Cleaned(s: State, p: Prefix): State
    requires Inv(s) && HasPending(s, p)
  {
    var id := s.adjs[p].adv.value;
    BaaFactsIf(s, id);
    var t := if s.advs[id].baa.Some? then Unlinked(s, id, s.advs[id].baa.value) else s;
    t.(update := Without(s.update, id), withdraw := Without(s.withdraw, id),
       advs := s.advs - {id}, adjs := s.adjs[p := s.adjs[p].(adv := None)])
  }

  lemma {:induction false} BaaFactsIf(s: State, id: Id)
    requires Inv(s) && id in s.advs
    ensures s.advs[id].baa.Some? ==>
              var b := s.advs[id].baa.value;
              b in s.baas && s.baas[b].refcnt > 0 && s.baas[b].attr in s.refs && s.refs[s.baas[b].attr] > 0
  {
    if s.advs[id].baa.Some? {
      BaaFacts(s, id);
    }
  }

  lemma {:induction false} CleanOwned(advs: Advs, adjs: Adjs, p: Prefix)
    requires Owned(advs, adjs) && p in adjs && adjs[p].adv.Some?
    ensures Owned(advs - {adjs[p].adv.value}, adjs[p := adjs[p].(adv := None)])
  {}

  lemma {:induction false} CleanQueued(advs: Advs, update: seq<Id>, withdraw: seq<Id>, id: Id)
    requires Queued(advs, update, withdraw)
    ensures Queued(advs - {id}, Without(update, id), Without(withdraw, id))
  {
    WithoutMembers(update, id);
    WithoutMembers(withdraw, id);
  }

  lemma {:induction false} HashShrinks(baas: Baas, hash: map<Attr, Id>, b: Id)
    requires Hashed(baas, hash) && b in baas
    ensures Hashed(baas - {b}, hash - {baas[b].attr})
    ensures forall a :: BaaRefs(baas - {b}, hash - {baas[b].attr}, a)
                        == if a == baas[b].attr then 0 else BaaRefs(baas, hash, a)
  {}

  lemma {:induction false} HashKept(baas: Baas, hash: map<Attr, Id>, b: Id, baa: Baa)
    requires Hashed(baas, hash) && b in baas && baa.attr == baas[b].attr
    ensures Hashed(baas[b := baa], hash)
    ensures forall a :: BaaRefs(baas[b := baa], hash, a) == if a == baa.attr then baa.refcnt else BaaRefs(baas, hash, a)
  {
    forall a ensures BaaRefs(baas[b := baa], hash, a) == if a == baa.attr then baa.refcnt else BaaRefs(baas, hash, a) {
      if a in hash && a != baa.attr {
        assert hash[a] != b;
      }
    }
  }

  lemma {:induction false} RefsDrop(refs: map<Attr, nat>, a: Attr, x: Attr)
    requires a in refs && refs[a] > 0
    ensures Ref(Unintern(refs, a), x) == Ref(refs, x) - if x == a then 1 else 0
  {}

  /** Dropping one reference where one user has gone. */
  lemma {:induction false} StillBalanced(refs: map<Attr, nat>, baas: Baas, hash: map<Attr, Id>, adjs: Adjs,
                                         baas': Baas, hash': map<Attr, Id>, a: Attr)
    requires Balanced(refs, baas, hash, adjs) && a in refs
    requires forall x :: BaaRefs(baas', hash', x) == BaaRefs(baas, hash, x) - if x == a then 1 else 0
    ensures Balanced(Unintern(refs, a), baas', hash', adjs)
  {
    forall x ensures Ref(Unintern(refs, a), x) == BaaRefs(baas', hash', x) + |SentWith(adjs, x)| {
      RefsDrop(refs, a, x);
      assert Ref(refs, x) == BaaRefs(baas, hash, x) + |SentWith(adjs, x)|;
    }
  }

  lemma {:induction false} SameSentBalanced(refs: map<Attr, nat>, baas: Baas, hash: map<Attr, Id>, adjs: Adjs,
                                            p: Prefix, adj: Adj)
    requires Balanced(refs, baas, hash, adjs) && adj.attr == (if p in adjs then adjs[p].attr else None)
    ensures Balanced(refs, baas, hash, adjs[p := adj])
  {
    forall x ensures Ref(refs, x) == BaaRefs(baas, hash, x) + |SentWith(adjs[p := adj], x)| {
      assert Ref(refs, x) == BaaRefs(baas, hash, x) + |SentWith(adjs, x)|;
      SentChanges(adjs, p, adj, x);
    }
  }

  lemma {:induction false} UnlinkKeeps(s: State, id: Id, b: Id)
    requires Inv(s) && id in s.advs && s.advs[id].baa == Some(b)
    requires b in s.baas && s.baas[b].refcnt > 0 && s.baas[b].attr in s.refs && s.refs[s.baas[b].attr] > 0
    ensures var t := Unlinked(s, id, b);
            && Listed(s.advs - {id}, t.baas) && Hashed(t.baas, t.hash) && Balanced(t.refs, t.baas, t.hash, s.adjs)
            && t.baas.Keys <= s.baas.Keys
  {
    BaaFacts(s, id);
    ListShrinks(s.advs, s.baas, id, b);
    var baa, l := s.baas[b], Without(s.baas[b].list, id);
    var t := Unlinked(s, id, b);
    if l == [] {
      HashShrinks(s.baas, s.hash, b);
    } else {
      HashKept(s.baas, s.hash, b, Baa(baa.attr, baa.refcnt - 1, l));
    }
    assert BaaRefs(s.baas, s.hash, baa.attr) == baa.refcnt;
    StillBalanced(s.refs, s.baas, s.hash, s.adjs, t.baas, t.hash, baa.attr);
  }

  lemma {:induction false} CleanKeeps(s: State, p: Prefix)
    requires Inv(s) && HasPending(s, p)
    ensures Inv(Cleaned(s, p))
  {
    var id := s.adjs[p].adv.value;
    var t := Cleaned(s, p);
    CleanOwned(s.advs, s.adjs, p);
    CleanQueued(s.advs, s.update, s.withdraw, id);
    BaaFactsIf(s, id);
    if s.advs[id].baa.Some? {
      UnlinkKeeps(s, id, s.advs[id].baa.value);
    } else {
      ListUntouched(s.advs, s.baas, id);
    }
    SameSentBalanced(t.refs, t.baas, t.hash, s.adjs, p, s.adjs[p].(adv := None));
  }

  /** Room for a prefix among the adjacencies. */
  ghost function Adjacent(s: State, p: Prefix): State {
    if p in s.adjs then s else s.(adjs := s.adjs[p := Adj(None, None)])
  }

  lemma {:induction false} AdjacentKeeps(s: State, p: Prefix)
    requires Inv(s)
    ensures Inv(Adjacent(s, p))
  {
    if p !in s.adjs {
      SameSentBalanced(s.refs, s.baas, s.hash, s.adjs, p, Adj(None, None));
    }
  }

  /** The entry of an attribute: the one the hash finds, or a new one. */
  ghost function EntryFor(baas: Baas, hash: map<Attr, Id>, a: Attr, number: Id): Id {
    if a in hash && hash[a] in baas then hash[a] else number
  }

  ghost function Enlisted(baas: Baas, hash: map<Attr, Id>, a: Attr, number: Id, id: Id): Baas {
    var b := EntryFor(baas, hash, a, number);
    var baa := if a in hash && hash[a] in baas then baas[b] else Baa(a, 0, []);
    baas[b := Baa(a, baa.refcnt + 1, [id] + baa.list)]
  }

  /** A new announcement: interned, listed first for its attribute, queued last. */
  ghost function Advertised(s: State, p: Prefix, a: Attr): State
    requires p in s.adjs
  {
    var id := s.next;
    var b := EntryFor(s.baas, s.hash, a, s.next + 1);
    State(s.adjs[p := s.adjs[p].(adv := Some(id))], s.advs[id := Adv(p, Some(b))],
          Enlisted(s.baas, s.hash, a, s.next + 1, id), s.hash[a := b], Intern(s.refs, a),
          s.update + [id], s.withdraw, s.next + 2)
  }

  lemma {:induction false} NewOwned(advs: Advs, adjs: Adjs, p: Prefix, id: Id, baa: Option<Id>)
    requires Owned(advs, adjs) && p in adjs && adjs[p].adv.None? && id !in advs
    ensures Owned(advs[id := Adv(p, baa)], adjs[p := adjs[p].(adv := Some(id))])
  {}

  lemma {:induction false} NewQueued(advs: Advs, update: seq<Id>, withdraw: seq<Id>, p: Prefix, id: Id, baa: Option<Id>)
    requires Queued(advs, update, withdraw) && id !in advs
    ensures Queued(advs[id := Adv(p, baa)], if baa.Some? then update + [id] else update,
                   if baa.None? then withdraw + [id] else withdraw)
  {
    assert id !in update && id !in withdraw;
  }

  lemma {:induction false} HashGrows(baas: Baas, hash: map<Attr, Id>, b: Id, baa: Baa)
    requires Hashed(baas, hash) && (if baa.attr in hash then b == hash[baa.attr] else b !in baas)
    ensures Hashed(baas[b := baa], hash[baa.attr := b])
    ensures forall a :: BaaRefs(baas[b := baa], hash[baa.attr := b], a)
                        == if a == baa.attr then baa.refcnt else BaaRefs(baas, hash, a)
  {
    forall a ensures BaaRefs(baas[b := baa], hash[baa.attr := b], a)
                     == if a == baa.attr then baa.refcnt else BaaRefs(baas, hash, a) {
      if a in hash && a != baa.attr {
        assert hash[a] != b;
      }
    }
  }

  lemma {:induction false} OneMoreBalanced(refs: map<Attr, nat>, baas: Baas, hash: map<Attr, Id>, adjs: Adjs,
                                           baas': Baas, hash': map<Attr, Id>, a: Attr)
    requires Balanced(refs, baas, hash, adjs)
    requires forall x :: BaaRefs(baas', hash', x) == BaaRefs(baas, hash, x) + if x == a then 1 else 0
    ensures Balanced(Intern(refs, a), baas', hash', adjs)
  {
    forall x ensures Ref(Intern(refs, a), x) == BaaRefs(baas', hash', x) + |SentWith(adjs, x)| {
      assert Ref(refs, x) == BaaRefs(baas, hash, x) + |SentWith(adjs, x)|;
    }
  }

  lemma {:induction false} AdvertiseKeeps(s: State, p: Prefix, a: Attr)
    requires Inv(s) && p in s.adjs && s.adjs[p].adv.None?
    ensures Inv(Advertised(s, p, a))
  {
    AdvertiseLinks(s, p, a);
    AdvertiseCounts(s, p, a);
  }

  lemma {:induction false} AdvertiseLinks(s: State, p: Prefix, a: Attr)
    requires p in s.adjs && s.adjs[p].adv.None? && Owned(s.advs, s.adjs) && Queued(s.advs, s.update, s.withdraw)
    requires Listed(s.advs, s.baas) && Hashed(s.baas, s.hash) && Fresh(s.advs, s.baas, s.next)
    ensures var t := Advertised(s, p, a);
            && Owned(t.advs, t.adjs) && Queued(t.advs, t.update, t.withdraw)
            && Listed(t.advs, t.baas) && Fresh(t.advs, t.baas, t.next)
  {
    var b := Some(Advertised(s, p, a).hash[a]);
    NewOwned(s.advs, s.adjs, p, s.next, b);
    NewQueued(s.advs, s.update, s.withdraw, p, s.next, b);
    AdvertiseListed(s, p, a);
  }

  lemma {:induction false} AdvertiseListed(s: State, p: Prefix, a: Attr)
    requires p in s.adjs && Listed(s.advs, s.baas) && Hashed(s.baas, s.hash) && Fresh(s.advs, s.baas, s.next)
    ensures Listed(Advertised(s, p, a).advs, Advertised(s, p, a).baas)
  {
    ListGrows(s.advs, s.baas, s.next, Advertised(s, p, a).hash[a], p, a);
  }

  lemma {:induction false} AdvertiseCounts(s: State, p: Prefix, a: Attr)
    requires p in s.adjs && Hashed(s.baas, s.hash) && Balanced(s.refs, s.baas, s.hash, s.adjs) && s.next + 1 !in s.baas
    ensures var t := Advertised(s, p, a);
            Hashed(t.baas, t.hash) && Balanced(t.refs, t.baas, t.hash, t.adjs)
  {
    var t := Advertised(s, p, a);
    var b := t.hash[a];
    HashGrows(s.baas, s.hash, b, t.baas[b]);
    OneMoreBalanced(s.refs, s.baas, s.hash, s.adjs, t.baas, t.hash, a);
    SameSentBalanced(t.refs, t.baas, t.hash, s.adjs, p, t.adjs[p]);
  }

  /** A withdrawal queued. */
  ghost function Withdrawing(s: State, p: Prefix): State
    requires p in s.adjs
  {
    s.(adjs := s.adjs[p := s.adjs[p].(adv := Some(s.next))], advs := s.advs[s.next := Adv(p, None)],
       withdraw := s.withdraw + [s.next], next := s.next + 1)
  }

  lemma {:induction false} WithdrawingKeeps(s: State, p: Prefix)
    requires Inv(s) && p in s.adjs && s.adjs[p].adv.None?
    ensures Inv(Withdrawing(s, p))
  {
    assert s.next !in s.advs;
    NewOwned(s.advs, s.adjs, p, s.next, None);
    NewQueued(s.advs, s.update, s.withdraw, p, s.next, None);
    ListIgnores(s.advs, s.baas, s.next, p);
    SameSentBalanced(s.refs, s.baas, s.hash, s.adjs, p, s.adjs[p].(adv := Some(s.next)));
  }

  /** What was sent for a prefix is replaced, the attribute references with it. */
  ghost function Resent(s: State, p: Prefix, attr: Option<Attr>): State
    requires Inv(s) && p in s.adjs
  {
    SentIsLive(s, p);
    var refs := if s.adjs[p].attr.Some? then Unintern(s.refs, s.adjs[p].attr.value) else s.refs;
    s.(adjs := s.adjs[p := s.adjs[p].(attr := attr)], refs := if attr.Some? then Intern(refs, attr.value) else refs)
  }

  lemma {:induction false} SentIsLive(s: State, p: Prefix)
    requires Inv(s) && p in s.adjs
    ensures s.adjs[p].attr.Some? ==> s.adjs[p].attr.value in s.refs && s.refs[s.adjs[p].attr.value] > 0
  {
    if s.adjs[p].attr.Some? {
      var a := s.adjs[p].attr.value;
      assert p in SentWith(s.adjs, a);
      assert Ref(s.refs, a) == BaaRefs(s.baas, s.hash, a) + |SentWith(s.adjs, a)|;
    }
  }

  lemma {:induction false} ResentKeeps(s: State, p: Prefix, attr: Option<Attr>)
    requires Inv(s) && p in s.adjs
    ensures Inv(Resent(s, p, attr))
  {
    SentIsLive(s, p);
    var t := Resent(s, p, attr);
    forall x ensures Ref(t.refs, x) == BaaRefs(t.baas, t.hash, x) + |SentWith(t.adjs, x)| {
      assert Ref(s.refs, x) == BaaRefs(s.baas, s.hash, x) + |SentWith(s.adjs, x)|;
      SentChanges(s.adjs, p, t.adjs[p], x);
    }
  }

  ghost function Forgotten(s: State, p: Prefix): State {
    s.(adjs := s.adjs - {p})
  }

  lemma {:induction false} ForgottenKeeps(s: State, p: Prefix)
    requires Inv(s) && p in s.adjs && s.adjs[p] == Adj(None, None)
    ensures Inv(Forgotten(s, p))
  {
    var t := Forgotten(s, p);
    forall x ensures Ref(t.refs, x) == BaaRefs(t.baas, t.hash, x) + |SentWith(t.adjs, x)| {
      assert Ref(s.refs, x) == BaaRefs(s.baas, s.hash, x) + |SentWith(s.adjs, x)|;
      SentDropped(s.adjs, p, x);
    }
  }

  // ----- The operations -----

  ghost function Idle(s: State, p: Prefix): (t: State)
    requires Inv(s) && p in s.adjs
    ensures Inv(t) && p in t.adjs && t.adjs[p].adv.None?
  {
    CleanIfPending(s, p);
    if s.adjs[p].adv.Some? then Cleaned(s, p) else s
  }

  lemma {:induction false} CleanIfPending(s: State, p: Prefix)
    requires Inv(s) && p in s.adjs
    ensures s.adjs[p].adv.Some? ==> HasPending(s, p) && Inv(Cleaned(s, p))
  {
    if s.adjs[p].adv.Some? {
      CleanKeeps(s, p);
    }
  }

  /** bgp_adj_out_set. */
  ghost function SetOut(s: State, p: Prefix, a: Attr): (t: State)
    requires Inv(s)
    ensures Inv(t)
  {
    AdjacentKeeps(s, p);
    var idle := Idle(Adjacent(s, p), p);
    AdvertiseKeeps(idle, p, a);
    Advertised(idle, p, a)
  }

  /** bgp_adj_out_unset. */
  ghost function UnsetOut(s: State, p: Prefix): (t: State)
    requires Inv(s)
    ensures Inv(t)
  {
    if p !in s.adjs then s
    else
      var idle := Idle(s, p);
      if idle.adjs[p].attr.Some? then WithdrawingKeeps(idle, p); Withdrawing(idle, p)
      else ForgottenKeeps(idle, p); Forgotten(idle, p)
  }

  /** bgp_adj_out_remove. */
  ghost function RemoveOut(s: State, p: Prefix): (t: State)
    requires Inv(s)
    ensures Inv(t)
  {
    if p !in s.adjs then s
    else
      ResentKeeps(s, p, None);
      var idle := Idle(Resent(s, p, None), p);
      ForgottenKeeps(idle, p);
      Forgotten(idle, p)
  }

  ghost function AttrOf(s: State, id: Id): Attr
    requires Inv(s) && id in s.update
  {
    s.baas[s.advs[id].baa.value].attr
  }

  /** One announcement put into an update packet. */
  ghost function SentOut(s: State, id: Id): (t: State)
    requires Inv(s)
    ensures Inv(t)
  {
    if id !in s.update then s
    else
      var p := s.advs[id].rn;
      ResentKeeps(s, p, Some(AttrOf(s, id)));
      Idle(Resent(s, p, Some(AttrOf(s, id))), p)
  }

  // ----- What the operations mean -----

  /** What is pending for a prefix: the attribute to announce, or a withdrawal. */
  datatype Pending = Nothing | Announce(attr: Attr) | Withdraw

  ghost function PendingOf(s: State, p: Prefix): Pending
    requires Inv(s)
  {
    if p !in s.adjs || s.adjs[p].adv.None? then Nothing
    else
      var adv := s.advs[s.adjs[p].adv.value];
      if adv.baa.None? then Withdraw else Announce(s.baas[adv.baa.value].attr)
  }

  ghost function SentAttr(s: State, p: Prefix): Option<Attr> {
    if p in s.adjs then s.adjs[p].attr else None
  }

  /** bgp_adj_out_lookup. */
  ghost predicate Lookup(s: State, p: Prefix)
    requires Inv(s)
  {
    p in s.adjs &&
    if s.adjs[p].adv.Some? then s.advs[s.adjs[p].adv.value].baa.Some? else s.adjs[p].attr.Some?
  }

  /** `t` is `s` with `p` alone changed, to that. */
  ghost predicate Changed(s: State, t: State, p: Prefix, pending: Pending, sent: Option<Attr>)
    requires Inv(s) && Inv(t)
  {
    && PendingOf(t, p) == pending && SentAttr(t, p) == sent
    && forall q :: q != p ==> PendingOf(t, q) == PendingOf(s, q) && SentAttr(t, q) == SentAttr(s, q)
  }

  lemma {:induction false} Then(s: State, t: State, u: State, p: Prefix, x: Pending, sent: Option<Attr>, y: Pending,
                                sent': Option<Attr>)
    requires Inv(s) && Inv(t) && Inv(u) && Changed(s, t, p, x, sent) && Changed(t, u, p, y, sent')
    ensures Changed(s, u, p, y, sent')
  {}

  /** A prefix whose advertisement and attribute entry are as before has the same
      pending. */
  lemma {:induction false} SamePending(s: State, t: State, q: Prefix)
    requires Inv(s) && Inv(t)
    requires q in s.adjs <==> q in t.adjs
    requires q in s.adjs ==> t.adjs[q].adv == s.adjs[q].adv
    requires HasPending(s, q) ==>
               var id := s.adjs[q].adv.value;
               && id in t.advs && t.advs[id] == s.advs[id]
               && (s.advs[id].baa.Some? && s.advs[id].baa.value in s.baas && s.advs[id].baa.value in t.baas ==>
                     t.baas[s.advs[id].baa.value].attr == s.baas[s.advs[id].baa.value].attr)
    ensures PendingOf(t, q) == PendingOf(s, q)
  {}

  lemma {:induction false} CleanChanges(s: State, p: Prefix)
    requires Inv(s) && HasPending(s, p)
    ensures Inv(Cleaned(s, p)) && Changed(s, Cleaned(s, p), p, Nothing, SentAttr(s, p))
  {
    CleanKeeps(s, p);
    var t, id := Cleaned(s, p), s.adjs[p].adv.value;
    BaaFactsIf(s, id);
    assert forall c :: c in t.baas ==> c in s.baas && t.baas[c].attr == s.baas[c].attr;
    forall q | q != p ensures PendingOf(t, q) == PendingOf(s, q) {
      if q in s.adjs && s.adjs[q].adv.Some? {
        assert s.advs[s.adjs[q].adv.value].rn == q;
      }
      SamePending(s, t, q);
    }
  }

  lemma {:induction false} IdleChanges(s: State, p: Prefix)
    requires Inv(s) && p in s.adjs
    ensures Changed(s, Idle(s, p), p, Nothing, SentAttr(s, p))
  {
    if s.adjs[p].adv.Some? {
      CleanChanges(s, p);
    }
  }

  lemma {:induction false} AdvertiseKeepsAttrs(s: State, p: Prefix, a: Attr)
    requires p in s.adjs && Hashed(s.baas, s.hash)
    ensures var t := Advertised(s, p, a);
            forall c :: c in s.baas && c in t.baas && c < s.next ==> t.baas[c].attr == s.baas[c].attr
  {}

  lemma {:induction false} AdvertiseChanges(s: State, p: Prefix, a: Attr)
    requires Inv(s) && p in s.adjs && s.adjs[p].adv.None?
    ensures Inv(Advertised(s, p, a)) && Changed(s, Advertised(s, p, a), p, Announce(a), SentAttr(s, p))
  {
    AdvertiseKeeps(s, p, a);
    var t := Advertised(s, p, a);
    assert s.next !in s.advs;
    AdvertiseKeepsAttrs(s, p, a);
    forall q | q != p ensures PendingOf(t, q) == PendingOf(s, q) {
      SamePending(s, t, q);
    }
  }

  lemma {:induction false} WithdrawingChanges(s: State, p: Prefix)
    requires Inv(s) && p in s.adjs && s.adjs[p].adv.None?
    ensures Inv(Withdrawing(s, p)) && Changed(s, Withdrawing(s, p), p, Withdraw, SentAttr(s, p))
  {
    WithdrawingKeeps(s, p);
    var t := Withdrawing(s, p);
    assert s.next !in s.advs;
    forall q | q != p ensures PendingOf(t, q) == PendingOf(s, q) {
      SamePending(s, t, q);
    }
  }

  lemma {:induction false} AdjacentChanges(s: State, p: Prefix)
    requires Inv(s)
    ensures Inv(Adjacent(s, p)) && Changed(s, Adjacent(s, p), p, PendingOf(s, p), SentAttr(s, p))
  {
    AdjacentKeeps(s, p);
  }

  lemma {:induction false} ResentChanges(s: State, p: Prefix, attr: Option<Attr>)
    requires Inv(s) && p in s.adjs
    ensures Inv(Resent(s, p, attr)) && Changed(s, Resent(s, p, attr), p, PendingOf(s, p), attr)
  {
    ResentKeeps(s, p, attr);
    var t := Resent(s, p, attr);
    forall q ensures PendingOf(t, q) == PendingOf(s, q) {
      SamePending(s, t, q);
    }
  }

  lemma {:induction false} ForgottenChanges(s: State, p: Prefix)
    requires Inv(s) && p in s.adjs && s.adjs[p] == Adj(None, None)
    ensures Inv(Forgotten(s, p)) && Changed(s, Forgotten(s, p), p, Nothing, None)
  {
    ForgottenKeeps(s, p);
  }

  /** bgp_adj_out_set: whatever was pending, the announcement is pending now, for
      that prefix alone. */
  lemma {:induction false} SetChanges(s: State, p: Prefix, a: Attr)
    requires Inv(s)
    ensures Changed(s, SetOut(s, p, a), p, Announce(a), SentAttr(s, p))
  {
    var sent := SentAttr(s, p);
    AdjacentChanges(s, p);
    var s1 := Adjacent(s, p);
    IdleChanges(s1, p);
    var s2 := Idle(s1, p);
    AdvertiseChanges(s2, p, a);
    Then(s, s1, s2, p, PendingOf(s, p), sent, Nothing, sent);
    Then(s, s2, SetOut(s, p, a), p, Nothing, sent, Announce(a), sent);
  }

  /** bgp_adj_out_unset: an announcement not yet sent is forgotten, one that was
      sent is withdrawn. */
  lemma {:induction false} UnsetChanges(s: State, p: Prefix)
    requires Inv(s)
    ensures var sent := SentAttr(s, p);
            Changed(s, UnsetOut(s, p), p, if sent.Some? then Withdraw else Nothing, sent)
  {
    if p in s.adjs {
      var sent := SentAttr(s, p);
      IdleChanges(s, p);
      var idle := Idle(s, p);
      if sent.Some? {
        WithdrawingChanges(idle, p);
        Then(s, idle, UnsetOut(s, p), p, Nothing, sent, Withdraw, sent);
      } else {
        ForgottenChanges(idle, p);
        Then(s, idle, UnsetOut(s, p), p, Nothing, sent, Nothing, sent);
      }
    }
  }

  /** bgp_adj_out_remove: nothing is left of the prefix. */
  lemma {:induction false} RemoveChanges(s: State, p: Prefix)
    requires Inv(s)
    ensures Changed(s, RemoveOut(s, p), p, Nothing, None)
  {
    if p in s.adjs {
      ResentChanges(s, p, None);
      var s1 := Resent(s, p, None);
      IdleChanges(s1, p);
      var s2 := Idle(s1, p);
      ForgottenChanges(s2, p);
      Then(s, s1, s2, p, PendingOf(s, p), None, Nothing, None);
      Then(s, s2, RemoveOut(s, p), p, Nothing, None, Nothing, None);
    }
  }

  /** Sending an announcement: what was pending is what was sent. */
  lemma {:induction false} SendChanges(s: State, id: Id)
    requires Inv(s) && id in s.update
    ensures PendingOf(s, s.advs[id].rn) == Announce(AttrOf(s, id))
    ensures Changed(s, SentOut(s, id), s.advs[id].rn, Nothing, Some(AttrOf(s, id)))
  {
    var p, sent := s.advs[id].rn, Some(AttrOf(s, id));
    ResentChanges(s, p, sent);
    var s1 := Resent(s, p, sent);
    IdleChanges(s1, p);
    Then(s, s1, SentOut(s, id), p, PendingOf(s, p), sent, Nothing, sent);
  }

  lemma {:induction false} EmptyInv()
    ensures Inv(EMPTY)
  {
    assert forall a :: SentWith(EMPTY.adjs, a) == {};
  }
}
