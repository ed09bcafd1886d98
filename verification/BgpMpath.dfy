/** BGP multipath selection: the list of multipaths hanging off the best path is
    brought up to date in place by a walk over the old list and the sorted list
    of candidates together. */
module BgpMpath {
  import opened Wrappers

  /** The MP_REACH next hop kept in attr_extra. */
  datatype MpNextHop = MpNextHop(len: nat, global: nat, local: nat)

  datatype NextHop = NextHop(v4: nat, mp: Option<MpNextHop>)

  function CompareNat(a: nat, b: nat): int {
    if a < b then -1 else if a > b then 1 else 0
  }

  /** bgp_info_nexthop_cmp. */
  function CompareNextHop(a: NextHop, b: NextHop): int {
    var c := CompareNat(a.v4, b.v4);
    if c != 0 || a.mp.None? || b.mp.None? || a.mp.value.len != b.mp.value.len then c
    else
      var len := a.mp.value.len;
      var g := CompareNat(a.mp.value.global, b.mp.value.global);
      if len == 4 || len == 12 || len == 16 then g
      else if len == 32 then (if g != 0 then g else CompareNat(a.mp.value.local, b.mp.value.local))
      else 0
  }

  /** struct bgp_info with its bgp_info_mpath element. */
  class PathInfo {
    const nexthop: NextHop
    const peer: nat
    const ibgp: bool
    var mpNext: PathInfo?
    var mpPrev: PathInfo?
    var mpCount: nat
    var multipath: bool
    var multipathChg: bool

    constructor (nexthop: NextHop, peer: nat, ibgp: bool)
      ensures this.nexthop == nexthop && this.peer == peer && this.ibgp == ibgp
      ensures mpNext == null && mpPrev == null && mpCount == 0 && !multipath && !multipathChg
    {
      this.nexthop, this.peer, this.ibgp := nexthop, peer, ibgp;
      mpNext, mpPrev, mpCount, multipath, multipathChg := null, null, 0, false, false;
    }
  }

  /** bgp_info_mpath_cmp: by next hop, then by peer address. */
  function Compare(a: PathInfo, b: PathInfo): int {
    var c := CompareNextHop(a.nexthop, b.nexthop);
    if c != 0 then c else CompareNat(a.peer, b.peer)
  }

  predicate Distinct(s: seq<PathInfo>) {
    forall i, j :: 0 <= i < j < |s| ==> s[i] != s[j]
  }

  function Before(s: seq<PathInfo>, i: nat): PathInfo?
    requires i < |s|
  {
    if i == 0 then null else s[i - 1]
  }

  function After(s: seq<PathInfo>, i: nat): PathInfo?
    requires i < |s|
  {
    if i == |s| - 1 then null else s[i + 1]
  }

  /** A well-formed doubly linked list of exactly these paths. */
  ghost predicate Chain(s: seq<PathInfo>)
    reads s`mpNext, s`mpPrev
  {
    && Distinct(s)
    && (forall i {:trigger s[i].mpPrev} :: 0 <= i < |s| ==> s[i].mpPrev == Before(s, i))
    && (forall i {:trigger s[i].mpNext} :: 0 <= i < |s| ==> s[i].mpNext == After(s, i))
  }

  function Without(s: seq<PathInfo>, k: nat): seq<PathInfo>
    requires k < |s|
  {
    s[..k] + s[k + 1..]
  }

  /** The links around the k-th path bypass it. */
  ghost predicate Bypassed(s: seq<PathInfo>, k: nat)
    requires k < |s|
    reads s`mpNext, s`mpPrev
  {
    && (forall j {:trigger s[j].mpPrev} :: 0 <= j < |s| && j != k ==>
          s[j].mpPrev == if j == k + 1 then Before(s, k) else Before(s, j))
    && (forall j {:trigger s[j].mpNext} :: 0 <= j < |s| && j != k ==>
          s[j].mpNext == if j + 1 == k then After(s, k) else After(s, j))
  }

  lemma {:induction false} WithoutDistinct(s: seq<PathInfo>, k: nat)
    requires Distinct(s) && k < |s|
    ensures Distinct(Without(s, k)) && s[k] !in Without(s, k)
    ensures forall i :: 0 <= i < |s| - 1 ==> Without(s, k)[i] == s[if i < k then i else i + 1]
  {}

  lemma {:induction false} WithoutMembers(s: seq<PathInfo>, k: nat)
    requires Distinct(s) && k < |s|
    ensures forall y :: y in Without(s, k) <==> y in s && y != s[k]
  {
    WithoutDistinct(s, k);
    var t := Without(s, k);
    forall y | y in s && y != s[k] ensures y in t {
      var j :| 0 <= j < |s| && s[j] == y;
      assert t[if j < k then j else j - 1] == y;
    }
  }

  lemma {:induction false} BypassedChain(s: seq<PathInfo>, k: nat)
    requires Distinct(s) && k < |s| && Bypassed(s, k)
    ensures Chain(Without(s, k))
  {
    var t := Without(s, k);
    WithoutDistinct(s, k);
    forall i | 0 <= i < |t| ensures t[i].mpPrev == Before(t, i) && t[i].mpNext == After(t, i) {
      var j := if i < k then i else i + 1;
      assert t[i] == s[j];
      assert i > 0 ==> t[i - 1] == s[if i - 1 < k then i - 1 else i];
      assert i + 1 < |t| ==> t[i + 1] == s[if i + 1 < k then i + 1 else i + 2];
    }
  }

  /** s without x, when x is its k-th path; s itself when x is not on it. */
  function Minus(s: seq<PathInfo>, x: PathInfo, k: nat): seq<PathInfo> {
    if k < |s| then Without(s, k) else s
  }

  ghost predicate OnOrAlone(s: seq<PathInfo>, x: PathInfo, k: nat)
    reads x`mpNext, x`mpPrev
  {
    if k < |s| then s[k] == x else x !in s && x.mpNext == null && x.mpPrev == null
  }

  /** bgp_info_mpath_dequeue: x is the k-th path of the list s, or on no list. */
  method Dequeue(x: PathInfo, ghost s: seq<PathInfo>, ghost k: nat)
    requires Chain(s) && OnOrAlone(s, x, k)
    modifies s`mpNext, s`mpPrev, x`mpNext, x`mpPrev, x`multipath
    ensures Chain(Minus(s, x, k))
    ensures x.mpNext == null && x.mpPrev == null && !x.multipath
  {
    if k < |s| {
      assert s[k].mpPrev == Before(s, k) && s[k].mpNext == After(s, k);
    }
    if x.mpPrev != null {
      x.mpPrev.mpNext := x.mpNext;
    }
    if x.mpNext != null {
      x.mpNext.mpPrev := x.mpPrev;
    }
    x.mpNext, x.mpPrev := null, null;
    x.multipath := false;
    if k < |s| {
      assert Bypassed(s, k);
      BypassedChain(s, k);
    }
  }

  function With(s: seq<PathInfo>, k: nat, x: PathInfo): seq<PathInfo>
    requires k < |s|
  {
    s[..k + 1] + [x] + s[k + 1..]
  }

  /** bgp_info_mpath_enqueue after the k-th path of a list. */
  method Enqueue(prev: PathInfo, x: PathInfo, ghost s: seq<PathInfo>, ghost k: nat)
    requires Chain(s) && k < |s| && s[k] == prev && x !in s && x.mpNext == null && x.mpPrev == null
    modifies s`mpNext, s`mpPrev, x`mpNext, x`mpPrev, x`multipath
    ensures Chain(With(s, k, x)) && x.multipath
  {
    assert s[k].mpNext == After(s, k);
    x.mpNext := prev.mpNext;
    x.mpPrev := prev;
    if prev.mpNext != null {
      prev.mpNext.mpPrev := x;
    }
    prev.mpNext := x;
    x.multipath := true;
    assert Spliced(s, k, x);
    SplicedChain(s, k, x);
  }

  /** The links around the k-th path lead through x. */
  ghost predicate Spliced(s: seq<PathInfo>, k: nat, x: PathInfo)
    requires k < |s|
    reads s`mpNext, s`mpPrev, x`mpNext, x`mpPrev
  {
    && x.mpPrev == s[k] && x.mpNext == After(s, k)
    && (forall j {:trigger s[j].mpPrev} :: 0 <= j < |s| ==> s[j].mpPrev == if j == k + 1 then x else Before(s, j))
    && (forall j {:trigger s[j].mpNext} :: 0 <= j < |s| ==> s[j].mpNext == if j == k then x else After(s, j))
  }

  lemma {:induction false} WithDistinct(s: seq<PathInfo>, k: nat, x: PathInfo)
    requires Distinct(s) && k < |s| && x !in s
    ensures Distinct(With(s, k, x))
    ensures forall i :: 0 <= i <= |s| ==>
            With(s, k, x)[i] == if i <= k then s[i] else if i == k + 1 then x else s[i - 1]
  {}

  lemma {:induction false} SplicedChain(s: seq<PathInfo>, k: nat, x: PathInfo)
    requires Distinct(s) && k < |s| && x !in s && Spliced(s, k, x)
    ensures Chain(With(s, k, x))
  {
    var t := With(s, k, x);
    WithDistinct(s, k, x);
    forall i | 0 <= i < |t| ensures t[i].mpPrev == Before(t, i) && t[i].mpNext == After(t, i) {
      if i <= k {
        assert t[i] == s[i];
      } else if i > k + 1 {
        assert t[i] == s[i - 1];
      }
    }
  }

  // ----- The selection to arrive at -----

  /** Walk the candidates in order, skip the best path, take each one whose next
      hop differs from the one taken before, until maxpaths are in use. */
  function Greedy(mp: seq<PathInfo>, best: PathInfo, last: PathInfo, count: nat, maxpaths: nat): seq<PathInfo> {
    if mp == [] || count >= maxpaths then []
    else if mp[0] != best && CompareNextHop(last.nexthop, mp[0].nexthop) != 0
    then [mp[0]] + Greedy(mp[1..], best, mp[0], count + 1, maxpaths)
    else Greedy(mp[1..], best, last, count, maxpaths)
  }

  lemma {:induction false} GreedyFrom(mp: seq<PathInfo>, best: PathInfo, last: PathInfo, count: nat, maxpaths: nat)
    ensures forall y :: y in Greedy(mp, best, last, count, maxpaths) ==> y in mp && y != best
    ensures Distinct(mp) ==> Distinct(Greedy(mp, best, last, count, maxpaths))
    ensures |Greedy(mp, best, last, count, maxpaths)| + count <= maxpaths || count > maxpaths
    decreases |mp|
  {
    if mp != [] && count < maxpaths {
      var next := Greedy(mp, best, last, count, maxpaths);
      if mp[0] != best && CompareNextHop(last.nexthop, mp[0].nexthop) != 0 {
        GreedyFrom(mp[1..], best, mp[0], count + 1, maxpaths);
        assert forall y :: y in mp[1..] ==> y in mp;
        assert Distinct(mp) ==> Distinct(mp[1..]) && mp[0] !in mp[1..];
      } else {
        GreedyFrom(mp[1..], best, last, count, maxpaths);
        assert Distinct(mp) ==> Distinct(mp[1..]);
      }
    }
  }

  /** No candidate that is passed over is followed, as the next one taken, by one
      that sorts before it. */
  predicate InStep(mp: seq<PathInfo>, best: PathInfo, last: PathInfo, count: nat, maxpaths: nat) {
    if mp == [] || count >= maxpaths then true
    else if mp[0] != best && CompareNextHop(last.nexthop, mp[0].nexthop) != 0
    then InStep(mp[1..], best, mp[0], count + 1, maxpaths)
    else
      var next := Greedy(mp[1..], best, last, count, maxpaths);
      (next != [] ==> Compare(next[0], mp[0]) >= 0) && InStep(mp[1..], best, last, count, maxpaths)
  }

  // ----- The state of the walk -----

  /** One list hangs off the best path, the rest of the old one stands alone,
      and everything else in the universe is on neither. */
  ghost predicate TwoLists(u: set<PathInfo>, done: seq<PathInfo>, chain: seq<PathInfo>)
    reads u`mpNext, u`mpPrev
  {
    && (forall x :: x in done ==> x in u) && (forall x :: x in chain ==> x in u)
    && (forall x :: x in done ==> x !in chain)
    && Chain(done) && Chain(chain)
    && (forall x :: x in u && x !in done && x !in chain ==> x.mpNext == null && x.mpPrev == null)
  }

  /** The MULTIPATH flag marks the members of the lists, but not the best path. */
  ghost predicate Flagged(u: set<PathInfo>, heads: seq<PathInfo>, done: seq<PathInfo>, chain: seq<PathInfo>)
    reads u`multipath
  {
    forall x :: x in u ==> (x.multipath <==> (x in done || x in chain) && x !in heads)
  }

  /** Takes a path off the old list, or off no list. */
  method TakeOff(x: PathInfo, ghost u: set<PathInfo>, ghost heads: seq<PathInfo>, ghost done: seq<PathInfo>,
                 ghost chain: seq<PathInfo>, ghost k: nat)
    requires TwoLists(u, done, chain) && Flagged(u, heads, done, chain)
    requires x in u && x !in done && OnOrAlone(chain, x, k)
    modifies u`mpNext, u`mpPrev, u`multipath
    ensures TwoLists(u, done, Minus(chain, x, k)) && Flagged(u, heads, done, Minus(chain, x, k))
    ensures x !in Minus(chain, x, k)
  {
    if k < |chain| {
      WithoutMembers(chain, k);
    }
    Dequeue(x, chain, k);
    assert Chain(done);
  }

  /** Puts a path that is on no list at the end of the new list. */
  method PutOn(prev: PathInfo, x: PathInfo, ghost u: set<PathInfo>, ghost heads: seq<PathInfo>,
               ghost done: seq<PathInfo>, ghost chain: seq<PathInfo>)
    requires TwoLists(u, done, chain) && Flagged(u, heads, done, chain)
    requires x in u && x !in done && x !in chain && x !in heads
    requires done != [] && done[|done| - 1] == prev
    modifies u`mpNext, u`mpPrev, u`multipath
    ensures TwoLists(u, done + [x], chain) && Flagged(u, heads, done + [x], chain)
  {
    ghost var k := |done| - 1;
    assert With(done, k, x) == done + [x];
    Enqueue(prev, x, done, k);
    assert Chain(chain);
  }

  /** Moves a path from the old list, or from no list, to the end of the new one. */
  method Relocate(prev: PathInfo, x: PathInfo, ghost u: set<PathInfo>, ghost heads: seq<PathInfo>,
                  ghost done: seq<PathInfo>, ghost chain: seq<PathInfo>, ghost k: nat)
    requires TwoLists(u, done, chain) && Flagged(u, heads, done, chain)
    requires x in u && x !in done && x !in heads && OnOrAlone(chain, x, k)
    requires done != [] && done[|done| - 1] == prev
    modifies u`mpNext, u`mpPrev, u`multipath
    ensures TwoLists(u, done + [x], Minus(chain, x, k)) && Flagged(u, heads, done + [x], Minus(chain, x, k))
  {
    TakeOff(x, u, heads, done, chain, k);
    PutOn(prev, x, u, heads, done, Minus(chain, x, k));
  }

  function Selection(best: PathInfo?, mp: seq<PathInfo>, maxpaths: nat): seq<PathInfo> {
    if best == null then [] else Greedy(mp, best, best, 1, maxpaths)
  }

  function First(s: seq<PathInfo>): PathInfo? {
    if s == [] then null else s[0]
  }

  /** What the walk still has to select, given where it stands. */
  function Ahead(best: PathInfo?, rest: seq<PathInfo>, prev: PathInfo?, count: nat, maxpaths: nat): seq<PathInfo> {
    if best == null || prev == null then [] else Greedy(rest, best, prev, count, maxpaths)
  }

  lemma {:induction false} AheadFrom(best: PathInfo?, rest: seq<PathInfo>, prev: PathInfo?, count: nat, maxpaths: nat)
    ensures forall y :: y in Ahead(best, rest, prev, count, maxpaths) ==> y in rest
  {
    if best != null && prev != null {
      GreedyFrom(rest, best, prev, count, maxpaths);
    }
  }

  /** Whether the candidates still ahead are in step. */
  predicate AheadInStep(best: PathInfo?, rest: seq<PathInfo>, prev: PathInfo?, count: nat, maxpaths: nat) {
    best != null && prev != null ==> InStep(rest, best, prev, count, maxpaths)
  }

  /** While nothing has changed, the old list is the new one so far and what is
      left of it, and if the old list is the selection, what is ahead is in step
      exactly if everything was; once something has changed, a walk in step has
      left the old list. */
  ghost predicate Tracks(changed: bool, exact: bool, inStep: bool, out: seq<PathInfo>, chain: seq<PathInfo>,
                         sel: seq<PathInfo>, chain0: seq<PathInfo>)
  {
    && (!changed ==> out + chain == chain0)
    && (!changed && sel == chain0 ==> (inStep <==> exact))
    && (changed && exact ==> sel != chain0)
  }

  /** Dropping the head of what is left of the old list is a change. */
  lemma {:induction false} DropChanges(
    changed: bool, exact: bool, inStep: bool, out: seq<PathInfo>, chain: seq<PathInfo>, ahead: seq<PathInfo>,
    chain0: seq<PathInfo>, inStep': bool)
    requires Tracks(changed, exact, inStep, out, chain, out + ahead, chain0) && chain != []
    requires ahead == chain ==> !inStep
    ensures Tracks(true, exact, inStep', out, chain[1..], out + ahead, chain0)
  {
    assert (out + ahead)[|out|..] == ahead && (out + chain)[|out|..] == chain;
  }

  /** Taking on a path that is not the head of what is left is a change. */
  lemma {:induction false} AddChanges(
    changed: bool, exact: bool, inStep: bool, out: seq<PathInfo>, chain: seq<PathInfo>, chain': seq<PathInfo>,
    x: PathInfo, ahead: seq<PathInfo>, chain0: seq<PathInfo>, inStep': bool)
    requires Tracks(changed, exact, inStep, out, chain, out + ([x] + ahead), chain0)
    requires chain == [] || chain[0] != x
    ensures Tracks(true, exact, inStep', out + [x], chain', out + ([x] + ahead), chain0)
  {
    var sel := out + ([x] + ahead);
    assert sel[|out|] == x;
    if !changed && chain != [] {
      assert chain0[|out|] == chain[0];
    }
  }

  /** The walk's variables: the position in either list, the last path taken,
      how many are in use, and whether anything has changed. */
  datatype Cursor = Cursor(cur: PathInfo?, i: nat, prev: PathInfo?, count: nat, changed: bool)

  /** What the walk is given. */
  datatype Job = Job(best: PathInfo?, mp: seq<PathInfo>, maxpaths: nat)

  function Heads(best: PathInfo?): seq<PathInfo> {
    if best == null then [] else [best]
  }

  ghost predicate JobOk(t: Job, u: set<PathInfo>) {
    Distinct(t.mp) && (forall x :: x in t.mp ==> x in u) && (t.best == null ==> t.mp == [])
  }

  function Target(t: Job): seq<PathInfo> {
    Selection(t.best, t.mp, t.maxpaths)
  }

  /** Where the walk stands: `out` has been linked behind the best path, `chain`
      is left of the old list, and the selection is `out` and what the greedy
      rule will take from the candidates still ahead. */
  ghost predicate Plan(t: Job, c: Cursor, out: seq<PathInfo>, chain: seq<PathInfo>, chain0: seq<PathInfo>)
  {
    && c.i <= |t.mp|
    && c.cur == First(chain)
    && c.prev == (if out == [] then t.best else out[|out| - 1])
    && c.count == |Heads(t.best)| + |out|
    && (t.best == null ==> out == [])
    && (forall y :: y in out ==> y !in t.mp[c.i..])
    && Target(t) == out + Ahead(t.best, t.mp[c.i..], c.prev, c.count, t.maxpaths)
    && Tracks(c.changed, Exact(t), InStepAt(t, c), out, chain, Target(t), chain0)
  }

  /** Whether all the candidates are in step, and whether those ahead are. */
  predicate Exact(t: Job) {
    AheadInStep(t.best, t.mp, t.best, 1, t.maxpaths)
  }

  predicate InStepAt(t: Job, c: Cursor)
    requires c.i <= |t.mp|
  {
    AheadInStep(t.best, t.mp[c.i..], c.prev, c.count, t.maxpaths)
  }

  ghost predicate WalkInv(t: Job, c: Cursor, u: set<PathInfo>, out: seq<PathInfo>, chain: seq<PathInfo>,
                          chain0: seq<PathInfo>)
    reads u`mpNext, u`mpPrev, u`multipath
  {
    && Plan(t, c, out, chain, chain0)
    && TwoLists(u, Heads(t.best) + out, chain) && Flagged(u, Heads(t.best), Heads(t.best) + out, chain)
  }

  predicate Takes(t: Job, c: Cursor, x: PathInfo) {
    c.count < t.maxpaths && x != t.best && c.prev != null && CompareNextHop(c.prev.nexthop, x.nexthop) != 0
  }

  /** What taking or leaving the next candidate makes of the selection ahead. */
  lemma {:induction false} AheadStep(t: Job, c: Cursor)
    requires c.i < |t.mp| && c.prev != null && t.best != null
    ensures Takes(t, c, t.mp[c.i]) ==>
              Ahead(t.best, t.mp[c.i..], c.prev, c.count, t.maxpaths)
              == [t.mp[c.i]] + Ahead(t.best, t.mp[c.i + 1..], t.mp[c.i], c.count + 1, t.maxpaths)
    ensures !Takes(t, c, t.mp[c.i]) ==>
              Ahead(t.best, t.mp[c.i..], c.prev, c.count, t.maxpaths)
              == Ahead(t.best, t.mp[c.i + 1..], c.prev, c.count, t.maxpaths)
    ensures Takes(t, c, t.mp[c.i]) ==>
              (InStepAt(t, c) <==> AheadInStep(t.best, t.mp[c.i + 1..], t.mp[c.i], c.count + 1, t.maxpaths))
    ensures !Takes(t, c, t.mp[c.i]) ==>
              var next := Ahead(t.best, t.mp[c.i + 1..], c.prev, c.count, t.maxpaths);
              (InStepAt(t, c) <==>
                 (next != [] ==> Compare(next[0], t.mp[c.i]) >= 0)
                 && AheadInStep(t.best, t.mp[c.i + 1..], c.prev, c.count, t.maxpaths))
  {
    var rest := t.mp[c.i..];
    assert rest[0] == t.mp[c.i] && rest[1..] == t.mp[c.i + 1..];
  }

  lemma {:induction false} ShorterTail(mp: seq<PathInfo>, i: nat)
    requires i < |mp|
    ensures forall y :: y in mp[i + 1..] ==> y in mp[i..]
  {
    assert mp[i..] == [mp[i]] + mp[i + 1..];
  }

  lemma {:induction false} OutBehind(mp: seq<PathInfo>, i: nat, out: seq<PathInfo>)
    requires Distinct(mp) && i < |mp| && forall y :: y in out ==> y !in mp[i..]
    ensures forall y :: y in out + [mp[i]] ==> y !in mp[i + 1..]
  {
    ShorterTail(mp, i);
    assert mp[i] !in mp[i + 1..];
  }

  lemma {:induction false} PlanKept(t: Job, c: Cursor, out: seq<PathInfo>, chain: seq<PathInfo>, chain0: seq<PathInfo>)
    requires Plan(t, c, out, chain, chain0) && Distinct(t.mp) && t.best != null
    requires c.i < |t.mp| && c.cur == t.mp[c.i] && Takes(t, c, t.mp[c.i])
    ensures Plan(t, Cursor(First(chain[1..]), c.i + 1, c.cur, c.count + 1, c.changed), out + [t.mp[c.i]],
                 chain[1..], chain0)
  {
    AheadStep(t, c);
    var x := t.mp[c.i];
    assert out + chain == out + [x] + chain[1..];
    OutBehind(t.mp, c.i, out);
  }

  lemma {:induction false} PlanRejected(t: Job, c: Cursor, out: seq<PathInfo>, chain: seq<PathInfo>,
                                        chain0: seq<PathInfo>)
    requires Plan(t, c, out, chain, chain0) && Distinct(t.mp) && t.best != null
    requires c.i < |t.mp| && c.cur == t.mp[c.i] && !Takes(t, c, t.mp[c.i])
    ensures Plan(t, Cursor(First(chain[1..]), c.i + 1, c.prev, c.count, true), out, chain[1..], chain0)
  {
    AheadStep(t, c);
    var ahead := Ahead(t.best, t.mp[c.i + 1..], c.prev, c.count, t.maxpaths);
    AheadFrom(t.best, t.mp[c.i + 1..], c.prev, c.count, t.maxpaths);
    assert t.mp[c.i] !in t.mp[c.i + 1..] && chain[0] in chain;
    DropChanges(c.changed, Exact(t), InStepAt(t, c), out, chain, ahead, chain0,
                AheadInStep(t.best, t.mp[c.i + 1..], c.prev, c.count, t.maxpaths));
  }

  /** A walk in step never purges the path it would take next. */
  lemma {:induction false} PlanPurged(t: Job, c: Cursor, out: seq<PathInfo>, chain: seq<PathInfo>,
                                      chain0: seq<PathInfo>)
    requires Plan(t, c, out, chain, chain0) && chain != []
    requires c.i < |t.mp| ==> c.cur != t.mp[c.i] && Compare(c.cur, t.mp[c.i]) < 0
    ensures Plan(t, c.(cur := First(chain[1..]), changed := true), out, chain[1..], chain0)
  {
    var ahead := Ahead(t.best, t.mp[c.i..], c.prev, c.count, t.maxpaths);
    if c.i < |t.mp| && t.best != null && c.prev != null {
      AheadStep(t, c);
    }
    DropChanges(c.changed, Exact(t), InStepAt(t, c), out, chain, ahead, chain0, InStepAt(t, c));
  }

  lemma {:induction false} PlanAdded(t: Job, c: Cursor, out: seq<PathInfo>, chain: seq<PathInfo>,
                                     chain': seq<PathInfo>, chain0: seq<PathInfo>)
    requires Plan(t, c, out, chain, chain0) && Distinct(t.mp) && t.best != null
    requires c.i < |t.mp| && c.cur != t.mp[c.i] && Takes(t, c, t.mp[c.i]) && First(chain') == First(chain)
    ensures Plan(t, Cursor(c.cur, c.i + 1, t.mp[c.i], c.count + 1, true), out + [t.mp[c.i]], chain', chain0)
  {
    AheadStep(t, c);
    var ahead := Ahead(t.best, t.mp[c.i + 1..], t.mp[c.i], c.count + 1, t.maxpaths);
    AddChanges(c.changed, Exact(t), InStepAt(t, c), out, chain, chain', t.mp[c.i], ahead, chain0,
               AheadInStep(t.best, t.mp[c.i + 1..], t.mp[c.i], c.count + 1, t.maxpaths));
    assert out + ([t.mp[c.i]] + ahead) == out + [t.mp[c.i]] + ahead;
    OutBehind(t.mp, c.i, out);
  }

  lemma {:induction false} PlanSkipped(t: Job, c: Cursor, out: seq<PathInfo>, chain: seq<PathInfo>,
                                       chain0: seq<PathInfo>)
    requires Plan(t, c, out, chain, chain0) && t.best != null
    requires c.i < |t.mp| && !Takes(t, c, t.mp[c.i]) && (c.cur != null ==> Compare(c.cur, t.mp[c.i]) >= 0)
    ensures Plan(t, c.(i := c.i + 1), out, chain, chain0)
  {
    AheadStep(t, c);
    ShorterTail(t.mp, c.i);
    var ahead := Ahead(t.best, t.mp[c.i..], c.prev, c.count, t.maxpaths);
    assert (out + ahead)[|out|..] == ahead && (out + chain)[|out|..] == chain;
  }

  lemma {:induction false} BestApart(best: PathInfo?, u: set<PathInfo>, out: seq<PathInfo>, chain: seq<PathInfo>)
    requires TwoLists(u, Heads(best) + out, chain)
    ensures best != null ==> (Heads(best) + out)[|out|] == (if out == [] then best else out[|out| - 1])
    ensures best != null && chain != [] ==> chain[0] != best
  {
    if best != null {
      assert (Heads(best) + out)[0] == best;
      assert best in Heads(best) + out && (chain != [] ==> chain[0] in chain);
    }
  }

  /** Takes the first path off the old list and moves on to the next. */
  method TakeFirst(cur: PathInfo, ghost u: set<PathInfo>, ghost heads: seq<PathInfo>, ghost done: seq<PathInfo>,
                   ghost chain: seq<PathInfo>)
    returns (next: PathInfo?)
    requires TwoLists(u, done, chain) && Flagged(u, heads, done, chain) && chain != [] && chain[0] == cur
    modifies u`mpNext, u`mpPrev, u`multipath
    ensures TwoLists(u, done, chain[1..]) && Flagged(u, heads, done, chain[1..])
    ensures next == First(chain[1..]) && cur !in chain[1..] && cur !in done && cur in u
  {
    assert Minus(chain, cur, 0) == chain[1..];
    assert chain[0].mpNext == After(chain, 0);
    next := cur.mpNext;
    TakeOff(cur, u, heads, done, chain, 0);
  }

  /** The path was a multipath and is still a candidate. */
  method StepBoth(t: Job, c: Cursor, ghost u: set<PathInfo>, ghost out: seq<PathInfo>, ghost chain: seq<PathInfo>,
                  ghost chain0: seq<PathInfo>)
    returns (c': Cursor, ghost out': seq<PathInfo>)
    requires JobOk(t, u) && WalkInv(t, c, u, out, chain, chain0)
    requires c.i < |t.mp| && c.cur != null && t.mp[c.i] == c.cur
    modifies u`mpNext, u`mpPrev, u`multipath
    ensures WalkInv(t, c', u, out', chain[1..], chain0) && c'.i == c.i + 1
  {
    var cur: PathInfo := c.cur;
    ghost var heads, next := Heads(t.best), chain[1..];
    BestApart(t.best, u, out, chain);
    if c.count < t.maxpaths && CompareNextHop(c.prev.nexthop, cur.nexthop) != 0 {
      PlanKept(t, c, out, chain, chain0);
      assert heads + out + [cur] == heads + (out + [cur]);
      var nextCur := TakeFirst(cur, u, heads, heads + out, chain);
      PutOn(c.prev, cur, u, heads, heads + out, next);
      c', out' := Cursor(nextCur, c.i + 1, cur, c.count + 1, c.changed), out + [cur];
    } else {
      PlanRejected(t, c, out, chain, chain0);
      var nextCur := TakeFirst(cur, u, heads, heads + out, chain);
      c', out' := Cursor(nextCur, c.i + 1, c.prev, c.count, true), out;
    }
  }

  /** The path was a multipath and the candidates have passed it. */
  method StepPurge(t: Job, c: Cursor, ghost u: set<PathInfo>, ghost out: seq<PathInfo>, ghost chain: seq<PathInfo>,
                   ghost chain0: seq<PathInfo>)
    returns (c': Cursor)
    requires JobOk(t, u) && WalkInv(t, c, u, out, chain, chain0)
    requires c.cur != null && (c.i < |t.mp| ==> t.mp[c.i] != c.cur && Compare(c.cur, t.mp[c.i]) < 0)
    modifies u`mpNext, u`mpPrev, u`multipath
    ensures WalkInv(t, c', u, out, chain[1..], chain0) && c'.i == c.i
  {
    var cur: PathInfo := c.cur;
    ghost var heads := Heads(t.best);
    var nextCur := TakeFirst(cur, u, heads, heads + out, chain);
    PlanPurged(t, c, out, chain, chain0);
    c' := c.(cur := nextCur, changed := true);
  }

  /** A candidate to be taken is not on the new list. */
  lemma {:induction false} StillApart(t: Job, c: Cursor, out: seq<PathInfo>, chain: seq<PathInfo>,
                                      chain0: seq<PathInfo>, x: PathInfo)
    requires Plan(t, c, out, chain, chain0) && c.i < |t.mp| && x == t.mp[c.i] && x != t.best
    ensures x !in Heads(t.best) + out
  {
    assert x in t.mp[c.i..];
  }

  lemma {:induction false} MinusFirst(chain: seq<PathInfo>, x: PathInfo, k: nat)
    requires k < |chain| ==> chain[k] == x
    requires First(chain) != x
    ensures First(Minus(chain, x, k)) == First(chain) && |Minus(chain, x, k)| <= |chain|
  {}

  /** A candidate that is not the old list's next path. */
  method StepCandidate(t: Job, c: Cursor, ghost u: set<PathInfo>, ghost out: seq<PathInfo>, ghost chain: seq<PathInfo>,
                       ghost chain0: seq<PathInfo>)
    returns (c': Cursor, ghost out': seq<PathInfo>, ghost chain': seq<PathInfo>)
    requires JobOk(t, u) && WalkInv(t, c, u, out, chain, chain0)
    requires c.i < |t.mp| && t.mp[c.i] != c.cur && (c.cur != null ==> Compare(c.cur, t.mp[c.i]) >= 0)
    modifies u`mpNext, u`mpPrev, u`multipath
    ensures WalkInv(t, c', u, out', chain', chain0) && c'.i == c.i + 1 && |chain'| <= |chain|
  {
    var x := t.mp[c.i];
    ghost var heads := Heads(t.best);
    BestApart(t.best, u, out, chain);
    if c.count < t.maxpaths && x != t.best && CompareNextHop(c.prev.nexthop, x.nexthop) != 0 {
      ghost var k := IndexOf(chain, x);
      chain' := Minus(chain, x, k);
      assert x in t.mp[c.i..];
      assert heads + out + [x] == heads + (out + [x]);
      StillApart(t, c, out, chain, chain0, x);
      MinusFirst(chain, x, k);
      PlanAdded(t, c, out, chain, chain', chain0);
      Relocate(c.prev, x, u, heads, heads + out, chain, k);
      c', out' := Cursor(c.cur, c.i + 1, x, c.count + 1, true), out + [x];
    } else {
      PlanSkipped(t, c, out, chain, chain0);
      c', out', chain' := c.(i := c.i + 1), out, chain;
    }
  }

  /** The parallel walk.  Whatever the old list was, it ends with the greedy
      selection linked behind the best path and everything else off the lists. */
  method Walk(t: Job, first: PathInfo?, ghost u: set<PathInfo>, ghost chain0: seq<PathInfo>)
    returns (count: nat, changed: bool)
    requires JobOk(t, u)
    requires TwoLists(u, Heads(t.best), chain0) && Flagged(u, Heads(t.best), Heads(t.best), chain0)
             && first == First(chain0)
    modifies u`mpNext, u`mpPrev, u`multipath
    ensures TwoLists(u, Heads(t.best) + Target(t), []) && Flagged(u, Heads(t.best), Heads(t.best) + Target(t), [])
    ensures count == |Heads(t.best)| + |Target(t)|
    ensures changed <==> Target(t) != chain0 || !Exact(t)
  {
    ghost var out: seq<PathInfo>, chain := [], chain0;
    var c := Cursor(first, 0, t.best, if t.best == null then 0 else 1, false);
    assert Heads(t.best) + out == Heads(t.best) && t.mp[0..] == t.mp;
    while c.i < |t.mp| || c.cur != null
      invariant WalkInv(t, c, u, out, chain, chain0)
      decreases |t.mp| - c.i + |chain|
    {
      if c.cur == null && c.count >= t.maxpaths {
        break;
      }
      if c.i < |t.mp| && t.mp[c.i] == c.cur {
        c, out := StepBoth(t, c, u, out, chain, chain0);
        chain := chain[1..];
      } else if c.cur != null && (c.i == |t.mp| || Compare(c.cur, t.mp[c.i]) < 0) {
        c := StepPurge(t, c, u, out, chain, chain0);
        chain := chain[1..];
      } else {
        c, out, chain := StepCandidate(t, c, u, out, chain, chain0);
      }
    }
    assert chain == [];
    assert Target(t) == out;
    return c.count, c.changed;
  }

  ghost function IndexOf(s: seq<PathInfo>, x: PathInfo): (k: nat)
    ensures k < |s| ==> s[k] == x
    ensures k >= |s| ==> x !in s
    ensures k <= |s|
  {
    if x in s then var k :| 0 <= k < |s| && s[k] == x; k else |s|
  }

  // ----- The whole update -----

  /** Exactly these paths are linked, in this order, and of them all but the
      best carry the MULTIPATH flag. */
  ghost predicate OneList(u: set<PathInfo>, best: PathInfo?, paths: seq<PathInfo>)
    reads u`mpNext, u`mpPrev, u`multipath
  {
    && (best == null ==> paths == [])
    && TwoLists(u, [], Heads(best) + paths) && Flagged(u, Heads(best), [], Heads(best) + paths)
  }

  /** The old multipaths once the new best path is no longer among them. */
  ghost function Remaining(was: seq<PathInfo>, best: PathInfo?): seq<PathInfo> {
    if best == null then was else Minus(was, best, IndexOf(was, best))
  }

  /** These paths are linked to each other and to no best path. */
  ghost predicate Loose(u: set<PathInfo>, chain: seq<PathInfo>)
    reads u`mpNext, u`mpPrev, u`multipath
  {
    TwoLists(u, [], chain) && Flagged(u, [], [], chain)
  }

  lemma {:induction false} BestFirst(u: set<PathInfo>, best: PathInfo, paths: seq<PathInfo>)
    requires TwoLists(u, [], [best] + paths)
    ensures best !in paths && best.mpNext == First(paths)
    ensures Distinct(paths)
  {
    var s := [best] + paths;
    assert s[0] == best;
    forall i | 0 <= i < |paths| ensures paths[i] != best {
      assert s[i + 1] == paths[i];
    }
    forall i, j | 0 <= i < j < |paths| ensures paths[i] != paths[j] {
      assert s[i + 1] == paths[i] && s[j + 1] == paths[j];
    }
    assert s[0].mpNext == After(s, 0);
  }

  lemma {:induction false} BehindBest(best: PathInfo, was: seq<PathInfo>, x: PathInfo)
    requires x != best
    ensures x in [best] + was ==> IndexOf(was, x) < |was| && ([best] + was)[IndexOf(was, x) + 1] == x
    ensures Minus([best] + was, x, IndexOf(was, x) + 1) == [best] + Remaining(was, x)
  {
    var s, j := [best] + was, IndexOf(was, x);
    assert j < |was| ==> s[j + 1] == x;
  }

  /** A new best path other than the old one leaves the old list. */
  method DetachNew(newBest: PathInfo, oldBest: PathInfo, ghost u: set<PathInfo>, ghost was: seq<PathInfo>)
    requires TwoLists(u, [], [oldBest] + was) && Flagged(u, [oldBest], [], [oldBest] + was)
    requires newBest in u && newBest != oldBest
    modifies u`mpNext, u`mpPrev, u`multipath
    ensures TwoLists(u, [], [oldBest] + Remaining(was, newBest))
    ensures Flagged(u, [oldBest], [], [oldBest] + Remaining(was, newBest))
  {
    ghost var j := IndexOf(was, newBest) + 1;
    BehindBest(oldBest, was, newBest);
    TakeOff(newBest, u, [oldBest], [], [oldBest] + was, j);
  }

  /** The old best path leaves its list and stops counting. */
  method DetachOld(oldBest: PathInfo, ghost u: set<PathInfo>, ghost rest: seq<PathInfo>)
    returns (first: PathInfo?, oldCount: nat)
    requires TwoLists(u, [], [oldBest] + rest) && Flagged(u, [oldBest], [], [oldBest] + rest)
    modifies u`mpNext, u`mpPrev, u`multipath, oldBest`mpCount
    ensures Loose(u, rest) && first == First(rest) && oldCount == old(oldBest.mpCount)
  {
    ghost var s := [oldBest] + rest;
    BestFirst(u, oldBest, rest);
    assert s[0] == oldBest && oldBest in s;
    first := oldBest.mpNext;
    oldCount := oldBest.mpCount;
    oldBest.mpCount := 0;
    assert Minus(s, oldBest, 0) == rest;
    TakeOff(oldBest, u, [oldBest], [], s, 0);
  }

  lemma {:induction false} LooseBehind(u: set<PathInfo>, best: PathInfo?, chain: seq<PathInfo>)
    requires Loose(u, chain) && (best != null ==> best in u && best !in chain)
    ensures TwoLists(u, Heads(best), chain) && Flagged(u, Heads(best), Heads(best), chain)
  {}

  lemma {:induction false} RemainingApart(was: seq<PathInfo>, best: PathInfo?)
    requires Distinct(was)
    ensures best != null ==> best !in Remaining(was, best)
    ensures best != null && best in was ==> |Remaining(was, best)| == |was| - 1
    ensures best == null || best !in was ==> Remaining(was, best) == was
  {
    if best != null && IndexOf(was, best) < |was| {
      WithoutMembers(was, IndexOf(was, best));
    }
  }

  /** bgp_info_mpath_update.  Whatever the old list was, the list behind the new
      best path ends up being the greedy selection, counted and flagged; and
      MULTIPATH_CHG is raised exactly when the selection differs from the old one
      or the candidates are not in step. */
  method Update(newBest: PathInfo?, oldBest: PathInfo?, mp: seq<PathInfo>, maxIbgp: nat, maxEbgp: nat,
                ghost u: set<PathInfo>, ghost was: seq<PathInfo>)
    requires OneList(u, oldBest, was) && (oldBest != null ==> oldBest in u && oldBest.mpCount == |was|)
    requires newBest != null ==> newBest in u
    requires Distinct(mp) && (forall x :: x in mp ==> x in u) && (newBest == null ==> mp == [])
    modifies u
    ensures var maxpaths := if newBest == null then 1 else if newBest.ibgp then maxIbgp else maxEbgp;
            var sel := Selection(newBest, mp, maxpaths);
            && OneList(u, newBest, sel)
            && (newBest != null ==>
                  && newBest.mpCount == |sel|
                  && (newBest.multipathChg <==>
                        old(newBest.multipathChg) || sel != was || !InStep(mp, newBest, newBest, 1, maxpaths)))
    ensures forall x :: x in u && x != newBest ==> x.multipathChg == old(x.multipathChg)
  {
    var maxpaths := 1;
    if newBest != null {
      maxpaths := if newBest.ibgp then maxIbgp else maxEbgp;
    }
    var t := Job(newBest, mp, maxpaths);
    var count, oldCount, changed := Relink(t, oldBest, u, was);
    if newBest != null {
      newBest.mpCount := count - 1;
      if changed || newBest.mpCount != oldCount {
        newBest.multipathChg := true;
      }
      ChangeDetected(t, was, changed, oldCount);
    }
  }

  /** Both departures, then the walk. */
  method Relink(t: Job, oldBest: PathInfo?, ghost u: set<PathInfo>, ghost was: seq<PathInfo>)
    returns (count: nat, oldCount: nat, changed: bool)
    requires OneList(u, oldBest, was) && (oldBest != null ==> oldBest in u && oldBest.mpCount == |was|)
    requires JobOk(t, u) && (t.best != null ==> t.best in u)
    modifies u`mpNext, u`mpPrev, u`multipath, u`mpCount
    ensures OneList(u, t.best, Target(t))
    ensures count == |Heads(t.best)| + |Target(t)| && oldCount == |was| && Distinct(was)
    ensures changed <==> Target(t) != Remaining(was, t.best) || !Exact(t)
  {
    var first, n := Detach(t.best, oldBest, u, was);
    ghost var chain0 := Remaining(was, t.best);
    LooseBehind(u, t.best, chain0);
    count, changed := Walk(t, first, u, chain0);
    oldCount := n;
    Joined(u, t.best, Target(t));
  }

  /** Comparing the count as well makes up for the silent departure of the new
      best path from the old list. */
  lemma {:induction false} ChangeDetected(t: Job, was: seq<PathInfo>, changed: bool, oldCount: nat)
    requires t.best != null && oldCount == |was| && Distinct(was)
    requires changed <==> Target(t) != Remaining(was, t.best) || !Exact(t)
    ensures changed || |Target(t)| != oldCount <==> Target(t) != was || !Exact(t)
  {
    RemainingApart(was, t.best);
    GreedyFrom(t.mp, t.best, t.best, 1, t.maxpaths);
  }

  lemma {:induction false} Joined(u: set<PathInfo>, best: PathInfo?, sel: seq<PathInfo>)
    requires TwoLists(u, Heads(best) + sel, []) && Flagged(u, Heads(best), Heads(best) + sel, [])
    requires best == null ==> sel == []
    ensures OneList(u, best, sel)
  {}

  /** Both departures. */
  method Detach(newBest: PathInfo?, oldBest: PathInfo?, ghost u: set<PathInfo>, ghost was: seq<PathInfo>)
    returns (first: PathInfo?, oldCount: nat)
    requires OneList(u, oldBest, was) && (oldBest != null ==> oldBest in u && oldBest.mpCount == |was|)
    requires newBest != null ==> newBest in u
    modifies u`mpNext, u`mpPrev, u`multipath, u`mpCount
    ensures Loose(u, Remaining(was, newBest)) && first == First(Remaining(was, newBest)) && oldCount == |was|
    ensures Distinct(was) && (newBest != null ==> newBest !in Remaining(was, newBest))
  {
    if oldBest == null {
      assert Heads(oldBest) + was == [];
      assert Remaining(was, newBest) == [];
      if newBest != null {
        Dequeue(newBest, [], 0);
      }
      return null, 0;
    }
    BestFirst(u, oldBest, was);
    RemainingApart(was, newBest);
    if newBest != null && newBest != oldBest {
      DetachNew(newBest, oldBest, u, was);
    }
    first, oldCount := DetachOld(oldBest, u, Remaining(was, newBest));
  }

  /** bgp_mp_dmed_deselect: a path that was best among its neighbour AS only
      gives up its multipaths, which is what Update needs of every path but the
      old best one. */
  method DmedDeselect(best: PathInfo, ghost u: set<PathInfo>, ghost was: seq<PathInfo>)
    requires best in u && OneList(u, best, was)
    modifies u
    ensures OneList(u, best, []) && best.mpCount == 0 && !best.multipathChg && best.mpNext == null
  {
    BestFirst(u, best, was);
    var cur := best.mpNext;
    ghost var rest := was;
    while cur != null
      invariant OneList(u, best, rest) && cur == First(rest)
      decreases |rest|
    {
      ghost var s := [best] + rest;
      BestFirst(u, best, rest);
      assert s[1] == cur && s[1].mpNext == After(s, 1);
      var next := cur.mpNext;
      assert Minus(s, cur, 1) == [best] + rest[1..];
      TakeOff(cur, u, [best], [], s, 1);
      cur, rest := next, rest[1..];
    }
    BestFirst(u, best, []);
    best.mpCount := 0;
    best.multipathChg := false;
  }
}
