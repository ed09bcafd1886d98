/** What the multipath selection selects, in terms of the addresses of next hops:
    one path for each next hop while the limit lasts, and when the best path's own
    next hop is among them again. */
module BgpMpathSelect {
  import opened Wrappers
  import opened BgpMpath
  import opened BgpMpathList

  /** The addresses a next hop carries: the IPv4 next hop, the global address of a
      multiprotocol one, and the link-local one where there are two. */
  function Addresses(h: NextHop): seq<nat> {
    [h.v4] +
    if h.mp.None? then []
    else if h.mp.value.len == 32 then [h.mp.value.global, h.mp.value.local]
    else if h.mp.value.len in {4, 12, 16} then [h.mp.value.global]
    else []
  }

  /** Dictionary order on lists of one length. */
  predicate Less(a: seq<nat>, b: seq<nat>)
    requires |a| == |b|
  {
    a != [] && (a[0] < b[0] || (a[0] == b[0] && Less(a[1..], b[1..])))
  }

  /** Next hops of one kind are ordered by all their addresses, and tie only when all
      are the same. */
  lemma {:induction false} AlikeOrder(a: NextHop, b: NextHop)
    requires AlikeHops(a, b)
    ensures |Addresses(a)| == |Addresses(b)|
    ensures CompareNextHop(a, b) == 0 <==> Addresses(a) == Addresses(b)
    ensures CompareNextHop(a, b) < 0 <==> Less(Addresses(a), Addresses(b))
    ensures CompareNextHop(a, b) > 0 <==> Less(Addresses(b), Addresses(a))
  {
    LessUnfolds(Addresses(a), Addresses(b));
    LessUnfolds(Addresses(b), Addresses(a));
  }

  lemma {:induction false} LessUnfolds(s: seq<nat>, t: seq<nat>)
    requires 1 <= |s| == |t| <= 3
    ensures Less(s, t) <==>
              || s[0] < t[0]
              || (|s| > 1 && s[0] == t[0] && (s[1] < t[1] || (|s| > 2 && s[1] == t[1] && s[2] < t[2])))
  {
    var s1, t1 := s[1..], t[1..];
    if |s| > 1 {
      assert s1[0] == s[1] && t1[0] == t[1];
      if |s| > 2 {
        assert s1[1..] == [s[2]] && t1[1..] == [t[2]] && [s[2]][1..] == [] && [t[2]][1..] == [];
        assert Less([s[2]], [t[2]]) <==> s[2] < t[2];
      } else {
        assert s1[1..] == [] && t1[1..] == [] && !Less(s1[1..], t1[1..]);
        assert Less(s1, t1) <==> s[1] < t[1];
      }
    }
  }

  /** Next hops of different kinds are told apart by their IPv4 part alone. */
  lemma {:induction false} UnlikeOrder(a: NextHop, b: NextHop)
    requires !AlikeHops(a, b)
    ensures CompareNextHop(a, b) == 0 <==> a.v4 == b.v4
    ensures CompareNextHop(a, b) < 0 <==> a.v4 < b.v4
  {}

  lemma {:induction false} LessOrder(a: seq<nat>, b: seq<nat>, c: seq<nat>)
    requires |a| == |b| == |c|
    ensures !Less(a, a)
    ensures Less(a, b) && (Less(b, c) || b == c) ==> Less(a, c)
    decreases |a|
  {
    if a != [] {
      LessOrder(a[1..], b[1..], c[1..]);
    }
  }

  /** Candidates in the order of their next hops, then of their peers. */
  lemma {:induction false} PathOrder(a: PathInfo, b: PathInfo)
    requires AlikeHops(a.nexthop, b.nexthop)
    ensures |Hop(a)| == |Hop(b)|
    ensures Compare(a, b) == 0 <==> Hop(a) == Hop(b) && a.peer == b.peer
    ensures Compare(a, b) < 0 <==> Less(Hop(a), Hop(b)) || (Hop(a) == Hop(b) && a.peer < b.peer)
  {
    AlikeOrder(a.nexthop, b.nexthop);
    LessOrder(Hop(a), Hop(b), Hop(a));
  }

  function Hop(x: PathInfo): seq<nat> { Addresses(x.nexthop) }

  // ----- Candidate by candidate -----

  function LastTaken(last: PathInfo, taken: seq<PathInfo>): PathInfo {
    if taken == [] then last else taken[|taken| - 1]
  }

  lemma {:induction false} GreedyNext(mp: seq<PathInfo>, x: PathInfo, best: PathInfo, last: PathInfo, count: nat,
                                      maxpaths: nat)
    ensures var taken := Greedy(mp, best, last, count, maxpaths);
            var takes := && count + |taken| < maxpaths && x != best
                         && CompareNextHop(LastTaken(last, taken).nexthop, x.nexthop) != 0;
            Greedy(mp + [x], best, last, count, maxpaths) == taken + (if takes then [x] else [])
    decreases |mp|
  {
    if mp == [] {
      assert [x][1..] == [] && [] + [x] == [x];
    } else {
      assert (mp + [x])[1..] == mp[1..] + [x];
      if mp[0] != best && CompareNextHop(last.nexthop, mp[0].nexthop) != 0 {
        GreedyNext(mp[1..], x, best, mp[0], count + 1, maxpaths);
      } else {
        GreedyNext(mp[1..], x, best, last, count, maxpaths);
      }
    }
  }

  /** Each candidate in turn is taken exactly when it is not the best path, the limit
      leaves room, and some address of its next hop differs from that of the path
      taken last, the best path at first. */
  lemma {:induction false} TakenExactly(best: PathInfo, mp: seq<PathInfo>, x: PathInfo, maxpaths: nat)
    requires Alike([best, x] + mp)
    ensures var taken := Selection(best, mp, maxpaths);
            var takes := x != best && |taken| + 1 < maxpaths && Hop(x) != Hop(LastTaken(best, taken));
            Selection(best, mp + [x], maxpaths) == taken + (if takes then [x] else [])
    ensures Selection(best, [], maxpaths) == []
  {
    var taken := Selection(best, mp, maxpaths);
    GreedyNext(mp, x, best, best, 1, maxpaths);
    GreedyFrom(mp, best, best, 1, maxpaths);
    var all := [best, x] + mp;
    assert all[0] == best && all[1] == x && forall y :: y in mp ==> y in all;
    AlikeMembers(all, LastTaken(best, taken), x);
    AlikeOrder(LastTaken(best, taken).nexthop, x.nexthop);
  }

  // ----- Sorted candidates of one kind -----

  /** The next hops taken, in order, each greater than the one before. */
  predicate Rising(s: seq<PathInfo>) {
    forall i, j :: 0 <= i < j < |s| ==> |Hop(s[i])| == |Hop(s[j])| && Less(Hop(s[i]), Hop(s[j]))
  }

  lemma {:induction false} SortedHops(mp: seq<PathInfo>, i: nat, j: nat)
    requires SortedList(mp) && Alike(mp) && i < j < |mp|
    ensures |Hop(mp[i])| == |Hop(mp[j])| && (Less(Hop(mp[i]), Hop(mp[j])) || Hop(mp[i]) == Hop(mp[j]))
  {
    assert AlikeHops(mp[i].nexthop, mp[j].nexthop) && Compare(mp[j], mp[i]) >= 0;
    PathOrder(mp[i], mp[j]);
    CompareTurned(mp[i], mp[j]);
  }

  /** One more at the end, greater than the last. */
  lemma {:induction false} RisingNext(s: seq<PathInfo>, x: PathInfo)
    requires Rising(s)
    requires s != [] ==> |Hop(s[|s| - 1])| == |Hop(x)| && Less(Hop(s[|s| - 1]), Hop(x))
    ensures Rising(s + [x])
  {
    forall i | 0 <= i < |s| ensures |Hop(s[i])| == |Hop(x)| && Less(Hop(s[i]), Hop(x)) {
      if i < |s| - 1 {
        LessOrder(Hop(s[i]), Hop(s[|s| - 1]), Hop(x));
      }
    }
  }

  /** A path taken before the last candidate does not come after it. */
  lemma {:induction false} TakenBefore(mp: seq<PathInfo>, y: PathInfo, n: nat)
    requires SortedList(mp) && Alike(mp) && n < |mp| && y in mp[..n]
    ensures |Hop(y)| == |Hop(mp[n])| && (Less(Hop(y), Hop(mp[n])) || Hop(y) == Hop(mp[n]))
  {
    var k :| 0 <= k < n && mp[..n][k] == y;
    SortedHops(mp, k, n);
  }

  lemma {:induction false} TakenRising(best: PathInfo, mp: seq<PathInfo>, maxpaths: nat)
    requires SortedList(mp) && Alike([best] + mp)
    ensures Rising(Selection(best, mp, maxpaths))
    decreases |mp|
  {
    if mp != [] {
      var front, x := mp[..|mp| - 1], mp[|mp| - 1];
      assert mp == front + [x];
      PrefixFine(best, mp, |mp| - 1);
      TakenRising(best, front, maxpaths);
      TakenExactly(best, front, x, maxpaths);
      var taken := Selection(best, front, maxpaths);
      GreedyFrom(front, best, best, 1, maxpaths);
      if taken != [] {
        var last := taken[|taken| - 1];
        assert last in taken && last in front;
        TakenBefore(mp, last, |mp| - 1);
        if Hop(x) != Hop(last) {
          RisingNext(taken, x);
        }
      } else {
        RisingNext(taken, x);
      }
    }
  }

  lemma {:induction false} PrefixFine(best: PathInfo, mp: seq<PathInfo>, n: nat)
    requires SortedList(mp) && Alike([best] + mp) && n <= |mp|
    ensures SortedList(mp[..n]) && Alike([best] + mp[..n]) && Alike(mp)
    ensures n < |mp| ==> Alike([best, mp[n]] + mp[..n])
  {
    var all := [best] + mp;
    assert forall i :: 0 <= i < |mp| ==> all[i + 1] == mp[i];
    assert all[0] == best;
    assert Among([best] + mp[..n], all) && Among(mp, all);
    SublistAlike(all, [best] + mp[..n]);
    SublistAlike(all, mp);
    if n < |mp| {
      assert Among([best, mp[n]] + mp[..n], all);
      SublistAlike(all, [best, mp[n]] + mp[..n]);
    }
  }

  /** The next hops of the paths selected. */
  predicate Covered(hop: seq<nat>, best: PathInfo, sel: seq<PathInfo>) {
    hop == Hop(best) || exists k :: 0 <= k < |sel| && Hop(sel[k]) == hop
  }

  /** While the limit leaves room every candidate's next hop is in use. */
  lemma {:induction false} AllCovered(best: PathInfo, mp: seq<PathInfo>, maxpaths: nat, j: nat)
    requires Alike([best] + mp) && SortedList(mp) && j < |mp| && |Selection(best, mp, maxpaths)| + 1 < maxpaths
    ensures Covered(Hop(mp[j]), best, Selection(best, mp, maxpaths))
    decreases |mp|
  {
    var front, x := mp[..|mp| - 1], mp[|mp| - 1];
    assert mp == front + [x];
    PrefixFine(best, mp, |mp| - 1);
    TakenExactly(best, front, x, maxpaths);
    var taken, sel := Selection(best, front, maxpaths), Selection(best, mp, maxpaths);
    if j < |front| {
      AllCovered(best, front, maxpaths, j);
      if Hop(front[j]) != Hop(best) {
        var k :| 0 <= k < |taken| && Hop(taken[k]) == Hop(front[j]);
        assert sel[k] == taken[k];
      }
    } else if sel == taken {
      assert taken != [] && Hop(x) != Hop(best) ==> Hop(sel[|sel| - 1]) == Hop(x);
    } else {
      assert sel[|taken|] == x;
    }
  }

  /** For candidates of one kind as bgp_mp_list_add sorts them, the selection has one
      path for each next hop: no two have the same, and unless the limit is reached
      every candidate's next hop is that of a path selected or of the best path. */
  lemma {:induction false} OnePathPerNextHop(best: PathInfo, added: seq<PathInfo>, maxpaths: nat)
    requires Alike([best] + added)
    ensures var sel := Selection(best, Built(added), maxpaths);
            && (forall i, j :: 0 <= i < j < |sel| ==> Hop(sel[i]) != Hop(sel[j]))
            && best !in sel && |sel| <= (if maxpaths == 0 then 0 else maxpaths - 1)
            && (|sel| + 1 < maxpaths ==> forall j :: 0 <= j < |added| ==> Covered(Hop(added[j]), best, sel))
  {
    var mp, all := Built(added), [best] + added;
    var sel := Selection(best, mp, maxpaths);
    BuiltFine(best, added);
    TakenRising(best, mp, maxpaths);
    GreedyFrom(mp, best, best, 1, maxpaths);
    forall i, j | 0 <= i < j < |sel| ensures Hop(sel[i]) != Hop(sel[j]) {
      LessOrder(Hop(sel[i]), Hop(sel[j]), Hop(sel[i]));
    }
    if |sel| + 1 < maxpaths {
      forall j | 0 <= j < |added| ensures Covered(Hop(added[j]), best, sel) {
        BuiltHas(added, j);
        var k :| 0 <= k < |mp| && mp[k] == added[j];
        AllCovered(best, mp, maxpaths, k);
      }
    }
  }

  lemma {:induction false} BuiltFine(best: PathInfo, added: seq<PathInfo>)
    requires Alike([best] + added)
    ensures SortedList(Built(added)) && Alike([best] + Built(added))
  {
    var all := [best] + added;
    assert forall i :: 0 <= i < |added| ==> all[i + 1] == added[i];
    assert all[0] == best && Among(added, all);
    SublistAlike(all, added);
    AlikeBuiltSorted(added);
    BuiltAmong(added, all);
    SublistAlike(all, [best] + Built(added));
  }

  lemma {:induction false} AddedHas(s: seq<PathInfo>, x: PathInfo)
    ensures x in AddSorted(s, x) && forall y :: y in s ==> y in AddSorted(s, x)
    decreases |s|
  {
    if s != [] && Compare(x, s[0]) >= 0 {
      AddedHas(s[1..], x);
    }
  }

  lemma {:induction false} BuiltHas(added: seq<PathInfo>, j: nat)
    requires j < |added|
    ensures added[j] in Built(added)
    decreases |added|
  {
    var front, x := added[..|added| - 1], added[|added| - 1];
    AddedHas(Built(front), x);
    if j < |front| {
      BuiltHas(front, j);
    }
  }

  // ----- The best path's own next hop again -----

  /** How many of the candidates come before the best path's next hop. */
  function Ahead(best: PathInfo, mp: seq<PathInfo>): (n: nat)
    requires Alike([best] + mp)
    ensures n <= |mp|
    ensures forall i :: 0 <= i < n ==> |Hop(mp[i])| == |Hop(best)| && Less(Hop(mp[i]), Hop(best))
    ensures n < |mp| ==> |Hop(mp[n])| == |Hop(best)| && !Less(Hop(mp[n]), Hop(best))
  {
    var all := [best] + mp;
    if mp == [] then 0
    else
      assert all[0] == best && all[1] == mp[0] && AlikeHops(all[1].nexthop, all[0].nexthop);
      AlikeOrder(mp[0].nexthop, best.nexthop);
      if !Less(Hop(mp[0]), Hop(best)) then 0
      else
        assert Among([best] + mp[1..], all);
        SublistAlike(all, [best] + mp[1..]);
        1 + Ahead(best, mp[1..])
  }

  /** Another candidate has the best path's next hop. */
  predicate Doubled(best: PathInfo, mp: seq<PathInfo>) {
    exists i :: 0 <= i < |mp| && mp[i] != best && Hop(mp[i]) == Hop(best)
  }

  predicate Repeated(best: PathInfo, sel: seq<PathInfo>) {
    exists k :: 0 <= k < |sel| && Hop(sel[k]) == Hop(best)
  }

  /** One more candidate: the selection and the doubling of the best next hop. */
  lemma {:induction false} OneMore(best: PathInfo, mp: seq<PathInfo>, m: nat, maxpaths: nat)
    requires SortedList(mp) && Alike([best] + mp) && m < |mp|
    ensures var sel, x := Selection(best, mp[..m], maxpaths), mp[m];
            var takes := x != best && |sel| + 1 < maxpaths && Hop(x) != Hop(LastTaken(best, sel));
            var sel' := Selection(best, mp[..m + 1], maxpaths);
            && sel' == (if takes then sel + [x] else sel)
            && (Repeated(best, sel') <==> Repeated(best, sel) || (takes && Hop(x) == Hop(best)))
    ensures Doubled(best, mp[..m + 1]) <==> Doubled(best, mp[..m]) || (mp[m] != best && Hop(mp[m]) == Hop(best))
  {
    assert mp[..m + 1] == mp[..m] + [mp[m]];
    PrefixFine(best, mp, m);
    TakenExactly(best, mp[..m], mp[m], maxpaths);
    var sel := Selection(best, mp[..m], maxpaths);
    assert sel + [] == sel;
    RepeatedMore(best, sel, mp[m]);
    var s, t := mp[..m], mp[..m + 1];
    assert forall i :: 0 <= i < m ==> t[i] == s[i];
    assert t[m] == mp[m];
  }

  lemma {:induction false} RepeatedMore(best: PathInfo, sel: seq<PathInfo>, x: PathInfo)
    ensures Repeated(best, sel + [x]) <==> Repeated(best, sel) || Hop(x) == Hop(best)
  {
    var t := sel + [x];
    assert forall k :: 0 <= k < |sel| ==> t[k] == sel[k];
    assert t[|sel|] == x;
  }

  /** The candidates from n to m have the best path's next hop. */
  predicate SameHops(best: PathInfo, mp: seq<PathInfo>, n: nat, m: nat)
    requires m <= |mp|
  {
    forall i :: n <= i < m ==> Hop(mp[i]) == Hop(best)
  }

  /** From a sorted list's candidate on, once one is greater than the best path. */
  lemma {:induction false} SameBefore(best: PathInfo, mp: seq<PathInfo>, n: nat, m: nat)
    requires SortedList(mp) && Alike([best] + mp) && n == Ahead(best, mp) <= m < |mp|
    ensures Hop(mp[m]) == Hop(best) ==> SameHops(best, mp, n, m)
  {
    PrefixFine(best, mp, 0);
    forall i | n <= i < m && Hop(mp[m]) == Hop(best) ensures Hop(mp[i]) == Hop(best) {
      SortedHops(mp, i, m);
      if i > n {
        SortedHops(mp, n, i);
      }
      NotLess(best, mp, i);
    }
  }

  lemma {:induction false} NotLess(best: PathInfo, mp: seq<PathInfo>, i: nat)
    requires SortedList(mp) && Alike([best] + mp) && Ahead(best, mp) <= i < |mp|
    ensures |Hop(mp[i])| == |Hop(best)| && !Less(Hop(mp[i]), Hop(best))
  {
    var n := Ahead(best, mp);
    PrefixFine(best, mp, 0);
    if n < i {
      SortedHops(mp, n, i);
      if Less(Hop(mp[i]), Hop(best)) {
        LessOrder(Hop(mp[n]), Hop(mp[i]), Hop(best));
      }
    }
  }

  /** The selection among the first m candidates, t being that among the first n. */
  predicate UpTo(best: PathInfo, mp: seq<PathInfo>, n: nat, m: nat, maxpaths: nat, t: seq<PathInfo>)
    requires m <= |mp|
  {
    var sel, again := Selection(best, mp[..m], maxpaths), Again(best, mp[..m], maxpaths, t);
    (Repeated(best, sel) <==> again) && (!again && SameHops(best, mp, n, m) ==> sel == t)
  }

  predicate Again(best: PathInfo, mp: seq<PathInfo>, maxpaths: nat, t: seq<PathInfo>) {
    t != [] && |t| + 1 < maxpaths && Doubled(best, mp)
  }

  lemma {:induction false} UpToGreater(best: PathInfo, mp: seq<PathInfo>, n: nat, m: nat, maxpaths: nat,
                                       t: seq<PathInfo>)
    requires SortedList(mp) && Alike([best] + mp) && n <= m < |mp| && UpTo(best, mp, n, m, maxpaths, t)
    requires Hop(mp[m]) != Hop(best)
    ensures UpTo(best, mp, n, m + 1, maxpaths, t)
  {
    OneMore(best, mp, m, maxpaths);
  }

  lemma {:induction false} UpToSame(best: PathInfo, mp: seq<PathInfo>, n: nat, m: nat, maxpaths: nat,
                                    t: seq<PathInfo>)
    requires SortedList(mp) && Alike([best] + mp) && n <= m < |mp| && UpTo(best, mp, n, m, maxpaths, t)
    requires Hop(mp[m]) == Hop(best) && SameHops(best, mp, n, m) && !Repeated(best, t)
    ensures UpTo(best, mp, n, m + 1, maxpaths, t)
  {
    OneMore(best, mp, m, maxpaths);
    if t != [] {
      assert Hop(t[|t| - 1]) != Hop(best);
    }
  }

  lemma {:induction false} UpToNext(best: PathInfo, mp: seq<PathInfo>, n: nat, m: nat, maxpaths: nat,
                                    t: seq<PathInfo>)
    requires SortedList(mp) && Alike([best] + mp) && n == Ahead(best, mp) <= m < |mp| && !Repeated(best, t)
    ensures UpTo(best, mp, n, m, maxpaths, t) ==> UpTo(best, mp, n, m + 1, maxpaths, t)
  {
    if UpTo(best, mp, n, m, maxpaths, t) {
      SameBefore(best, mp, n, m);
      if Hop(mp[m]) == Hop(best) {
        UpToSame(best, mp, n, m, maxpaths, t);
      } else {
        UpToGreater(best, mp, n, m, maxpaths, t);
      }
    }
  }

  /** The candidates from the best path's next hop on, one after the other. */
  lemma {:induction false} RepeatedUpTo(best: PathInfo, mp: seq<PathInfo>, n: nat, m: nat, maxpaths: nat,
                                        t: seq<PathInfo>)
    requires SortedList(mp) && Alike([best] + mp) && n == Ahead(best, mp) <= m <= |mp| && !Repeated(best, t)
    requires UpTo(best, mp, n, m, maxpaths, t)
    ensures UpTo(best, mp, n, |mp|, maxpaths, t)
    decreases |mp| - m
  {
    if m < |mp| {
      UpToNext(best, mp, n, m, maxpaths, t);
      RepeatedUpTo(best, mp, n, m + 1, maxpaths, t);
    }
  }

  /** Nothing before it repeats it. */
  lemma {:induction false} NoneYet(best: PathInfo, mp: seq<PathInfo>, n: nat, maxpaths: nat)
    requires SortedList(mp) && Alike([best] + mp) && n == Ahead(best, mp)
    ensures !Doubled(best, mp[..n]) && !Repeated(best, Selection(best, mp[..n], maxpaths))
  {
    var front := mp[..n];
    var t := Selection(best, front, maxpaths);
    LessOrder(Hop(best), Hop(best), Hop(best));
    GreedyFrom(front, best, best, 1, maxpaths);
    forall k | 0 <= k < |t| ensures Hop(t[k]) != Hop(best) {
      assert t[k] in t && t[k] in front;
    }
  }

  /** The best path's next hop is used a second time if and only if another candidate
      has it and the selection among the candidates before it is not empty and leaves
      room: each candidate is compared with the one taken before it only. */
  lemma {:induction false} RepeatedExactly(best: PathInfo, mp: seq<PathInfo>, maxpaths: nat)
    requires SortedList(mp) && Alike([best] + mp)
    ensures Repeated(best, Selection(best, mp, maxpaths)) <==>
              var n := Ahead(best, mp);
              n > 0 && |Selection(best, mp[..n], maxpaths)| + 1 < maxpaths && Doubled(best, mp)
  {
    var n := Ahead(best, mp);
    var t := Selection(best, mp[..n], maxpaths);
    NoneYet(best, mp, n, maxpaths);
    RepeatedUpTo(best, mp, n, n, maxpaths, t);
    assert mp[..|mp|] == mp;
    if n == 0 {
      assert mp[..n] == [];
    } else if |t| + 1 < maxpaths {
      PrefixFine(best, mp, n);
      AllCovered(best, mp[..n], maxpaths, 0);
      LessOrder(Hop(best), Hop(best), Hop(best));
      assert Hop(mp[0]) != Hop(best);
    }
  }

  /** Such candidates: x has the best path's next hop, y comes before both. */
  lemma {:induction false} SecondOfBest(best: PathInfo, x: PathInfo, y: PathInfo)
    requires Is(y, 16, 3, 1) && Is(best, 16, 5, 2) && Is(x, 16, 5, 3)
    ensures Built([best, x, y]) == [y, best, x] && Selection(best, [y, best, x], 3) == [y, x]
  {
    assert [best, x, y][..2] == [best, x] && [best, x][..1] == [best] && [best][..0] == [];
    assert Built([best]) == [best] && [best][1..] == [];
    assert AddSorted([best], x) == [best, x];
    assert Built([best, x]) == [best, x];
    assert [y, best, x][1..] == [best, x] && [best, x][1..] == [x] && [x][1..] == [];
    assert Greedy([x], best, y, 2, 3) == [x];
    assert Greedy([best, x], best, y, 2, 3) == [x];
  }
}
