/** The list of multipath candidates: how bgp_mp_list_add orders it, when that
    order keeps MULTIPATH_CHG exact, and candidates for which it does not. */
module BgpMpathList {
  import opened Wrappers
  import opened BgpMpath

  /** Where listnode_add_sort puts a value: before the first it sorts before. */
  function AddSorted(s: seq<PathInfo>, x: PathInfo): seq<PathInfo> {
    if s == [] then [x]
    else if Compare(x, s[0]) < 0 then [x] + s
    else [s[0]] + AddSorted(s[1..], x)
  }

  /** listnode_add_sort. */
  method ListnodeAddSort(s: seq<PathInfo>, x: PathInfo) returns (r: seq<PathInfo>)
    ensures r == AddSorted(s, x)
  {
    var n := 0;
    assert s[0..] == s;
    while n < |s|
      invariant 0 <= n <= |s| && s[..n] + AddSorted(s[n..], x) == AddSorted(s, x)
    {
      if Compare(x, s[n]) < 0 {
        return s[..n] + [x] + s[n..];
      }
      assert s[n..][1..] == s[n + 1..] && s[..n + 1] == s[..n] + [s[n]];
      n := n + 1;
    }
    assert s[..n] == s && s[n..] == [];
    r := s + [x];
  }

  /** The list after bgp_best_selection has added its candidates in turn. */
  function Built(added: seq<PathInfo>): seq<PathInfo> {
    if added == [] then [] else AddSorted(Built(added[..|added| - 1]), added[|added| - 1])
  }

  /** Every path of the one list is on the other. */
  predicate Among(s: seq<PathInfo>, t: seq<PathInfo>) {
    forall i :: 0 <= i < |s| ==> s[i] in t
  }

  lemma {:induction false} AddedAmong(s: seq<PathInfo>, x: PathInfo, all: seq<PathInfo>)
    requires Among(s, all) && x in all
    ensures Among(AddSorted(s, x), all)
    decreases |s|
  {
    if s != [] {
      assert forall i :: 0 <= i < |s[1..]| ==> s[1..][i] == s[i + 1];
      AddedAmong(s[1..], x, all);
    }
  }

  lemma {:induction false} BuiltAmong(added: seq<PathInfo>, all: seq<PathInfo>)
    requires Among(added, all)
    ensures Among(Built(added), all)
    decreases |added|
  {
    if added != [] {
      var front := added[..|added| - 1];
      BuiltAmong(front, all);
      AddedAmong(Built(front), added[|added| - 1], all);
    }
  }

  // ----- Sorted lists -----

  /** No later candidate sorts before an earlier one. */
  predicate SortedList(mp: seq<PathInfo>) {
    forall i, j :: 0 <= i < j < |mp| ==> Compare(mp[j], mp[i]) >= 0
  }

  /** Next hops of one kind: all without a multiprotocol next hop, or all with one
      of the same length. */
  predicate AlikeHops(a: NextHop, b: NextHop) {
    if a.mp.None? then b.mp.None? else b.mp.Some? && a.mp.value.len == b.mp.value.len
  }

  predicate Alike(s: seq<PathInfo>) {
    forall i, j :: 0 <= i < |s| && 0 <= j < |s| ==> AlikeHops(s[i].nexthop, s[j].nexthop)
  }

  lemma {:induction false} AlikeMembers(s: seq<PathInfo>, a: PathInfo, b: PathInfo)
    requires Alike(s) && a in s && b in s
    ensures AlikeHops(a.nexthop, b.nexthop)
  {
    var i :| 0 <= i < |s| && s[i] == a;
    var j :| 0 <= j < |s| && s[j] == b;
  }

  lemma {:induction false} CompareTurned(a: PathInfo, b: PathInfo)
    ensures Compare(b, a) == -Compare(a, b)
  {}

  /** Among next hops of one kind the comparison is transitive. */
  lemma {:induction false} AlikeTransitive(a: PathInfo, b: PathInfo, c: PathInfo)
    requires AlikeHops(a.nexthop, b.nexthop) && AlikeHops(b.nexthop, c.nexthop)
    requires Compare(a, b) <= 0 && Compare(b, c) <= 0
    ensures Compare(a, c) <= 0
  {}

  /** Nothing in the list sorts before the path. */
  predicate NoneBefore(s: seq<PathInfo>, x: PathInfo) {
    forall i :: 0 <= i < |s| ==> Compare(s[i], x) >= 0
  }

  lemma {:induction false} SortedCons(x: PathInfo, s: seq<PathInfo>)
    ensures SortedList([x] + s) <==> SortedList(s) && NoneBefore(s, x)
  {
    var t := [x] + s;
    assert forall i :: 0 <= i < |s| ==> t[i + 1] == s[i];
    if SortedList(t) {
      forall i | 0 <= i < |s| ensures Compare(s[i], x) >= 0 {
        assert Compare(t[i + 1], t[0]) >= 0;
      }
      forall i, j | 0 <= i < j < |s| ensures Compare(s[j], s[i]) >= 0 {
        assert Compare(t[j + 1], t[i + 1]) >= 0;
      }
    }
  }

  lemma {:induction false} NoneBeforeEarlier(s: seq<PathInfo>, h: PathInfo, x: PathInfo, all: seq<PathInfo>)
    requires NoneBefore(s, h) && Compare(x, h) < 0 && Alike(all) && x in all && h in all && Among(s, all)
    ensures NoneBefore(s, x)
  {
    forall i | 0 <= i < |s| ensures Compare(s[i], x) >= 0 {
      AlikeMembers(all, x, h);
      AlikeMembers(all, h, s[i]);
      CompareTurned(s[i], h);
      CompareTurned(s[i], x);
      AlikeTransitive(x, h, s[i]);
    }
  }

  lemma {:induction false} AddedNoneBefore(s: seq<PathInfo>, x: PathInfo, h: PathInfo)
    requires NoneBefore(s, h) && Compare(x, h) >= 0
    ensures NoneBefore(AddSorted(s, x), h)
    decreases |s|
  {
    if s != [] {
      assert forall i :: 0 <= i < |s[1..]| ==> s[1..][i] == s[i + 1];
      AddedNoneBefore(s[1..], x, h);
    }
  }

  lemma {:induction false} AddKeepsSorted(s: seq<PathInfo>, x: PathInfo, all: seq<PathInfo>)
    requires SortedList(s) && Alike(all) && x in all && Among(s, all)
    ensures SortedList(AddSorted(s, x))
    decreases |s|
  {
    if s != [] {
      var h, rest := s[0], s[1..];
      assert s == [h] + rest && forall i :: 0 <= i < |rest| ==> rest[i] == s[i + 1];
      SortedCons(h, rest);
      if Compare(x, h) < 0 {
        NoneBeforeEarlier(rest, h, x, all);
        CompareTurned(x, h);
        SortedCons(x, s);
      } else {
        AddKeepsSorted(rest, x, all);
        AddedNoneBefore(rest, x, h);
        SortedCons(h, AddSorted(rest, x));
      }
    }
  }

  lemma {:induction false} SublistAlike(s: seq<PathInfo>, t: seq<PathInfo>)
    requires Alike(s) && Among(t, s)
    ensures Alike(t)
  {
    forall i, j | 0 <= i < |t| && 0 <= j < |t| ensures AlikeHops(t[i].nexthop, t[j].nexthop) {
      AlikeMembers(s, t[i], t[j]);
    }
  }

  /** Candidates of one kind end up sorted, in whatever order they were added. */
  lemma {:induction false} AlikeBuiltSorted(added: seq<PathInfo>)
    requires Alike(added)
    ensures SortedList(Built(added))
    decreases |added|
  {
    if added != [] {
      var front, x := added[..|added| - 1], added[|added| - 1];
      SublistAlike(added, front);
      AlikeBuiltSorted(front);
      BuiltAmong(front, added);
      AddKeepsSorted(Built(front), x, added);
    }
  }

  lemma {:induction false} GreedyFirst(mp: seq<PathInfo>, best: PathInfo, last: PathInfo, count: nat, maxpaths: nat)
    ensures var next := Greedy(mp, best, last, count, maxpaths);
            next != [] ==> exists i :: 0 <= i < |mp| && mp[i] == next[0]
    decreases |mp|
  {
    if mp != [] && count < maxpaths && !(mp[0] != best && CompareNextHop(last.nexthop, mp[0].nexthop) != 0) {
      GreedyFirst(mp[1..], best, last, count, maxpaths);
      assert forall i :: 0 <= i < |mp[1..]| ==> mp[1..][i] == mp[i + 1];
    }
  }

  lemma {:induction false} SortedInStep(mp: seq<PathInfo>, best: PathInfo, last: PathInfo, count: nat, maxpaths: nat)
    requires SortedList(mp)
    ensures InStep(mp, best, last, count, maxpaths)
    decreases |mp|
  {
    if mp != [] && count < maxpaths {
      var rest := mp[1..];
      assert forall i :: 0 <= i < |rest| ==> rest[i] == mp[i + 1];
      if mp[0] != best && CompareNextHop(last.nexthop, mp[0].nexthop) != 0 {
        SortedInStep(rest, best, mp[0], count + 1, maxpaths);
      } else {
        SortedInStep(rest, best, last, count, maxpaths);
        GreedyFirst(rest, best, last, count, maxpaths);
      }
    }
  }

  /** For candidates of one kind MULTIPATH_CHG is exact: the list bgp_mp_list_add
      builds of them is in step, whatever the best path and the limit. */
  lemma {:induction false} AlikeInStep(added: seq<PathInfo>, best: PathInfo, maxpaths: nat)
    requires Alike(added)
    ensures InStep(Built(added), best, best, 1, maxpaths)
  {
    AlikeBuiltSorted(added);
    SortedInStep(Built(added), best, best, 1, maxpaths);
  }

  // ----- Candidates of different kinds -----

  /** A path with a global next hop of that length from that peer. */
  predicate Is(x: PathInfo, len: nat, global: nat, peer: nat) {
    x.nexthop == NextHop(0, Some(MpNextHop(len, global, 0))) && x.peer == peer
  }

  /** The comparison is not transitive: three candidates that each sort before the
      next, in a circle. */
  lemma {:induction false} Circle(a: PathInfo, b: PathInfo, c: PathInfo)
    requires Is(a, 16, 5, 1) && Is(b, 32, 9, 2) && Is(c, 16, 3, 3)
    ensures Compare(a, b) < 0 && Compare(b, c) < 0 && Compare(c, a) < 0
  {}

  /** Added in this order, those three and a best path make a list that is not in
      step: with nothing changed since last time, MULTIPATH_CHG is raised. */
  lemma {:induction false} SpuriousChange(a: PathInfo, b: PathInfo, c: PathInfo, best: PathInfo)
    requires Is(a, 16, 5, 1) && Is(b, 32, 9, 2) && Is(c, 16, 3, 3) && Is(best, 16, 5, 4)
    ensures Built([b, c, a, best]) == [a, b, c, best]
    ensures Selection(best, [a, b, c, best], 2) == [c]
    ensures !InStep([a, b, c, best], best, best, 1, 2)
  {
    assert AddSorted([a, b, c], best) == [a, b, c, best] by {
      assert AddSorted([c], best) == [c, best];
      assert [b, c][1..] == [c] && [a, b, c][1..] == [b, c];
      assert AddSorted([b, c], best) == [b, c, best];
    }
    BuiltOfThree(a, b, c, best);
    assert [a, b, c, best][1..] == [b, c, best];
    assert [b, c, best][1..] == [c, best];
    assert Greedy([c, best], best, best, 1, 2) == [c] + Greedy([best], best, c, 2, 2);
    assert Greedy([b, c, best], best, best, 1, 2) == [c];
  }

  lemma {:induction false} BuiltOfThree(a: PathInfo, b: PathInfo, c: PathInfo, best: PathInfo)
    requires Is(a, 16, 5, 1) && Is(b, 32, 9, 2) && Is(c, 16, 3, 3)
    ensures Built([b, c, a, best]) == AddSorted([a, b, c], best)
  {
    assert [b, c, a, best][..3] == [b, c, a] && [b, c, a][..2] == [b, c] && [b, c][..1] == [b] && [b][..0] == [];
    assert Built([b]) == [b];
    assert [b][1..] == [] && AddSorted([b], c) == [b, c];
    assert Built([b, c]) == [b, c];
    assert AddSorted([b, c], a) == [a, b, c];
    assert Built([b, c, a]) == [a, b, c];
  }
}
