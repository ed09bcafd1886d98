/** AS paths: segments, their normal form, and what they mean. */
module BgpAspath {

  const AS_TRANS: nat := 23456
  const AS_MAX: nat := 65535

  datatype Kind = Set | Sequence | ConfedSequence | ConfedSet

  datatype Segment = Segment(kind: Kind, asns: seq<nat>)

  type Path = seq<Segment>

  predicate IsSet(k: Kind) { k == Set || k == ConfedSet }

  // ----- Sorted sets of AS numbers -----

  predicate Increasing(s: seq<nat>) {
    forall i, j :: 0 <= i < j < |s| ==> s[i] < s[j]
  }

  predicate Ascending(s: seq<nat>) {
    forall i, j :: 0 <= i < j < |s| ==> s[i] <= s[j]
  }

  function Elements(s: seq<nat>): set<nat> {
    set x | x in s
  }

  function Insert(x: nat, s: seq<nat>): seq<nat> {
    if s == [] || x < s[0] then [x] + s
    else if x == s[0] then s
    else [s[0]] + Insert(x, s[1..])
  }

  /** The members of a set segment, in order and once each. */
  function SortUnique(s: seq<nat>): seq<nat> {
    if s == [] then [] else Insert(s[0], SortUnique(s[1..]))
  }

  lemma {:induction false} InsertIncreasing(x: nat, s: seq<nat>)
    requires Increasing(s)
    ensures Increasing(Insert(x, s))
    ensures forall y :: y in Insert(x, s) <==> y == x || y in s
    decreases |s|
  {
    if s != [] && x > s[0] {
      var t := Insert(x, s[1..]);
      InsertIncreasing(x, s[1..]);
      assert s == [s[0]] + s[1..];
      forall k | 0 <= k < |t| ensures s[0] < t[k] {
        assert t[k] in t;
      }
    }
  }

  lemma {:induction false} SortUniqueIncreasing(s: seq<nat>)
    ensures Increasing(SortUnique(s))
    ensures forall y :: y in SortUnique(s) <==> y in s
    decreases |s|
  {
    if s != [] {
      SortUniqueIncreasing(s[1..]);
      InsertIncreasing(s[0], SortUnique(s[1..]));
      assert s == [s[0]] + s[1..];
    }
  }

  /** An increasing sequence is determined by its elements. */
  lemma {:induction false} IncreasingUnique(a: seq<nat>, b: seq<nat>)
    requires Increasing(a) && Increasing(b) && forall x :: x in a <==> x in b
    ensures a == b
    decreases |a|
  {
    assert b == [] || b[0] in b;
    if a != [] {
      assert a[0] in b && b != [];
      assert b[0] in a;
      assert a[0] == b[0];
      assert a == [a[0]] + a[1..] && b == [b[0]] + b[1..];
      forall x ensures x in a[1..] <==> x in b[1..] {
        assert x in a[1..] <==> x in a && x != a[0] by { TailMembers(a, x); }
        assert x in b[1..] <==> x in b && x != b[0] by { TailMembers(b, x); }
      }
      IncreasingUnique(a[1..], b[1..]);
    }
  }

  lemma {:induction false} TailMembers(s: seq<nat>, x: nat)
    requires Increasing(s) && s != []
    ensures x in s[1..] <==> x in s && x != s[0]
  {
    assert s == [s[0]] + s[1..];
  }

  lemma {:induction false} SortUniqueCanonical(a: seq<nat>, b: seq<nat>)
    ensures SortUnique(a) == SortUnique(b) <==> Elements(a) == Elements(b)
  {
    SortUniqueIncreasing(a);
    SortUniqueIncreasing(b);
    if Elements(a) == Elements(b) {
      assert forall x :: x in a <==> x in Elements(a);
      assert forall x :: x in b <==> x in Elements(b);
      IncreasingUnique(SortUnique(a), SortUnique(b));
    }
    if SortUnique(a) == SortUnique(b) {
      assert forall x :: x in Elements(a) <==> x in SortUnique(a);
      assert forall x :: x in Elements(b) <==> x in SortUnique(b);
    }
  }

  lemma {:induction false} SortedIsFixed(s: seq<nat>)
    requires Increasing(s)
    ensures SortUnique(s) == s
  {
    SortUniqueIncreasing(s);
    IncreasingUnique(SortUnique(s), s);
  }

  /** The loop of assegment_normalise that weeds duplicates out of the sorted
      array, in place. */
  method WeedDuplicates(a: array<nat>)
    returns (len: nat)
    requires Ascending(a[..])
    modifies a
    ensures len <= a.Length && a[..len] == SortUnique(old(a[..]))
  {
    if a.Length == 0 {
      return 0;
    }
    var tail, i := 0, 1;
    ghost var was := a[..];
    while i < a.Length
      invariant 0 <= tail < i <= a.Length
      invariant Increasing(a[..tail + 1]) && a[tail] == was[i - 1]
      invariant forall x :: x in a[..tail + 1] <==> x in was[..i]
      invariant forall k :: i <= k < a.Length ==> a[k] == was[k]
    {
      assert was[..i + 1] == was[..i] + [was[i]];
      if a[tail] != a[i] {
        assert a[tail] < a[i];
        ghost var head := a[..tail + 1];
        tail := tail + 1;
        a[tail] := a[i];
        assert a[..tail] == head;
        assert a[..tail + 1] == head + [was[i]];
      }
      i := i + 1;
    }
    assert was[..i] == was;
    SortUniqueIncreasing(was);
    IncreasingUnique(a[..tail + 1], SortUnique(was));
    return tail + 1;
  }

  // ----- Normal form -----

  function NormalSegment(s: Segment): Segment {
    if IsSet(s.kind) then s.(asns := SortUnique(s.asns)) else s
  }

  /** A segment in front of a normal path: AS_SEQUENCEs run together. */
  function Attach(s: Segment, p: Path): Path {
    if s.kind == Sequence && p != [] && p[0].kind == Sequence
    then [Segment(Sequence, s.asns + p[0].asns)] + p[1..]
    else [s] + p
  }

  /** assegment_normalise. */
  function Normalise(p: Path): Path {
    if p == [] then [] else Attach(NormalSegment(p[0]), Normalise(p[1..]))
  }

  predicate Normal(p: Path) {
    && (forall i :: 0 <= i < |p| && IsSet(p[i].kind) ==> Increasing(p[i].asns))
    && (forall i :: 0 <= i < |p| - 1 ==> p[i].kind != Sequence || p[i + 1].kind != Sequence)
  }

  predicate NoEmptySequence(p: Path) {
    forall i :: 0 <= i < |p| && p[i].kind == Sequence ==> p[i].asns != []
  }

  lemma {:induction false} AttachNormal(s: Segment, p: Path)
    requires Normal(p) && (IsSet(s.kind) ==> Increasing(s.asns))
    ensures Normal(Attach(s, p))
  {
    var q := Attach(s, p);
    if s.kind == Sequence && p != [] && p[0].kind == Sequence {
      assert forall i :: 1 <= i < |q| ==> q[i] == p[i];
    } else {
      assert forall i :: 1 <= i < |q| ==> q[i] == p[i - 1];
    }
  }

  lemma {:induction false} NormaliseNormal(p: Path)
    ensures Normal(Normalise(p))
    decreases |p|
  {
    if p != [] {
      NormaliseNormal(p[1..]);
      SortUniqueIncreasing(p[0].asns);
      AttachNormal(NormalSegment(p[0]), Normalise(p[1..]));
    }
  }

  lemma {:induction false} NormalIsFixed(p: Path)
    requires Normal(p)
    ensures Normalise(p) == p
    decreases |p|
  {
    if p != [] {
      var rest := p[1..];
      assert forall i :: 0 <= i < |rest| ==> rest[i] == p[i + 1];
      NormalIsFixed(rest);
      if IsSet(p[0].kind) {
        SortedIsFixed(p[0].asns);
      }
      assert p == [p[0]] + rest;
    }
  }

  /** Normalising is idempotent. */
  lemma {:induction false} NormaliseIdempotent(p: Path)
    ensures Normalise(Normalise(p)) == Normalise(p)
  {
    NormaliseNormal(p);
    NormalIsFixed(Normalise(p));
  }

  // ----- Meaning -----

  /** What a path says: hops one by one, sets as sets. */
  datatype Item =
    | Hop(asn: nat)
    | Unordered(members: set<nat>)
    | Confed(asns: seq<nat>)
    | ConfedUnordered(members: set<nat>)

  function Hops(s: seq<nat>): seq<Item> {
    seq(|s|, i requires 0 <= i < |s| => Hop(s[i]))
  }

  function SegmentMeaning(s: Segment): seq<Item> {
    match s.kind
    case Sequence => Hops(s.asns)
    case Set => [Unordered(Elements(s.asns))]
    case ConfedSequence => [Confed(s.asns)]
    case ConfedSet => [ConfedUnordered(Elements(s.asns))]
  }

  function Meaning(p: Path): seq<Item> {
    if p == [] then [] else SegmentMeaning(p[0]) + Meaning(p[1..])
  }

  lemma {:induction false} AttachMeaning(s: Segment, p: Path)
    ensures Meaning(Attach(s, p)) == SegmentMeaning(s) + Meaning(p)
  {
    if s.kind == Sequence && p != [] && p[0].kind == Sequence {
      var q := Attach(s, p);
      assert q[1..] == p[1..];
      assert Hops(s.asns + p[0].asns) == Hops(s.asns) + Hops(p[0].asns);
    } else {
      assert Attach(s, p)[1..] == p;
    }
  }

  lemma {:induction false} MeaningJoined(a: Path, b: Path)
    ensures Meaning(a + b) == Meaning(a) + Meaning(b)
    decreases |a|
  {
    if a == [] {
      assert a + b == b;
    } else {
      MeaningJoined(a[1..], b);
      assert (a + b)[1..] == a[1..] + b;
      assert SegmentMeaning(a[0]) + (Meaning(a[1..]) + Meaning(b))
             == SegmentMeaning(a[0]) + Meaning(a[1..]) + Meaning(b);
    }
  }

  /** Normalising keeps the meaning. */
  lemma {:induction false} NormaliseMeaning(p: Path)
    ensures Meaning(Normalise(p)) == Meaning(p)
    decreases |p|
  {
    if p != [] {
      NormaliseMeaning(p[1..]);
      AttachMeaning(NormalSegment(p[0]), Normalise(p[1..]));
      if IsSet(p[0].kind) {
        SortUniqueIncreasing(p[0].asns);
        assert Elements(SortUnique(p[0].asns)) == Elements(p[0].asns);
      }
    }
  }

  lemma {:induction false} HopsInjective(a: seq<nat>, b: seq<nat>)
    requires Hops(a) == Hops(b)
    ensures a == b
  {
    forall i | 0 <= i < |a| ensures |a| == |b| && a[i] == b[i] {
      assert |Hops(a)| == |Hops(b)|;
      assert Hops(a)[i] == Hops(b)[i];
    }
    assert |Hops(a)| == |Hops(b)|;
  }

  /** How a normal path starts shows in its meaning: the first item is a hop
      exactly when the first segment is an AS_SEQUENCE, and that segment is then
      the whole leading run of hops. */
  lemma {:induction false} LeadingRun(p: Path)
    requires Normal(p) && NoEmptySequence(p) && p != []
    ensures Meaning(p) != []
    ensures Meaning(p)[0].Hop? <==> p[0].kind == Sequence
    ensures p[0].kind == Sequence && |p| > 1 ==>
              |Meaning(p)| > |p[0].asns| && !Meaning(p)[|p[0].asns|].Hop?
    ensures p[0].kind == Sequence ==> |Meaning(p)| >= |p[0].asns| && Meaning(p)[..|p[0].asns|] == Hops(p[0].asns)
    decreases |p|
  {
    if |p| > 1 {
      var rest := p[1..];
      assert forall i :: 0 <= i < |rest| ==> rest[i] == p[i + 1];
      LeadingRun(rest);
    }
    assert p[0].kind == Sequence ==> |Hops(p[0].asns)| > 0 && Hops(p[0].asns)[0].Hop?;
  }

  /** A normal path without empty AS_SEQUENCEs is determined by its meaning. */
  lemma {:induction false} MeaningInjective(a: Path, b: Path)
    requires Normal(a) && Normal(b) && NoEmptySequence(a) && NoEmptySequence(b)
    requires Meaning(a) == Meaning(b)
    ensures a == b
    decreases |a|
  {
    if a == [] || b == [] {
      if a != [] {
        LeadingRun(a);
      }
      if b != [] {
        LeadingRun(b);
      }
    } else {
      LeadingRun(a);
      LeadingRun(b);
      var ra, rb := a[1..], b[1..];
      assert forall i :: 0 <= i < |ra| ==> ra[i] == a[i + 1];
      assert forall i :: 0 <= i < |rb| ==> rb[i] == b[i + 1];
      FirstSegment(a, b);
      assert Meaning(ra) == Meaning(a)[|SegmentMeaning(a[0])|..];
      assert Meaning(rb) == Meaning(b)[|SegmentMeaning(b[0])|..];
      MeaningInjective(ra, rb);
      assert a == [a[0]] + ra && b == [b[0]] + rb;
    }
  }

  lemma {:induction false} OnlyRun(p: Path)
    requires |p| >= 1 && p[0].kind == Sequence
    ensures |p| == 1 ==> |Meaning(p)| == |p[0].asns|
  {
    if |p| == 1 {
      assert p[1..] == [];
    }
  }

  lemma {:induction false} FirstSegment(a: Path, b: Path)
    requires Normal(a) && Normal(b) && NoEmptySequence(a) && NoEmptySequence(b) && a != [] && b != []
    requires Meaning(a) == Meaning(b)
    ensures a[0] == b[0]
  {
    LeadingRun(a);
    LeadingRun(b);
    if a[0].kind == Sequence {
      OnlyRun(a);
      OnlyRun(b);
      var m, na, nb := Meaning(a), |a[0].asns|, |b[0].asns|;
      assert forall k :: 0 <= k < na ==> m[k] == m[..na][k] && m[k].Hop?;
      assert forall k :: 0 <= k < nb ==> m[k] == m[..nb][k] && m[k].Hop?;
      HopsInjective(a[0].asns, b[0].asns);
    } else {
      assert Meaning(a)[0] == SegmentMeaning(a[0])[0] && Meaning(b)[0] == SegmentMeaning(b[0])[0];
      if IsSet(a[0].kind) {
        assert forall x :: x in a[0].asns <==> x in Elements(a[0].asns);
        assert forall x :: x in b[0].asns <==> x in Elements(b[0].asns);
        IncreasingUnique(a[0].asns, b[0].asns);
      }
    }
  }

  /** The AS numbers of the AS_SEQUENCEs a path starts with, and what follows them. */
  function RunAsns(p: Path): seq<nat> {
    if p != [] && p[0].kind == Sequence then p[0].asns + RunAsns(p[1..]) else []
  }

  function AfterRun(p: Path): (r: Path)
    ensures |r| <= |p|
    ensures p != [] && p[0].kind == Sequence ==> |r| < |p|
  {
    if p != [] && p[0].kind == Sequence then AfterRun(p[1..]) else p
  }

  /** No maximal run of AS_SEQUENCEs is without an AS number. */
  predicate NoEmptyRun(p: Path)
    decreases |p|
  {
    if p == [] then true
    else if p[0].kind == Sequence then RunAsns(p) != [] && NoEmptyRun(AfterRun(p))
    else NoEmptyRun(p[1..])
  }

  /** A run becomes one AS_SEQUENCE. */
  lemma {:induction false} NormalRun(p: Path)
    requires p != [] && p[0].kind == Sequence
    ensures Normalise(p) == [Segment(Sequence, RunAsns(p))] + Normalise(AfterRun(p))
    ensures AfterRun(p) == [] || AfterRun(p)[0].kind != Sequence
    decreases |p|
  {
    var rest := p[1..];
    if rest != [] && rest[0].kind == Sequence {
      NormalRun(rest);
      assert Normalise(rest)[1..] == Normalise(AfterRun(rest));
    } else {
      assert RunAsns(rest) == [] && p[0].asns + [] == p[0].asns && AfterRun(rest) == rest;
      if rest != [] {
        FirstKind(rest);
      }
    }
  }

  lemma {:induction false} NonEmptyCons(s: Segment, rest: Path)
    ensures NoEmptySequence([s] + rest) <==> (s.kind == Sequence ==> s.asns != []) && NoEmptySequence(rest)
  {
    var p := [s] + rest;
    assert p[0] == s && forall i :: 0 <= i < |rest| ==> p[i + 1] == rest[i];
  }

  /** The normal form has no empty AS_SEQUENCE exactly when the path has no empty run. */
  lemma {:induction false} EmptyRunsExactly(p: Path)
    ensures NoEmptySequence(Normalise(p)) <==> NoEmptyRun(p)
    decreases |p|
  {
    if p != [] {
      if p[0].kind == Sequence {
        NormalRun(p);
        EmptyRunsExactly(AfterRun(p));
        NonEmptyCons(Segment(Sequence, RunAsns(p)), Normalise(AfterRun(p)));
      } else {
        EmptyRunsExactly(p[1..]);
        NonEmptyCons(NormalSegment(p[0]), Normalise(p[1..]));
      }
    }
  }

  /** Canonical form: two paths without an empty run of AS_SEQUENCEs have the same
      normal form exactly when they mean the same path. */
  lemma {:induction false} NormaliseCanonical(a: Path, b: Path)
    requires NoEmptyRun(a) && NoEmptyRun(b)
    ensures Normalise(a) == Normalise(b) <==> Meaning(a) == Meaning(b)
  {
    NormaliseMeaning(a);
    NormaliseMeaning(b);
    if Meaning(a) == Meaning(b) {
      NormaliseNormal(a);
      NormaliseNormal(b);
      EmptyRunsExactly(a);
      EmptyRunsExactly(b);
      MeaningInjective(Normalise(a), Normalise(b));
    }
  }

  /** And no further: a path that means the same as one without an empty run has
      the same normal form if and only if it has no empty run itself. */
  lemma {:induction false} CanonicalExactly(a: Path, b: Path)
    requires NoEmptyRun(b) && Meaning(a) == Meaning(b)
    ensures Normalise(a) == Normalise(b) <==> NoEmptyRun(a)
  {
    EmptyRunsExactly(a);
    EmptyRunsExactly(b);
    if NoEmptyRun(a) {
      NormaliseCanonical(a, b);
    }
  }

  /** An empty AS_SEQUENCE says nothing, yet normalising keeps it. */
  lemma {:induction false} EmptySequenceStays()
    ensures var a: Path := [Segment(Sequence, [])];
            Meaning(a) == Meaning([]) && Normalise(a) != Normalise([])
  {
    var a: Path := [Segment(Sequence, [])];
    assert a[1..] == [];
  }

  // ----- Counting -----

  function SegmentHops(s: Segment): nat {
    match s.kind
    case Sequence => |s.asns|
    case Set => 1
    case _ => 0
  }

  function SegmentConfeds(s: Segment): nat {
    match s.kind
    case ConfedSequence => |s.asns|
    case ConfedSet => 1
    case _ => 0
  }

  /** aspath_count_hops and aspath_count_confeds. */
  function HopCount(p: Path): nat {
    if p == [] then 0 else SegmentHops(p[0]) + HopCount(p[1..])
  }

  function ConfedCount(p: Path): nat {
    if p == [] then 0 else SegmentConfeds(p[0]) + ConfedCount(p[1..])
  }

  method CountHops(p: Path) returns (count: nat)
    ensures count == HopCount(p)
  {
    count := 0;
    var i := 0;
    assert p[0..] == p;
    while i < |p|
      invariant 0 <= i <= |p| && count + HopCount(p[i..]) == HopCount(p)
    {
      assert p[i..][1..] == p[i + 1..];
      if p[i].kind == Sequence {
        count := count + |p[i].asns|;
      } else if p[i].kind == Set {
        count := count + 1;
      }
      i := i + 1;
    }
  }

  lemma {:induction false} AttachCounts(s: Segment, p: Path)
    ensures HopCount(Attach(s, p)) == SegmentHops(s) + HopCount(p)
    ensures ConfedCount(Attach(s, p)) == SegmentConfeds(s) + ConfedCount(p)
  {
    if s.kind == Sequence && p != [] && p[0].kind == Sequence {
      assert Attach(s, p)[1..] == p[1..];
    } else {
      assert Attach(s, p)[1..] == p;
    }
  }

  /** Normalising keeps both counts. */
  lemma {:induction false} NormaliseCounts(p: Path)
    ensures HopCount(Normalise(p)) == HopCount(p) && ConfedCount(Normalise(p)) == ConfedCount(p)
    decreases |p|
  {
    if p != [] {
      NormaliseCounts(p[1..]);
      AttachCounts(NormalSegment(p[0]), Normalise(p[1..]));
    }
  }

  // ----- The code -----

  /** aspath_cmp. */
  method Compare(a: Path, b: Path) returns (same: bool)
    ensures same <==> a == b
  {
    var i := 0;
    while i < |a| || i < |b|
      invariant 0 <= i <= |a| && i <= |b| && a[..i] == b[..i]
      decreases |a| - i
    {
      if i >= |a| || i >= |b| || a[i].kind != b[i].kind || |a[i].asns| != |b[i].asns| {
        return false;
      }
      var k := 0;
      while k < |a[i].asns|
        invariant 0 <= k <= |a[i].asns| && a[i].asns[..k] == b[i].asns[..k]
      {
        if a[i].asns[k] != b[i].asns[k] {
          return false;
        }
        k := k + 1;
      }
      assert a[i].asns == a[i].asns[..k] && b[i].asns == b[i].asns[..k];
      assert a[..i + 1] == a[..i] + [a[i]] && b[..i + 1] == b[..i] + [b[i]];
      i := i + 1;
    }
    assert a == a[..i] && b == b[..i];
    return true;
  }

  function Place(x: nat, s: seq<nat>): seq<nat> {
    if s == [] || x <= s[0] then [x] + s else [s[0]] + Place(x, s[1..])
  }

  /** What qsort leaves in the array. */
  function Sort(s: seq<nat>): seq<nat> {
    if s == [] then [] else Place(s[0], Sort(s[1..]))
  }

  lemma {:induction false} PlaceAscending(x: nat, s: seq<nat>)
    requires Ascending(s)
    ensures Ascending(Place(x, s)) && forall y :: y in Place(x, s) <==> y == x || y in s
    decreases |s|
  {
    if s != [] && x > s[0] {
      var t := Place(x, s[1..]);
      PlaceAscending(x, s[1..]);
      assert s == [s[0]] + s[1..];
      forall k | 0 <= k < |t| ensures s[0] <= t[k] {
        assert t[k] in t;
      }
    }
  }

  lemma {:induction false} SortAscending(s: seq<nat>)
    ensures Ascending(Sort(s)) && forall y :: y in Sort(s) <==> y in s
    decreases |s|
  {
    if s != [] {
      SortAscending(s[1..]);
      PlaceAscending(s[0], Sort(s[1..]));
      assert s == [s[0]] + s[1..];
    }
  }

  /** Sorting a set segment and weeding out its duplicates. */
  method NormaliseSet(asns: seq<nat>) returns (r: seq<nat>)
    ensures r == SortUnique(asns)
  {
    var sorted := Sort(asns);
    SortAscending(asns);
    var a := new nat[|sorted|](i requires 0 <= i < |sorted| => sorted[i]);
    assert a[..] == sorted;
    var len := WeedDuplicates(a);
    r := a[..len];
    assert Elements(sorted) == Elements(asns);
    SortUniqueCanonical(sorted, asns);
  }

  lemma {:induction false} FirstKind(p: Path)
    requires p != []
    ensures Normalise(p) != [] && Normalise(p)[0].kind == p[0].kind
  {}

  /** Two AS_SEQUENCEs in a row normalise like their concatenation. */
  lemma {:induction false} MergeFirst(a: seq<nat>, b: seq<nat>, rest: Path)
    ensures Normalise([Segment(Sequence, a), Segment(Sequence, b)] + rest)
            == Normalise([Segment(Sequence, a + b)] + rest)
  {
    var two: Path := [Segment(Sequence, a), Segment(Sequence, b)] + rest;
    var one: Path := [Segment(Sequence, a + b)] + rest;
    assert two[1..] == [Segment(Sequence, b)] + rest && two[1..][1..] == rest && one[1..] == rest;
    var n := Normalise(rest);
    var q := Attach(Segment(Sequence, b), n);
    assert Normalise(two[1..]) == q;
    if n != [] && n[0].kind == Sequence {
      assert a + (b + n[0].asns) == a + b + n[0].asns;
      assert q[1..] == n[1..];
    } else {
      assert q[1..] == n;
    }
  }

  /** Only the normal form of what follows matters. */
  lemma {:induction false} NormaliseTail(a: Path, b: Path, c: Path)
    requires Normalise(b) == Normalise(c)
    ensures Normalise(a + b) == Normalise(a + c)
    decreases |a|
  {
    if a == [] {
      assert a + b == b && a + c == c;
    } else {
      NormaliseTail(a[1..], b, c);
      assert (a + b)[1..] == a[1..] + b && (a + c)[1..] == a[1..] + c;
    }
  }

  /** assegment_normalise: pin a segment, sort it if it is a set, append to it
      every packable segment that follows, and go on with the next. */
  method NormaliseInPlace(p: Path) returns (segs: Path)
    ensures segs == Normalise(p)
  {
    segs := p;
    var i := 0;
    assert p[0..] == p;
    while i < |segs|
      invariant 0 <= i <= |segs|
      invariant Normalise(p) == segs[..i] + Normalise(segs[i..])
      decreases |segs| - i
    {
      if IsSet(segs[i].kind) {
        var sorted := NormaliseSet(segs[i].asns);
        SetSorted(segs, i, sorted);
        segs := segs[i := segs[i].(asns := sorted)];
      }
      ghost var n := |segs| - i;
      while i + 1 < |segs| && segs[i].kind == Sequence && segs[i + 1].kind == Sequence
        invariant i < |segs| <= i + n
        invariant Normalise(p) == segs[..i] + Normalise(segs[i..])
        invariant IsSet(segs[i].kind) ==> Increasing(segs[i].asns)
        decreases |segs|
      {
        Packed(segs, i);
        segs := segs[..i] + [Segment(Sequence, segs[i].asns + segs[i + 1].asns)] + segs[i + 2..];
      }
      Pinned(segs, i);
      i := i + 1;
    }
    assert segs[i..] == [] && segs[..i] == segs;
  }

  lemma {:induction false} SetSorted(segs: Path, i: nat, sorted: seq<nat>)
    requires i < |segs| && IsSet(segs[i].kind) && sorted == SortUnique(segs[i].asns)
    ensures var s' := segs[i := segs[i].(asns := sorted)];
            s'[..i] == segs[..i] && Normalise(s'[i..]) == Normalise(segs[i..]) && Increasing(sorted)
  {
    var s' := segs[i := segs[i].(asns := sorted)];
    SortUniqueIncreasing(segs[i].asns);
    SortedIsFixed(sorted);
    assert s'[i..][1..] == segs[i..][1..];
  }

  lemma {:induction false} Packed(segs: Path, i: nat)
    requires i + 1 < |segs| && segs[i].kind == Sequence && segs[i + 1].kind == Sequence
    ensures var s' := segs[..i] + [Segment(Sequence, segs[i].asns + segs[i + 1].asns)] + segs[i + 2..];
            s'[..i] == segs[..i] && Normalise(s'[i..]) == Normalise(segs[i..])
  {
    var s' := segs[..i] + [Segment(Sequence, segs[i].asns + segs[i + 1].asns)] + segs[i + 2..];
    assert segs[i..] == [segs[i], segs[i + 1]] + segs[i + 2..];
    assert s'[i..] == [Segment(Sequence, segs[i].asns + segs[i + 1].asns)] + segs[i + 2..];
    MergeFirst(segs[i].asns, segs[i + 1].asns, segs[i + 2..]);
  }

  lemma {:induction false} Pinned(segs: Path, i: nat)
    requires i < |segs| && (IsSet(segs[i].kind) ==> Increasing(segs[i].asns))
    requires i + 1 < |segs| ==> segs[i].kind != Sequence || segs[i + 1].kind != Sequence
    ensures segs[..i] + Normalise(segs[i..]) == segs[..i + 1] + Normalise(segs[i + 1..])
  {
    assert segs[i..][1..] == segs[i + 1..];
    if IsSet(segs[i].kind) {
      SortedIsFixed(segs[i].asns);
    }
    if segs[i + 1..] != [] {
      FirstKind(segs[i + 1..]);
    }
    assert Normalise(segs[i..]) == [segs[i]] + Normalise(segs[i + 1..]);
    assert segs[..i + 1] == segs[..i] + [segs[i]];
  }
}
