/** aspath_reconcile_as4: a 4-octet speaker puts together the AS_PATH that
    2-octet speakers extended and the AS4_PATH they passed on. */
module BgpReconcile {
  import opened BgpAspath
  import opened BgpAspathWire
  import opened BgpAspathPut

  function Count(p: Path): nat {
    HopCount(p) + ConfedCount(p)
  }

  function SegmentCount(s: Segment): nat {
    SegmentHops(s) + SegmentConfeds(s)
  }

  /** What is copied of one segment with so many hops to go: sets and
      confederation sequences whole, an AS_SEQUENCE cut where the hops run out. */
  function Taken(s: Segment, hops: int): Segment
    requires hops > 0
  {
    if s.kind == Sequence && hops < |s.asns| then s.(asns := s.asns[..hops]) else s
  }

  /** The hops still to go after the segment. */
  function HopsAfter(s: Segment, hops: int): int {
    match s.kind
    case Sequence => hops - |s.asns|
    case ConfedSequence => if hops < |s.asns| then 0 else hops - |s.asns|
    case _ => hops - 1
  }

  /** The leading segments that make up so many hops. */
  function TakeHops(p: Path, hops: int): Path {
    if p == [] || hops <= 0 then []
    else [Taken(p[0], hops)] + TakeHops(p[1..], HopsAfter(p[0], hops))
  }

  /** How many hops of AS_PATH are kept. */
  function HopsKept(path: Path, as4: Path): int {
    var hops := Count(path) - HopCount(as4);
    if hops < 0 then HopCount(path) else hops
  }

  function Reconcile(path: Path, as4: Path): Path {
    if HopsKept(path, as4) == 0 then as4
    else Normalise(TakeHops(path, HopsKept(path, as4)) + as4)
  }

  /** The body of the loop of aspath_reconcile_as4. */
  method CopySegment(seg: Segment, hops: int) returns (newseg: Segment, left: int)
    requires hops > 0
    ensures newseg == Taken(seg, hops) && left == HopsAfter(seg, hops)
  {
    var cpasns := |seg.asns|;
    left := hops;
    match seg.kind {
      case Set => left := left - 1;
      case ConfedSet => left := left - 1;
      case ConfedSequence =>
        if left < |seg.asns| {
          left := |seg.asns|;
        }
        cpasns := if |seg.asns| < left then |seg.asns| else left;
        left := left - |seg.asns|;
      case Sequence =>
        cpasns := if |seg.asns| < left then |seg.asns| else left;
        left := left - |seg.asns|;
    }
    assert cpasns <= |seg.asns|;
    newseg := Segment(seg.kind, seg.asns[..cpasns]);
    assert seg.asns[..|seg.asns|] == seg.asns;
  }

  lemma {:induction false} TakeStep(p: Path, i: nat, hops: int, acc: Path)
    requires i < |p| && hops > 0
    ensures acc + TakeHops(p[i..], hops) == acc + [Taken(p[i], hops)] + TakeHops(p[i + 1..], HopsAfter(p[i], hops))
  {
    assert p[i..][1..] == p[i + 1..];
  }

  /** The loop of aspath_reconcile_as4, the merge and the normalisation. */
  method ReconcileAs4(path: Path, as4: Path) returns (r: Path)
    ensures r == Reconcile(path, as4)
  {
    var hops := Count(path) - HopCount(as4);
    if hops < 0 {
      hops := CountHops(path);
    }
    if hops == 0 {
      return as4;
    }
    ghost var kept := hops;
    var newpath: Path := [];
    var i := 0;
    assert path[0..] == path;
    while i < |path| && hops > 0
      invariant 0 <= i <= |path|
      invariant TakeHops(path, kept) == newpath + TakeHops(path[i..], hops)
    {
      TakeStep(path, i, hops, newpath);
      var newseg, left := CopySegment(path[i], hops);
      newpath, hops, i := newpath + [newseg], left, i + 1;
    }
    assert TakeHops(path[i..], hops) == [] && newpath + [] == newpath;
    r := NormaliseInPlace(newpath + as4);
  }

  // ----- What was prepended is kept, the rest comes from AS4_PATH -----

  predicate ConfedFree(p: Path) {
    forall i :: 0 <= i < |p| ==> p[i].kind == Sequence || p[i].kind == Set
  }

  function Prepended(q: seq<nat>, p: Path): Path {
    if q == [] then p else [Segment(Sequence, q)] + p
  }

  lemma {:induction false} ImageCounts(p: Path, wide: bool)
    ensures HopCount(Image(p, wide)) == HopCount(p) && ConfedCount(Image(p, wide)) == ConfedCount(p)
    decreases |p|
  {
    if p != [] {
      ImageTail(p, wide);
      ImageCounts(p[1..], wide);
    }
  }

  lemma {:induction false} NoConfeds(p: Path)
    requires ConfedFree(p)
    ensures ConfedCount(p) == 0
    decreases |p|
  {
    if p != [] {
      assert forall i :: 0 <= i < |p[1..]| ==> p[1..][i] == p[i + 1];
      NoConfeds(p[1..]);
    }
  }

  lemma {:induction false} TakePrepended(q: seq<nat>, n: Path)
    requires q != []
    ensures TakeHops(Attach(Segment(Sequence, q), n), |q|) == [Segment(Sequence, q)]
  {
    var a := Attach(Segment(Sequence, q), n);
    assert a[0].asns[..|q|] == q;
    assert Taken(a[0], |q|) == Segment(Sequence, q);
    assert TakeHops(a[1..], |q| - |a[0].asns|) == [];
  }

  /** If 2-octet speakers put `q` in front of the AS_TRANS image of a path, the
      reconciled path is `q` in front of the path itself. */
  lemma {:induction false} PrependedIsRestored(q: seq<nat>, p: Path)
    requires ConfedFree(p) && Normal(p)
    ensures Reconcile(Normalise(Prepended(q, Image(p, false))), p) == Normalise(Prepended(q, p))
  {
    var image := Image(p, false);
    var path := Normalise(Prepended(q, image));
    ImageCounts(p, false);
    NoConfeds(p);
    NormaliseCounts(Prepended(q, image));
    NormalIsFixed(p);
    if q != [] {
      assert Prepended(q, image)[1..] == image;
      TakePrepended(q, Normalise(image));
    }
  }

  // ----- The count -----

  lemma {:induction false} CountJoined(a: Path, b: Path)
    ensures Count(a + b) == Count(a) + Count(b)
    decreases |a|
  {
    if a == [] {
      assert a + b == b;
    } else {
      CountJoined(a[1..], b);
      assert (a + b)[1..] == a[1..] + b;
    }
  }

  /** Some confederation sequence begins before the cut and ends after it. */
  predicate Straddles(p: Path, hops: int) {
    p != [] && hops > 0 &&
    ((p[0].kind == ConfedSequence && hops < |p[0].asns|) || Straddles(p[1..], hops - SegmentCount(p[0])))
  }

  lemma {:induction false} CountCons(s: Segment, rest: Path)
    ensures Count([s] + rest) == SegmentCount(s) + Count(rest)
  {
    assert ([s] + rest)[1..] == rest;
  }

  lemma {:induction false} TakenCount(p: Path, hops: nat)
    requires hops <= Count(p)
    ensures Count(TakeHops(p, hops)) >= hops
    ensures Count(TakeHops(p, hops)) == hops <==> !Straddles(p, hops)
    decreases |p|
  {
    if p != [] && hops > 0 {
      var taken, n := TakeHops(p, hops), SegmentCount(p[0]);
      assert Count(p) == n + Count(p[1..]);
      if hops >= n {
        TakenCount(p[1..], hops - n);
        CountCons(p[0], TakeHops(p[1..], hops - n));
        assert taken == [p[0]] + TakeHops(p[1..], hops - n);
      } else {
        var s := Taken(p[0], hops);
        assert TakeHops(p[1..], HopsAfter(p[0], hops)) == [];
        CountCons(s, []);
        assert taken == [s] + [];
        assert !Straddles(p[1..], hops - n);
        assert Straddles(p, hops) <==> p[0].kind == ConfedSequence;
      }
    }
  }

  /** When AS_PATH has the hops for it, the reconciled path has as many hops as
      AS_PATH exactly when the cut is not inside a confederation sequence, and
      more otherwise. */
  lemma {:induction false} CountIsKept(path: Path, as4: Path)
    requires ConfedFree(as4) && Count(path) >= HopCount(as4)
    ensures Count(Reconcile(path, as4)) >= Count(path)
    ensures Count(Reconcile(path, as4)) == Count(path) <==> !Straddles(path, Count(path) - HopCount(as4))
  {
    var hops := HopsKept(path, as4);
    NoConfeds(as4);
    TakenCount(path, hops);
    CountJoined(TakeHops(path, hops), as4);
    NormaliseCounts(TakeHops(path, hops) + as4);
  }

  // ----- The meaning, whatever the inputs -----

  predicate IsPrefix(a: seq<Item>, b: seq<Item>) {
    |a| <= |b| && a == b[..|a|]
  }

  lemma {:induction false} TakenIsPrefix(p: Path, hops: int)
    ensures IsPrefix(Meaning(TakeHops(p, hops)), Meaning(p))
    decreases |p|
  {
    if p != [] && hops > 0 {
      var taken := TakeHops(p, hops);
      var first, rest := SegmentMeaning(p[0]), Meaning(p[1..]);
      if p[0].kind == Sequence && hops < |p[0].asns| {
        assert TakeHops(p[1..], hops - |p[0].asns|) == [];
        assert taken[1..] == [];
        assert Meaning(taken) == Hops(p[0].asns[..hops]);
        assert (first + rest)[..hops] == Hops(p[0].asns[..hops]);
      } else {
        var left := HopsAfter(p[0], hops);
        TakenIsPrefix(p[1..], left);
        assert taken == [p[0]] + TakeHops(p[1..], left);
        assert taken[1..] == TakeHops(p[1..], left);
      }
    }
  }

  /** The reconciled path is a leading part of AS_PATH followed by all of
      AS4_PATH: no AS number the 4-octet speakers recorded is lost. */
  lemma {:induction false} ReconcileMeaning(path: Path, as4: Path)
    returns (kept: seq<Item>)
    ensures IsPrefix(kept, Meaning(path)) && Meaning(Reconcile(path, as4)) == kept + Meaning(as4)
  {
    var hops := HopsKept(path, as4);
    if hops == 0 {
      kept := [];
    } else {
      var taken := TakeHops(path, hops);
      kept := Meaning(taken);
      TakenIsPrefix(path, hops);
      MeaningJoined(taken, as4);
      NormaliseMeaning(taken + as4);
    }
  }

  // ----- When AS4_PATH is the longer -----

  lemma {:induction false} NoHopsNoMeaning(p: Path)
    requires ConfedFree(p) && HopCount(p) == 0
    ensures Meaning(p) == []
    decreases |p|
  {
    if p != [] {
      assert forall i :: 0 <= i < |p[1..]| ==> p[1..][i] == p[i + 1];
      NoHopsNoMeaning(p[1..]);
    }
  }

  lemma {:induction false} AllTaken(p: Path)
    requires ConfedFree(p)
    ensures Meaning(TakeHops(p, HopCount(p))) == Meaning(p)
    decreases |p|
  {
    if HopCount(p) == 0 {
      NoHopsNoMeaning(p);
    } else {
      var rest := p[1..];
      assert forall i :: 0 <= i < |rest| ==> rest[i] == p[i + 1];
      AllTaken(rest);
      assert TakeHops(p, HopCount(p)) == [p[0]] + TakeHops(rest, HopCount(rest));
      assert ([p[0]] + TakeHops(rest, HopCount(rest)))[1..] == TakeHops(rest, HopCount(rest));
    }
  }

  /** An AS4_PATH with more hops than AS_PATH has at all is not ignored: the whole of
      AS_PATH is put in front of the whole of it. */
  lemma {:induction false} LongerAs4Appended(path: Path, as4: Path)
    requires ConfedFree(path) && HopCount(path) < HopCount(as4)
    ensures Meaning(Reconcile(path, as4)) == Meaning(path) + Meaning(as4)
  {
    NoConfeds(path);
    AllTaken(path);
    var taken := TakeHops(path, HopCount(path));
    if HopCount(path) == 0 {
      NoHopsNoMeaning(path);
    } else {
      NormaliseMeaning(taken + as4);
      MeaningJoined(taken, as4);
    }
  }
}
