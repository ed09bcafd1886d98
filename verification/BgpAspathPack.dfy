/** Exactly which paths survive aspath_put's packing of AS_SEQUENCEs that follow one
    another. */
module BgpAspathPack {
  import opened Wrappers
  import opened Bytes
  import opened BgpAspath
  import opened BgpAspathWire
  import opened BgpAspathPut

  /** No segment takes in more than one of those behind it. */
  predicate Paired(p: Path)
    decreases |p|
  {
    p == [] || (Run(p[0], p[1..]) <= 1 && Paired(p[1..][Run(p[0], p[1..])..]))
  }

  // ----- Pairs are written right -----

  /** The path with each packed segment joined to the one before it. */
  function Merged(p: Path): Path
    decreases |p|
  {
    if p == [] then []
    else if Run(p[0], p[1..]) == 0 then [p[0]] + Merged(p[1..])
    else [Segment(Sequence, p[0].asns + p[1].asns)] + Merged(p[2..])
  }

  lemma {:induction false} PairWritten(s: Segment, t: Segment, wide: bool)
    requires Packable(s, t)
    ensures Tail(s, [t], wide) == SegmentBytes(Segment(Sequence, s.asns + t.asns), wide)
  {
    assert LastChunk(s) == s;
    DataJoined(s.asns, t.asns, wide);
    OneData(t, wide);
    Regroup([Code(s.kind), (|s.asns| + |t.asns|) % 256], Data(s.asns, wide), Data(t.asns, wide));
  }

  lemma {:induction false} OneData(t: Segment, wide: bool)
    ensures AllData([t], wide) == Data(t.asns, wide)
  {
    assert [t][1..] == [] && Data(t.asns, wide) + [] == Data(t.asns, wide);
  }

  lemma {:induction false} DataJoined(a: seq<nat>, b: seq<nat>, wide: bool)
    ensures Data(a + b, wide) == Data(a, wide) + Data(b, wide)
    decreases |a|
  {
    if a == [] {
      assert a + b == b;
    } else {
      DataJoined(a[1..], b, wide);
      assert (a + b)[1..] == a[1..] + b;
      Regroup(PutAsn(a[0], wide), Data(a[1..], wide), Data(b, wide));
    }
  }

  lemma {:induction false} FirstWritten(p: Path, wide: bool)
    requires p != [] && Run(p[0], p[1..]) <= 1
    ensures WrittenFirst(p, wide) == Raw(Chunks(Merged(p)[0]), wide)
  {
    var n := Run(p[0], p[1..]);
    var s := Merged(p)[0];
    RawJoined(Splits(s, |s.asns|), [LastChunk(s)], wide);
    RawCons(LastChunk(s), [], wide);
    assert [LastChunk(s)] + [] == [LastChunk(s)];
    if n == 0 {
      assert p[1..][..0] == [];
      assert Tail(p[0], [], wide) == SegmentBytes(LastChunk(p[0]), wide);
    } else {
      assert p[1..][..1] == [p[1]];
      PairWritten(p[0], p[1], wide);
      assert LastChunk(s) == s;
    }
  }

  lemma {:induction false} PairsWritten(p: Path, wide: bool)
    requires Paired(p)
    ensures Written(p, wide) == Raw(Chunked(Merged(p)), wide)
    decreases |p|
  {
    if p != [] {
      var n := Run(p[0], p[1..]);
      var later, m := p[1..][n..], Merged(p);
      PairsWritten(later, wide);
      assert later == if n == 0 then p[1..] else p[2..];
      assert m[1..] == Merged(later);
      FirstWritten(p, wide);
      RawJoined(Chunks(m[0]), Chunked(m[1..]), wide);
    }
  }

  lemma {:induction false} MergedSendable(p: Path)
    requires Sendable(p) && Moderate(p)
    ensures Sendable(Merged(p)) && Moderate(Merged(p))
    decreases |p|
  {
    if p != [] {
      var n := if Run(p[0], p[1..]) == 0 then 1 else 2;
      var later, m := p[n..], Merged(p);
      assert forall i :: 0 <= i < |later| ==> later[i] == p[i + n];
      MergedSendable(later);
      assert m[1..] == Merged(later);
      assert forall i :: 1 <= i < |m| ==> m[i] == Merged(later)[i - 1];
    }
  }

  /** Two AS_SEQUENCEs in front of a path, and their join in front of one that
      normalises alike. */
  lemma {:induction false} PairNormalises(s: Segment, t: Segment, a: Path, b: Path, wide: bool)
    requires s.kind == t.kind == Sequence && Normalise(Image(a, wide)) == Normalise(Image(b, wide))
    ensures Normalise(Image([Segment(Sequence, s.asns + t.asns)] + a, wide)) == Normalise(Image([s, t] + b, wide))
  {
    var one := Segment(Sequence, s.asns + t.asns);
    var s', t' := SegmentImage(s, wide), SegmentImage(t, wide);
    ImageJoined([one], a, wide);
    ImageJoined([s, t], b, wide);
    assert Image([s, t], wide) == [s', t'];
    assert SegmentImage(one, wide).asns == s'.asns + t'.asns;
    var one': Path := [Segment(Sequence, s'.asns + t'.asns)];
    assert Image([one], wide) == one';
    NormaliseTail(one', Image(a, wide), Image(b, wide));
    MergeFirst(s'.asns, t'.asns, Image(b, wide));
  }

  lemma {:induction false} MergedNormalises(p: Path, wide: bool)
    ensures Normalise(Image(Merged(p), wide)) == Normalise(Image(p, wide))
    decreases |p|
  {
    if p != [] && Run(p[0], p[1..]) == 0 {
      MergedNormalises(p[1..], wide);
      ImageTail(p, wide);
      ImageTail(Merged(p), wide);
      assert Merged(p)[1..] == Merged(p[1..]);
    } else if p != [] {
      MergedNormalises(p[2..], wide);
      PairNormalises(p[0], p[1], Merged(p[2..]), p[2..], wide);
      assert p == [p[0], p[1]] + p[2..];
    }
  }

  lemma {:induction false} PairedSurvives(p: Path, wide: bool)
    requires Sendable(p) && Moderate(p) && Paired(p)
    ensures Parse(WireForm(p, wide), |WireForm(p, wide)|, wide) == Some(Normalise(Image(p, wide)))
  {
    var m := Merged(p);
    PairsWritten(p, wide);
    MergedSendable(p);
    ChunksAreParsed(m, wide);
    ChunkedNormalises(Image(m, wide));
    MergedNormalises(p, wide);
  }

  // ----- Longer runs are not -----

  /** The octets in the second place of each pair, added up.  A header contributes
      its length and an AS number what does not depend on where it stands. */
  function Odd(d: seq<byte>): nat {
    if |d| < 2 then 0 else d[1] + Odd(d[2..])
  }

  lemma {:induction false} OddJoined(a: seq<byte>, b: seq<byte>, pairs: nat)
    requires |a| == 2 * pairs
    ensures Odd(a + b) == Odd(a) + Odd(b)
    decreases pairs
  {
    if pairs == 0 {
      assert a + b == b;
    } else {
      OddJoined(a[2..], b, pairs - 1);
      assert (a + b)[2..] == a[2..] + b;
    }
  }

  /** A header, the octets it heads and those that follow. */
  lemma {:induction false} OddHeaded(code: byte, length: byte, a: seq<byte>, b: seq<byte>, pairs: nat)
    requires |a| == 2 * pairs
    ensures Odd([code, length] + a + b) == length + Odd(a) + Odd(b)
  {
    OddJoined([code, length] + a, b, pairs + 1);
    assert ([code, length] + a)[2..] == a;
  }

  function Pairs(n: nat, wide: bool): nat {
    if wide then 2 * n else n
  }

  function Weight(asns: seq<nat>, wide: bool): nat {
    if asns == [] then 0 else 1 + Odd(PutAsn(asns[0], wide)) + Weight(asns[1..], wide)
  }

  function PathWeight(p: Path, wide: bool): nat {
    if p == [] then 0 else Weight(p[0].asns, wide) + PathWeight(p[1..], wide)
  }

  lemma {:induction false} OddData(asns: seq<nat>, wide: bool)
    ensures Odd(Data(asns, wide)) + |asns| == Weight(asns, wide)
    decreases |asns|
  {
    if asns != [] {
      OddData(asns[1..], wide);
      OddJoined(PutAsn(asns[0], wide), Data(asns[1..], wide), Pairs(1, wide));
    }
  }

  /** A list of segments written as it stands shows its AS numbers. */
  lemma {:induction false} OddRaw(p: Path, wide: bool)
    requires Within(p, AS_SEGMENT_MAX)
    ensures Odd(Raw(p, wide)) == PathWeight(p, wide)
    decreases |p|
  {
    if p != [] {
      var s, rest := p[0], p[1..];
      assert forall i :: 0 <= i < |rest| ==> rest[i] == p[i + 1];
      OddRaw(rest, wide);
      OddData(s.asns, wide);
      OddHeaded(Code(s.kind), |s.asns|, Data(s.asns, wide), Raw(rest, wide), Pairs(|s.asns|, wide));
    }
  }

  lemma {:induction false} OddAllData(p: Path, wide: bool)
    ensures Odd(AllData(p, wide)) + Total(p) == PathWeight(p, wide)
    decreases |p|
  {
    if p != [] {
      OddAllData(p[1..], wide);
      OddData(p[0].asns, wide);
      OddJoined(Data(p[0].asns, wide), AllData(p[1..], wide), Pairs(|p[0].asns|, wide));
    }
  }

  /** The AS numbers a length octet leaves out: it counts the last segment packed
      and no other. */
  function LeftOut(packed: Path): nat {
    if packed == [] then 0 else Total(packed[..|packed| - 1])
  }

  function Deficit(p: Path): nat
    decreases |p|
  {
    if p == [] then 0
    else LeftOut(p[1..][..Run(p[0], p[1..])]) + Deficit(p[1..][Run(p[0], p[1..])..])
  }

  lemma {:induction false} WeightJoined(a: seq<nat>, b: seq<nat>, wide: bool)
    ensures Weight(a + b, wide) == Weight(a, wide) + Weight(b, wide)
    decreases |a|
  {
    if a == [] {
      assert a + b == b;
    } else {
      WeightJoined(a[1..], b, wide);
      assert (a + b)[1..] == a[1..] + b;
    }
  }

  lemma {:induction false} PathWeightJoined(a: Path, b: Path, wide: bool)
    ensures PathWeight(a + b, wide) == PathWeight(a, wide) + PathWeight(b, wide)
    decreases |a|
  {
    if a == [] {
      assert a + b == b;
    } else {
      PathWeightJoined(a[1..], b, wide);
      assert (a + b)[1..] == a[1..] + b;
    }
  }

  lemma {:induction false} LeftOutLast(packed: Path)
    requires packed != []
    ensures LeftOut(packed) + |packed[|packed| - 1].asns| == Total(packed)
  {
    TotalStep(packed, |packed| - 1);
    assert packed[..|packed|] == packed;
  }

  lemma {:induction false} TailWeight(s: Segment, packed: Path, wide: bool)
    requires packed != [] ==> Packable(s, packed[|packed| - 1])
    ensures Odd(Tail(s, packed, wide)) + LeftOut(packed) == Weight(LastChunk(s).asns, wide) + PathWeight(packed, wide)
  {
    var last := LastChunk(s).asns;
    var length := |last| + if packed == [] then 0 else |packed[|packed| - 1].asns|;
    if packed != [] {
      LeftOutLast(packed);
      assert last == s.asns;
    }
    assert length == length % 256 == |last| + Total(packed) - LeftOut(packed);
    OddData(last, wide);
    OddAllData(packed, wide);
    OddHeaded(Code(s.kind), length, Data(last, wide), AllData(packed, wide), Pairs(|last|, wide));
  }

  lemma {:induction false} SplitsWeight(s: Segment, wide: bool)
    requires |s.asns| <= 2 * AS_SEGMENT_MAX
    ensures Odd(Raw(Splits(s, |s.asns|), wide)) + Weight(LastChunk(s).asns, wide) == Weight(s.asns, wide)
  {
    var n := |s.asns|;
    if n <= AS_SEGMENT_MAX {
      assert LastChunk(s) == s && Splits(s, n) == [];
    } else {
      var a, b := s.asns[..AS_SEGMENT_MAX], s.asns[AS_SEGMENT_MAX..];
      assert Left(n - AS_SEGMENT_MAX) == n - AS_SEGMENT_MAX;
      assert LastChunk(s).asns == b && s.asns == a + b;
      assert Splits(s, n - AS_SEGMENT_MAX) == [] && Splits(s, n) == [Segment(s.kind, a)];
      OddRaw(Splits(s, n), wide);
      WeightJoined(a, b, wide);
      assert [Segment(s.kind, a)][1..] == [];
    }
  }

  lemma {:induction false} LastPacked(s: Segment, rest: Path)
    ensures Run(s, rest) > 0 ==> Packable(s, rest[Run(s, rest) - 1])
    decreases |rest|
  {
    if rest != [] && Packable(s, rest[0]) {
      LastPacked(s, rest[1..]);
    }
  }

  /** What is written of the first segment and of those packed into it, before
      anything else. */
  lemma {:induction false} FirstWeight(p: Path, more: seq<byte>, wide: bool)
    requires p != [] && |p[0].asns| <= 2 * AS_SEGMENT_MAX
    ensures var packed := p[1..][..Run(p[0], p[1..])];
            Odd(WrittenFirst(p, wide) + more) + LeftOut(packed)
            == Weight(p[0].asns, wide) + PathWeight(packed, wide) + Odd(more)
  {
    var packed, splits := p[1..][..Run(p[0], p[1..])], Raw(Splits(p[0], |p[0].asns|), wide);
    var tail := Tail(p[0], packed, wide);
    LastPacked(p[0], p[1..]);
    TailWeight(p[0], packed, wide);
    SplitsWeight(p[0], wide);
    TailPairs(p[0], packed, wide);
    RawEven(Splits(p[0], |p[0].asns|), wide);
    OddTriple(splits, tail, more);
  }

  lemma {:induction false} OddTriple(a: seq<byte>, b: seq<byte>, c: seq<byte>)
    requires |a| % 2 == |b| % 2 == 0
    ensures Odd(a + b + c) == Odd(a) + Odd(b) + Odd(c)
  {
    OddJoined(a, b, |a| / 2);
    OddJoined(a + b, c, |a| / 2 + |b| / 2);
  }

  lemma {:induction false} TailPairs(s: Segment, packed: Path, wide: bool)
    ensures |Tail(s, packed, wide)| % 2 == 0
  {
    TailSize(s, packed, wide);
    AllDataSize(packed, wide);
    var pairs := 1 + Pairs(|LastChunk(s).asns|, wide) + Pairs(Total(packed), wide);
    assert |Tail(s, packed, wide)| == pairs + pairs;
  }

  /** What is written shows all AS numbers but for the lengths left out. */
  lemma {:induction false} WrittenWeight(p: Path, wide: bool)
    requires Within(p, 2 * AS_SEGMENT_MAX)
    ensures Odd(Written(p, wide)) + Deficit(p) == PathWeight(p, wide)
    decreases |p|
  {
    if p != [] {
      var n := Run(p[0], p[1..]);
      var packed, later := p[1..][..n], p[1..][n..];
      assert p[1..] == packed + later;
      assert forall i :: 0 <= i < |later| ==> later[i] == p[i + 1 + n];
      WrittenWeight(later, wide);
      FirstWeight(p, Written(later, wide), wide);
      PathWeightJoined(packed, later, wide);
    }
  }

  lemma {:induction false} DeficitPaired(p: Path)
    requires Sendable(p)
    ensures Deficit(p) == 0 <==> Paired(p)
    decreases |p|
  {
    if p != [] {
      var n := Run(p[0], p[1..]);
      var packed, later := p[1..][..n], p[1..][n..];
      assert forall i :: 0 <= i < |later| ==> later[i] == p[i + 1 + n];
      DeficitPaired(later);
      if n >= 2 {
        assert packed[..n - 1][0] == p[1];
      } else if n == 1 {
        assert packed[..0] == [];
      }
    }
  }

  // ----- What normalising does to the AS numbers -----

  predicate Distinct(s: seq<nat>) {
    forall i, j :: 0 <= i < j < |s| ==> s[i] != s[j]
  }

  predicate SetsDistinct(p: Path) {
    forall i :: 0 <= i < |p| && IsSet(p[i].kind) ==> Distinct(p[i].asns)
  }

  lemma {:induction false} InsertWeight(x: nat, s: seq<nat>, wide: bool)
    ensures Weight(Insert(x, s), wide) <= Weight([x] + s, wide)
    ensures x !in s ==> Weight(Insert(x, s), wide) == Weight([x] + s, wide)
    decreases |s|
  {
    assert ([x] + s)[1..] == s;
    if s != [] && x > s[0] {
      InsertWeight(x, s[1..], wide);
      assert ([x] + s[1..])[1..] == s[1..];
      assert ([s[0]] + Insert(x, s[1..]))[1..] == Insert(x, s[1..]);
    }
  }

  lemma {:induction false} SortWeight(s: seq<nat>, wide: bool)
    ensures Weight(SortUnique(s), wide) <= Weight(s, wide)
    ensures Distinct(s) ==> Weight(SortUnique(s), wide) == Weight(s, wide)
    decreases |s|
  {
    if s != [] {
      var rest := s[1..];
      SortWeight(rest, wide);
      SortUniqueIncreasing(rest);
      InsertWeight(s[0], SortUnique(rest), wide);
      assert ([s[0]] + SortUnique(rest))[1..] == SortUnique(rest);
      assert forall i :: 0 <= i < |rest| ==> rest[i] == s[i + 1];
    }
  }

  lemma {:induction false} AttachWeight(s: Segment, p: Path, wide: bool)
    ensures PathWeight(Attach(s, p), wide) == Weight(s.asns, wide) + PathWeight(p, wide)
  {
    if s.kind == Sequence && p != [] && p[0].kind == Sequence {
      WeightJoined(s.asns, p[0].asns, wide);
      assert Attach(s, p)[1..] == p[1..];
    } else {
      assert Attach(s, p)[1..] == p;
    }
  }

  lemma {:induction false} NormaliseWeight(p: Path, wide: bool)
    ensures PathWeight(Normalise(p), wide) <= PathWeight(p, wide)
    ensures SetsDistinct(p) ==> PathWeight(Normalise(p), wide) == PathWeight(p, wide)
    decreases |p|
  {
    if p != [] {
      assert forall i :: 0 <= i < |p[1..]| ==> p[1..][i] == p[i + 1];
      NormaliseWeight(p[1..], wide);
      SortWeight(p[0].asns, wide);
      AttachWeight(NormalSegment(p[0]), Normalise(p[1..]), wide);
    }
  }

  lemma {:induction false} ImageWeight(p: Path, wide: bool)
    ensures PathWeight(Image(p, wide), wide) == PathWeight(p, wide)
    decreases |p|
  {
    if p != [] {
      ImageTail(p, wide);
      ImageWeight(p[1..], wide);
      if !wide {
        TransWeight(p[0].asns, SegmentImage(p[0], wide).asns);
      }
    }
  }

  lemma {:induction false} TransWeight(asns: seq<nat>, image: seq<nat>)
    requires |image| == |asns| && forall i :: 0 <= i < |asns| ==> image[i] == Trans(asns[i])
    ensures Weight(image, false) == Weight(asns, false)
    decreases |asns|
  {
    if asns != [] {
      TransWeight(asns[1..], image[1..]);
    }
  }

  /** Segments that normalise like the path show as many AS numbers or more. */
  lemma {:induction false} SurvivorsWeight(r: Path, p: Path, wide: bool)
    requires SetsDistinct(Image(p, wide)) && Normalise(r) == Normalise(Image(p, wide))
    ensures PathWeight(r, wide) >= PathWeight(p, wide)
  {
    NormaliseWeight(r, wide);
    NormaliseWeight(Image(p, wide), wide);
    ImageWeight(p, wide);
  }

  lemma {:induction false} SurvivorsPaired(p: Path, wide: bool)
    requires Sendable(p) && Moderate(p) && SetsDistinct(Image(p, wide))
    requires Parse(WireForm(p, wide), |WireForm(p, wide)|, wide) == Some(Normalise(Image(p, wide)))
    ensures Paired(p)
  {
    if p != [] {
      var d := WireForm(p, wide);
      FirstLongEnough(p, wide);
      assert d[..|d|] == d && |d| > 0;
      var r := ParseSegments(d, wide).value;
      RawParse(d, wide);
      OddRaw(r, wide);
      WrittenWeight(p, wide);
      SurvivorsWeight(r, p, wide);
      DeficitPaired(p);
    }
  }

  /** A path, normal or not, comes back from the octets aspath_put wrote if and only
      if no AS_SEQUENCE takes in more than one of those behind it. */
  lemma {:induction false} PackedExactly(p: Path, wide: bool)
    requires Sendable(p) && Moderate(p) && SetsDistinct(Image(p, wide))
    ensures Parse(WireForm(p, wide), |WireForm(p, wide)|, wide) == Some(Normalise(Image(p, wide))) <==> Paired(p)
  {
    if Paired(p) {
      PairedSurvives(p, wide);
    } else if Parse(WireForm(p, wide), |WireForm(p, wide)|, wide) == Some(Normalise(Image(p, wide))) {
      SurvivorsPaired(p, wide);
    }
  }

  /** Three AS_SEQUENCEs of one AS number each do not. */
  lemma {:induction false} ThreeMangled()
    ensures var p: Path := [Segment(Sequence, [1]), Segment(Sequence, [2]), Segment(Sequence, [3])];
            Parse(WireForm(p, true), |WireForm(p, true)|, true) != Some(Normalise(p))
  {
    var p: Path := [Segment(Sequence, [1]), Segment(Sequence, [2]), Segment(Sequence, [3])];
    assert Image(p, true) == p;
    assert p[1..][1..] == [p[2]] && Run(p[0], [p[2]]) == 1;
    assert !Paired(p);
    PackedExactly(p, true);
  }
}
