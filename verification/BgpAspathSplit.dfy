/** Exactly which paths survive aspath_put's splitting of overlength segments. */
module BgpAspathSplit {
  import opened Wrappers
  import opened BgpAspath
  import opened BgpAspathWire
  import opened BgpAspathPut

  function Flat(p: Path): seq<nat> {
    if p == [] then [] else p[0].asns + Flat(p[1..])
  }

  /** What a receiver makes of one segment: the chunks of an AS_SEQUENCE run
      together again, those of another type stay apart. */
  function Received(s: Segment): Path {
    if s.kind == Sequence then [Segment(Sequence, Flat(Chunks(s)))] else Chunks(s)
  }

  function AllReceived(p: Path): Path {
    if p == [] then [] else Received(p[0]) + AllReceived(p[1..])
  }

  predicate AllOf(p: Path, k: Kind) {
    forall i :: 0 <= i < |p| ==> p[i].kind == k
  }

  lemma {:induction false} SequencesRejoin(p: Path, rest: Path)
    requires p != [] && AllOf(p, Sequence)
    ensures Normalise(p + rest) == Normalise([Segment(Sequence, Flat(p))] + rest)
    decreases |p|
  {
    if |p| == 1 {
      assert p[1..] == [] && p[0].asns + [] == p[0].asns;
      assert p == [Segment(Sequence, Flat(p))];
    } else {
      var tail := p[1..];
      assert AllOf(tail, Sequence);
      SequencesRejoin(tail, rest);
      NormaliseTail([p[0]], tail + rest, [Segment(Sequence, Flat(tail))] + rest);
      MergeFirst(p[0].asns, Flat(tail), rest);
      assert [p[0]] + (tail + rest) == p + rest;
      assert [p[0]] + ([Segment(Sequence, Flat(tail))] + rest)
             == [Segment(Sequence, p[0].asns), Segment(Sequence, Flat(tail))] + rest;
    }
  }

  predicate Sorted(p: Path) {
    forall i :: 0 <= i < |p| && IsSet(p[i].kind) ==> Increasing(p[i].asns)
  }

  lemma {:induction false} OthersStay(p: Path, k: Kind, rest: Path)
    requires AllOf(p, k) && k != Sequence && Sorted(p)
    ensures Normalise(p + rest) == p + Normalise(rest)
    decreases |p|
  {
    if p == [] {
      assert p + rest == rest;
    } else {
      var tail := p[1..];
      assert forall i :: 0 <= i < |tail| ==> tail[i] == p[i + 1];
      OthersStay(tail, k, rest);
      assert (p + rest)[1..] == tail + rest;
      if IsSet(k) {
        SortedIsFixed(p[0].asns);
      }
      assert NormalSegment(p[0]) == p[0];
      assert p + Normalise(rest) == [p[0]] + (tail + Normalise(rest));
    }
  }

  lemma {:induction false} ChunksAlike(s: Segment)
    ensures AllOf(Chunks(s), s.kind)
    ensures IsSet(s.kind) && Increasing(s.asns) ==> Sorted(Chunks(s))
  {
    SplitsAlike(s, |s.asns|);
  }

  lemma {:induction false} SplitsAlike(s: Segment, n: nat)
    requires n <= |s.asns|
    ensures AllOf(Splits(s, n), s.kind)
    ensures Increasing(s.asns) ==> Sorted(Splits(s, n))
    decreases n
  {
    if n > AS_SEGMENT_MAX {
      SplitsAlike(s, n - AS_SEGMENT_MAX);
    }
  }

  /** The normal form of the chunks of a normal path, segment by segment. */
  lemma {:induction false} ChunkedReceived(p: Path)
    requires Normal(p)
    ensures Normalise(Chunked(p)) == AllReceived(p)
    ensures p != [] ==> AllReceived(p) != [] && AllReceived(p)[0].kind == p[0].kind
    decreases |p|
  {
    if p != [] {
      var s, rest := p[0], p[1..];
      assert forall i :: 0 <= i < |rest| ==> rest[i] == p[i + 1];
      ChunkedReceived(rest);
      ChunksAlike(s);
      assert Received(s) != [] && Received(s)[0].kind == s.kind;
      if s.kind == Sequence {
        SequencesRejoin(Chunks(s), Chunked(rest));
        var one: Path := [Segment(Sequence, Flat(Chunks(s)))];
        assert (one + Chunked(rest))[1..] == Chunked(rest);
      } else {
        OthersStay(Chunks(s), s.kind, Chunked(rest));
      }
    }
  }

  lemma {:induction false} NotFewer(p: Path)
    ensures |AllReceived(p)| >= |p|
    decreases |p|
  {
    if p != [] {
      NotFewer(p[1..]);
    }
  }

  ghost predicate EachReceived(p: Path) {
    forall i :: 0 <= i < |p| ==> Received(p[i]) == [p[i]]
  }

  lemma {:induction false} ReceivedExactly(p: Path)
    ensures AllReceived(p) == p <==> EachReceived(p)
    decreases |p|
  {
    if p != [] {
      var s, rest := p[0], p[1..];
      assert forall i :: 0 <= i < |rest| ==> rest[i] == p[i + 1];
      assert p == [s] + rest;
      ReceivedExactly(rest);
      NotFewer(rest);
      assert EachReceived(p) <==> Received(s) == [s] && EachReceived(rest);
      if AllReceived(p) == p {
        assert |Received(s)| == 1;
        assert Received(s)[0] == AllReceived(p)[0];
        assert AllReceived(rest) == AllReceived(p)[1..];
      }
    }
  }

  // ----- One segment -----

  /** The AS numbers before the last chunk repeat the first 255. */
  predicate Repeats(asns: seq<nat>) {
    forall j :: 0 <= j < |asns| - Left(|asns|) ==> asns[j] == asns[j % AS_SEGMENT_MAX]
  }

  lemma {:induction false} FlatJoined(a: Path, b: Path)
    ensures Flat(a + b) == Flat(a) + Flat(b)
    decreases |a|
  {
    if a == [] {
      assert a + b == b;
    } else {
      FlatJoined(a[1..], b);
      assert (a + b)[1..] == a[1..] + b;
    }
  }

  lemma {:induction false} SplitsFlat(s: Segment, n: nat)
    requires n <= |s.asns|
    ensures |Flat(Splits(s, n))| == n - Left(n)
    ensures forall j :: 0 <= j < n - Left(n) ==> Flat(Splits(s, n))[j] == s.asns[j % AS_SEGMENT_MAX]
    decreases n
  {
    if n > AS_SEGMENT_MAX {
      var m := n - AS_SEGMENT_MAX;
      SplitsFlat(s, m);
      var head := Segment(s.kind, s.asns[..AS_SEGMENT_MAX]);
      assert Splits(s, n)[1..] == Splits(s, m);
      var all, later := Flat(Splits(s, n)), Flat(Splits(s, m));
      assert all == head.asns + later;
      forall j | 0 <= j < n - Left(n) ensures all[j] == s.asns[j % AS_SEGMENT_MAX] {
        if j >= AS_SEGMENT_MAX {
          assert all[j] == later[j - AS_SEGMENT_MAX];
          assert (j - AS_SEGMENT_MAX) % AS_SEGMENT_MAX == j % AS_SEGMENT_MAX;
        }
      }
    }
  }

  lemma {:induction false} SequenceExactly(s: Segment)
    requires s.kind == Sequence
    ensures Received(s) == [s] <==> Repeats(s.asns)
  {
    var n := |s.asns|;
    var k := n - Left(n);
    SplitsFlat(s, n);
    FlatJoined(Splits(s, n), [LastChunk(s)]);
    var front, flat := Flat(Splits(s, n)), Flat(Chunks(s));
    assert [LastChunk(s)][1..] == [];
    assert flat == front + s.asns[k..];
    assert s.asns == s.asns[..k] + s.asns[k..];
    if Repeats(s.asns) {
      assert front == s.asns[..k];
    }
    if Received(s) == [s] {
      forall j | 0 <= j < k ensures s.asns[j] == s.asns[j % AS_SEGMENT_MAX] {
        assert s.asns[j] == flat[j] == front[j];
      }
    }
  }

  lemma {:induction false} OtherExactly(s: Segment)
    requires s.kind != Sequence
    ensures Received(s) == [s] <==> |s.asns| <= AS_SEGMENT_MAX
  {
    if |s.asns| <= AS_SEGMENT_MAX {
      assert LastChunk(s) == s;
    } else {
      assert |Splits(s, |s.asns|)| >= 1;
    }
  }

  /** The lengths and contents that splitting gets right. */
  predicate SplitsWell(s: Segment) {
    if s.kind == Sequence then Repeats(s.asns) else |s.asns| <= AS_SEGMENT_MAX
  }

  /** A normal path of any lengths comes back from its 4-octet form as itself if and
      only if every other segment has at most 255 AS numbers and every AS_SEQUENCE
      repeats its first 255 up to its last chunk, as all up to 510 long do. */
  lemma {:induction false} RestoredExactly(p: Path)
    requires Normal(p) && Sendable(p)
    ensures Parse(WireForm(p, true), |WireForm(p, true)|, true) == Some(p) <==>
              forall i :: 0 <= i < |p| ==> SplitsWell(p[i])
  {
    WrittenIsParsed(p, true);
    assert Image(p, true) == p;
    ChunkedReceived(p);
    ReceivedExactly(p);
    forall i | 0 <= i < |p| ensures Received(p[i]) == [p[i]] <==> SplitsWell(p[i]) {
      if p[i].kind == Sequence {
        SequenceExactly(p[i]);
      } else {
        OtherExactly(p[i]);
      }
    }
  }

  lemma {:induction false} ShortRepeats(asns: seq<nat>)
    requires |asns| <= 2 * AS_SEGMENT_MAX
    ensures Repeats(asns)
  {
    assert |asns| > AS_SEGMENT_MAX ==> Left(|asns| - AS_SEGMENT_MAX) == |asns| - AS_SEGMENT_MAX;
  }

  /** An AS_SEQUENCE of 511 different AS numbers is not restored. */
  lemma {:induction false} LongSequenceMangled()
    ensures var p: Path := [Segment(Sequence, seq(511, i requires 0 <= i < 511 => i + 1))];
            Parse(WireForm(p, true), |WireForm(p, true)|, true) != Some(p)
  {
    var asns := seq(511, i requires 0 <= i < 511 => i + 1);
    var p: Path := [Segment(Sequence, asns)];
    RestoredExactly(p);
    assert Left(511) == Left(256) == Left(1) == 1;
    assert asns[255] != asns[255 % AS_SEGMENT_MAX];
    assert !SplitsWell(p[0]);
  }
}
