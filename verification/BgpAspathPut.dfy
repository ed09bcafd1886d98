/** aspath_put: AS paths written to a stream, overlength segments split and
    packable ones packed, and what a parser makes of the octets. */
module BgpAspathPut {
  import opened Wrappers
  import opened Bytes
  import opened BgpAspath
  import opened BgpAspathWire

  /** The chunks an overlength segment is split into, all but the last: each
      carries the first 255 AS numbers again. */
  function Splits(s: Segment, n: nat): Path
    requires n <= |s.asns|
  {
    if n <= AS_SEGMENT_MAX then []
    else [Segment(s.kind, s.asns[..AS_SEGMENT_MAX])] + Splits(s, n - AS_SEGMENT_MAX)
  }

  /** How many AS numbers the last chunk carries. */
  function Left(n: nat): (r: nat)
    ensures r <= n && r <= AS_SEGMENT_MAX
  {
    if n <= AS_SEGMENT_MAX then n else Left(n - AS_SEGMENT_MAX)
  }

  function LastChunk(s: Segment): Segment {
    Segment(s.kind, s.asns[|s.asns| - Left(|s.asns|)..])
  }

  function Chunks(s: Segment): Path {
    Splits(s, |s.asns|) + [LastChunk(s)]
  }

  /** The segment list on the wire when nothing is packed. */
  function Chunked(p: Path): Path {
    if p == [] then [] else Chunks(p[0]) + Chunked(p[1..])
  }

  predicate Packable(s: Segment, t: Segment) {
    s.kind == t.kind == Sequence && |s.asns| + |t.asns| <= AS_SEGMENT_MAX
  }

  /** How many of the segments after `s` are packed into it. */
  function Run(s: Segment, rest: Path): (n: nat)
    ensures n <= |rest|
  {
    if rest == [] || !Packable(s, rest[0]) then 0 else 1 + Run(s, rest[1..])
  }

  function AllData(p: Path, wide: bool): seq<byte> {
    if p == [] then [] else Data(p[0].asns, wide) + AllData(p[1..], wide)
  }

  function Total(p: Path): nat {
    if p == [] then 0 else |p[0].asns| + Total(p[1..])
  }

  /** The last chunk with the segments packed behind it; its length octet is
      written again for each, with that segment's length alone added. */
  function Tail(s: Segment, packed: Path, wide: bool): seq<byte> {
    var last := LastChunk(s);
    [Code(s.kind), (|last.asns| + if packed == [] then 0 else |packed[|packed| - 1].asns|) % 256]
    + Data(last.asns, wide) + AllData(packed, wide)
  }

  /** The octets of the first segment and of those packed into it. */
  function WrittenFirst(p: Path, wide: bool): seq<byte>
    requires p != []
  {
    Raw(Splits(p[0], |p[0].asns|), wide) + Tail(p[0], p[1..][..Run(p[0], p[1..])], wide)
  }

  function Written(p: Path, wide: bool): seq<byte>
    decreases |p|
  {
    if p == [] then []
    else WrittenFirst(p, wide) + Written(p[1..][Run(p[0], p[1..])..], wide)
  }

  /** The octets aspath_put leaves on the stream. */
  function WireForm(p: Path, wide: bool): seq<byte> {
    if p == [] || p[0].asns == [] then [] else Written(p, wide)
  }

  /** What the splitting loop adds to the size, having written `done` already. */
  function SplitCount(n: nat, done: nat, wide: bool): nat {
    if n <= AS_SEGMENT_MAX then 0
    else SegmentSize(done + AS_SEGMENT_MAX, wide) + SplitCount(n - AS_SEGMENT_MAX, done + AS_SEGMENT_MAX, wide)
  }

  function CountedFirst(p: Path, wide: bool): nat
    requires p != []
  {
    SplitCount(|p[0].asns|, 0, wide) + SegmentSize(Left(|p[0].asns|) + Total(p[1..][..Run(p[0], p[1..])]), wide)
  }

  function Counted(p: Path, wide: bool): nat
    decreases |p|
  {
    if p == [] then 0
    else CountedFirst(p, wide) + Counted(p[1..][Run(p[0], p[1..])..], wide)
  }

  /** The size aspath_put returns. */
  function CountedSize(p: Path, wide: bool): nat {
    if p == [] || p[0].asns == [] then 0 else Counted(p, wide)
  }

  /** lib/stream.c, as far as aspath_put writes to it. A write past the end is
      not made. */
  class Stream {
    const size: nat
    var data: seq<byte>

    constructor (size: nat)
      ensures this.size == size && data == []
    {
      this.size := size;
      data := [];
    }

    ghost predicate Holds(extra: seq<byte>)
      reads this
    {
      |data| + |extra| <= size
    }

    method Put(d: seq<byte>)
      modifies this
      ensures data == if old(Holds(d)) then old(data) + d else old(data)
    {
      if |data| + |d| <= size {
        data := data + d;
      }
    }

    method PutAt(at: nat, b: byte)
      modifies this
      ensures data == if at < |old(data)| then old(data)[at := b] else old(data)
    {
      if at < |data| {
        data := data[at := b];
      }
    }
  }

  // ----- The code -----

  lemma {:induction false} Regroup(a: seq<byte>, b: seq<byte>, c: seq<byte>)
    ensures a + (b + c) == a + b + c && |a + (b + c)| == |a| + |b| + |c|
  {}

  /** The next piece of what is still to be written fits when the whole does. */
  lemma {:induction false} NextFits(now: seq<byte>, piece: seq<byte>, later: seq<byte>, was: seq<byte>, all: seq<byte>)
    requires now + (piece + later) == was + all
    ensures |now| + |piece| <= |was| + |all| && (now + piece) + later == was + all
  {
    Regroup(now, piece, later);
    assert |was + all| == |was| + |all|;
  }

  lemma {:induction false} DataStep(asns: seq<nat>, i: nat, wide: bool)
    requires i < |asns|
    ensures Data(asns[i..], wide) == PutAsn(asns[i], wide) + Data(asns[i + 1..], wide)
  {
    assert asns[i..][1..] == asns[i + 1..];
  }

  /** assegment_data_put. */
  method PutData(s: Stream, asns: seq<nat>, wide: bool)
    requires |asns| <= AS_SEGMENT_MAX
    modifies s
    ensures old(s.Holds(Data(asns, wide))) ==> s.data == old(s.data) + Data(asns, wide)
  {
    var i := 0;
    ghost var was, all, left := s.data, Data(asns, wide), Data(asns, wide);
    ghost var fits := |was| + |all| <= s.size;
    assert asns[0..] == asns;
    while i < |asns|
      invariant 0 <= i <= |asns| && left == Data(asns[i..], wide)
      invariant fits ==> s.data + left == was + all
    {
      DataStep(asns, i, wide);
      left := Data(asns[i + 1..], wide);
      if fits {
        NextFits(s.data, PutAsn(asns[i], wide), left, was, all);
      }
      s.Put(PutAsn(asns[i], wide));
      i := i + 1;
    }
    assert left == [] && s.data + left == s.data;
  }

  /** assegment_header_put: where the length octet went is returned. */
  method PutHeader(s: Stream, kind: Kind, length: nat) returns (lenp: nat)
    requires length <= AS_SEGMENT_MAX
    modifies s
    ensures |old(s.data)| + 2 <= s.size ==> s.data == old(s.data) + [Code(kind), length] && lenp == |old(s.data)| + 1
  {
    s.Put([Code(kind)]);
    lenp := |s.data|;
    s.Put([length]);
  }

  /** One whole segment of at most 255 AS numbers. */
  method PutSegment(s: Stream, seg: Segment, wide: bool) returns (lenp: nat)
    requires |seg.asns| <= AS_SEGMENT_MAX
    modifies s
    ensures old(s.Holds(SegmentBytes(seg, wide))) ==>
              s.data == old(s.data) + SegmentBytes(seg, wide) && lenp == |old(s.data)| + 1
  {
    ghost var was := s.data;
    lenp := PutHeader(s, seg.kind, |seg.asns|);
    ghost var head: seq<byte> := [Code(seg.kind), |seg.asns|];
    PutData(s, seg.asns, wide);
    assert was + (head + Data(seg.asns, wide)) == was + head + Data(seg.asns, wide);
  }

  /** The loop that splits an overlength segment. */
  method PutSplits(s: Stream, seg: Segment, wide: bool) returns (written: nat, bytes: nat)
    modifies s
    ensures old(s.Holds(Raw(Splits(seg, |seg.asns|), wide))) ==>
            s.data == old(s.data) + Raw(Splits(seg, |seg.asns|), wide)
    ensures written == |seg.asns| - Left(|seg.asns|) && bytes == SplitCount(|seg.asns|, 0, wide)
  {
    var n := |seg.asns|;
    written, bytes := 0, 0;
    ghost var was, all := s.data, Raw(Splits(seg, n), wide);
    while n - written > AS_SEGMENT_MAX
      invariant 0 <= written <= n && Left(n) == Left(n - written)
      invariant bytes + SplitCount(n - written, written, wide) == SplitCount(n, 0, wide)
      invariant |was| + |all| <= s.size ==> s.data + Raw(Splits(seg, n - written), wide) == was + all
    {
      var chunk := Segment(seg.kind, seg.asns[..AS_SEGMENT_MAX]);
      ghost var rest := Splits(seg, n - written - AS_SEGMENT_MAX);
      RawCons(chunk, rest, wide);
      if |was| + |all| <= s.size {
        NextFits(s.data, SegmentBytes(chunk, wide), Raw(rest, wide), was, all);
      }
      var lenp := PutSegment(s, chunk, wide);
      written := written + AS_SEGMENT_MAX;
      bytes := bytes + SegmentSize(written, wide);
    }
  }

  lemma {:induction false} AllDataSnoc(p: Path, k: nat, wide: bool)
    requires k < |p|
    ensures AllData(p[..k + 1], wide) == AllData(p[..k], wide) + Data(p[k].asns, wide)
    ensures Total(p[..k + 1]) == Total(p[..k]) + |p[k].asns|
    decreases k
  {
    if k > 0 {
      AllDataSnoc(p[1..], k - 1, wide);
      assert p[..k + 1][1..] == p[1..][..k] && p[..k][1..] == p[1..][..k - 1];
      Regroup(Data(p[0].asns, wide), AllData(p[1..][..k - 1], wide), Data(p[k].asns, wide));
    } else {
      assert p[..1][1..] == [] && p[..0] == [];
    }
  }

  lemma {:induction false} AllDataSize(p: Path, wide: bool)
    ensures |AllData(p, wide)| == DataSize(Total(p), wide)
    decreases |p|
  {
    if p != [] {
      AllDataSize(p[1..], wide);
    }
  }

  lemma {:induction false} TotalGrows(p: Path, i: nat, j: nat)
    requires i <= j <= |p|
    ensures Total(p[..i]) <= Total(p[..j])
    decreases j - i
  {
    if i < j {
      TotalGrows(p, i, j - 1);
      AllDataSnoc(p, j - 1, true);
    }
  }

  /** What the packing loop leaves: the length octet of the segment it packs into
      is overwritten, the data of the packed segments follows. */
  function AfterPacking(was: seq<byte>, lenp: nat, length: nat, packed: Path, wide: bool): seq<byte>
    requires lenp < |was|
  {
    Labelled(was, lenp, length, packed) + AllData(packed, wide)
  }

  function Labelled(was: seq<byte>, lenp: nat, length: nat, packed: Path): seq<byte>
    requires lenp < |was|
  {
    if packed == [] then was else was[lenp := (length + |packed[|packed| - 1].asns|) % 256]
  }

  lemma {:induction false} LabelledLast(was: seq<byte>, lenp: nat, length: nat, packed: Path, t: Segment)
    requires lenp < |was| && length + |t.asns| < 256
    ensures Labelled(was, lenp, length, packed + [t]) == was[lenp := length + |t.asns|]
  {
    assert (packed + [t])[|packed|] == t;
  }

  lemma {:induction false} PackingFits(was: seq<byte>, lenp: nat, length: nat, rest: Path, n: nat, run: nat, wide: bool)
    requires lenp < |was| && n < run <= |rest|
    ensures |AfterPacking(was, lenp, length, rest[..n], wide)| >= |was|
    ensures |AfterPacking(was, lenp, length, rest[..n], wide)| + |Data(rest[n].asns, wide)|
            <= |was| + |AllData(rest[..run], wide)|
  {
    AllDataSnoc(rest, n, wide);
    TotalGrows(rest, n + 1, run);
    AllDataSize(rest[..n + 1], wide);
    AllDataSize(rest[..run], wide);
  }

  lemma {:induction false} PackingStep(was: seq<byte>, lenp: nat, length: nat, packed: Path, t: Segment, wide: bool)
    requires lenp < |was| && length + |t.asns| < 256
    requires AllData(packed + [t], wide) == AllData(packed, wide) + Data(t.asns, wide)
    requires |AfterPacking(was, lenp, length, packed, wide)| >= |was|
    ensures AfterPacking(was, lenp, length, packed + [t], wide)
         == (AfterPacking(was, lenp, length, packed, wide) + Data(t.asns, wide))[lenp := length + |t.asns|]
  {
    LabelledLast(was, lenp, length, packed, t);
    Overwritten(was, Labelled(was, lenp, length, packed), lenp, AllData(packed, wide), Data(t.asns, wide),
      length + |t.asns|);
  }

  lemma {:induction false} Overwritten(was: seq<byte>, now: seq<byte>, lenp: nat, a: seq<byte>, b: seq<byte>, v: byte)
    requires lenp < |was| == |now| && was[lenp := v] == now[lenp := v]
    ensures (now + a + b)[lenp := v] == was[lenp := v] + (a + b)
  {
    assert forall i :: 0 <= i < |was| && i != lenp ==> was[i] == was[lenp := v][i] == now[lenp := v][i] == now[i];
  }

  /** One segment packed: its data, then the length octet again. */
  method PackOne(s: Stream, asns: seq<nat>, lenp: nat, length: byte, wide: bool)
    requires |asns| <= AS_SEGMENT_MAX
    modifies s
    ensures lenp < |old(s.data)| && old(s.Holds(Data(asns, wide))) ==>
              s.data == (old(s.data) + Data(asns, wide))[lenp := length]
  {
    PutData(s, asns, wide);
    s.PutAt(lenp, length);
  }

  /** That turn, seen from where the loop began. */
  method PackNext(s: Stream, ghost was: seq<byte>, lenp: nat, length: nat, rest: Path, n: nat, ghost run: nat,
                  wide: bool)
    requires n < run <= |rest| && length + |rest[n].asns| <= AS_SEGMENT_MAX
    modifies s
    ensures lenp < |was| && |was| + |AllData(rest[..run], wide)| <= s.size
            && old(s.data) == AfterPacking(was, lenp, length, rest[..n], wide)
            ==> s.data == AfterPacking(was, lenp, length, rest[..n + 1], wide)
  {
    if lenp < |was| {
      PackingTurn(was, lenp, length, rest, n, run, wide);
    }
    PackOne(s, rest[n].asns, lenp, length + |rest[n].asns|, wide);
  }

  /** The loop that packs the AS_SEQUENCEs that follow. */
  method PutPacked(s: Stream, seg: Segment, rest: Path, lenp: nat, length: nat, wide: bool)
    returns (n: nat, packed: nat)
    requires length <= |seg.asns|
    modifies s
    ensures n == Run(seg, rest) && packed == Total(rest[..n])
    ensures lenp < |old(s.data)| && old(s.Holds(AllData(rest[..n], wide))) ==>
              s.data == AfterPacking(old(s.data), lenp, length, rest[..n], wide)
  {
    n, packed := 0, 0;
    ghost var was, run := s.data, Run(seg, rest);
    ghost var fits := lenp < |was| && |was| + |AllData(rest[..run], wide)| <= s.size;
    assert rest[0..] == rest;
    while n < |rest| && Packable(seg, rest[n])
      invariant 0 <= n <= run == n + Run(seg, rest[n..]) <= |rest|
      invariant packed == Total(rest[..n])
      invariant fits ==> s.data == AfterPacking(was, lenp, length, rest[..n], wide)
    {
      var seg1 := rest[n];
      RunStep(seg, rest, n);
      PackNext(s, was, lenp, length, rest, n, run, wide);
      TotalStep(rest, n);
      packed, n := packed + |seg1.asns|, n + 1;
    }
  }

  lemma {:induction false} RunStep(seg: Segment, rest: Path, n: nat)
    requires n < |rest| && Packable(seg, rest[n])
    ensures Run(seg, rest[n..]) == 1 + Run(seg, rest[n + 1..])
  {
    assert rest[n..][1..] == rest[n + 1..];
  }

  lemma {:induction false} TotalStep(p: Path, k: nat)
    requires k < |p|
    ensures Total(p[..k + 1]) == Total(p[..k]) + |p[k].asns|
  {
    AllDataSnoc(p, k, true);
  }

  lemma {:induction false} PackingTurn(was: seq<byte>, lenp: nat, length: nat, rest: Path, n: nat, run: nat, wide: bool)
    requires lenp < |was| && n < run <= |rest| && length + |rest[n].asns| < 256
    ensures var now := AfterPacking(was, lenp, length, rest[..n], wide);
            var data := Data(rest[n].asns, wide);
            && lenp < |now| && |now| + |data| <= |was| + |AllData(rest[..run], wide)|
            && AfterPacking(was, lenp, length, rest[..n + 1], wide) == (now + data)[lenp := length + |rest[n].asns|]
  {
    PackingFits(was, lenp, length, rest, n, run, wide);
    assert rest[..n + 1] == rest[..n] + [rest[n]];
    AllDataSnoc(rest, n, wide);
    PackingStep(was, lenp, length, rest[..n], rest[n], wide);
  }

  lemma {:induction false} PackedTail(head: seq<byte>, seg: Segment, packed: Path, wide: bool)
    ensures AfterPacking(head + SegmentBytes(LastChunk(seg), wide), |head| + 1, Left(|seg.asns|), packed, wide)
         == head + Tail(seg, packed, wide)
  {
    var last := LastChunk(seg);
    var two: seq<byte> := [Code(seg.kind), |last.asns| % 256];
    var data, more := Data(last.asns, wide), AllData(packed, wide);
    assert |last.asns| == Left(|seg.asns|);
    if packed == [] {
      Regroup(head, two + data, more);
    } else {
      var v: byte := (|last.asns| + |packed[|packed| - 1].asns|) % 256;
      Relabel(head, two[0], two[1], v, data, more);
    }
  }

  lemma {:induction false} Relabel(head: seq<byte>, code: byte, l: byte, v: byte, data: seq<byte>, more: seq<byte>)
    ensures (head + ([code, l] + data))[|head| + 1 := v] + more == head + ([code, v] + data + more)
  {}

  /** One turn of the main loop of aspath_put. */
  method PutFirst(s: Stream, p: Path, wide: bool) returns (taken: nat, bytes: nat)
    requires p != []
    modifies s
    ensures taken == 1 + Run(p[0], p[1..])
    ensures old(s.Holds(WrittenFirst(p, wide))) ==> s.data == old(s.data) + WrittenFirst(p, wide)
    ensures bytes == CountedFirst(p, wide)
  {
    var seg, rest := p[0], p[1..];
    ghost var was, splits := s.data, Raw(Splits(seg, |seg.asns|), wide);
    ghost var run := rest[..Run(seg, rest)];
    TailSize(seg, run, wide);
    var written, count := PutSplits(s, seg, wide);
    var last := Segment(seg.kind, seg.asns[written..]);
    assert last == LastChunk(seg);
    ghost var head := s.data;
    var lenp := PutSegment(s, last, wide);
    var n, packed := PutPacked(s, seg, rest, lenp, |last.asns|, wide);
    PackedTail(head, seg, run, wide);
    Regroup(was, splits, Tail(seg, run, wide));
    taken, bytes := 1 + n, count + SegmentSize(|last.asns| + packed, wide);
  }

  lemma {:induction false} TailSize(seg: Segment, packed: Path, wide: bool)
    ensures |Tail(seg, packed, wide)| == |SegmentBytes(LastChunk(seg), wide)| + |AllData(packed, wide)|
  {}

  /** aspath_put: given room for all of it, the stream gets the wire form. */
  method Put(s: Stream, p: Path, wide: bool) returns (bytes: nat)
    modifies s
    ensures old(s.Holds(WireForm(p, wide))) ==>
              s.data == old(s.data) + WireForm(p, wide) && bytes == CountedSize(p, wide)
  {
    bytes := 0;
    if p == [] || p[0].asns == [] {
      assert s.data + [] == s.data;
      return;
    }
    ghost var was, all := s.data, Written(p, wide);
    ghost var fits := |was| + |all| <= s.size;
    var seg := p;
    while seg != [] && SegmentSize(|seg[0].asns|, wide) <= s.size - |s.data|
      invariant bytes + Counted(seg, wide) == Counted(p, wide)
      invariant fits ==> s.data + Written(seg, wide) == was + all
      decreases |seg|
    {
      ghost var now := s.data;
      var taken, count := PutFirst(s, seg, wide);
      TurnTaken(seg, seg[taken..], now, was, all, wide);
      bytes, seg := bytes + count, seg[taken..];
    }
    if fits {
      AllTaken(seg, s.data, s.size, was, all, wide);
    }
  }

  lemma {:induction false} TurnTaken(p: Path, later: Path, now: seq<byte>, was: seq<byte>, all: seq<byte>, wide: bool)
    requires p != [] && later == p[1 + Run(p[0], p[1..])..]
    ensures Counted(p, wide) == CountedFirst(p, wide) + Counted(later, wide)
    ensures now + Written(p, wide) == was + all ==>
              && |now| + |WrittenFirst(p, wide)| <= |was| + |all|
              && now + WrittenFirst(p, wide) + Written(later, wide) == was + all
  {
    assert p[1..][Run(p[0], p[1..])..] == later;
    if now + Written(p, wide) == was + all {
      NextFits(now, WrittenFirst(p, wide), Written(later, wide), was, all);
    }
  }

  /** With room for everything the loop ends only when the path does. */
  lemma {:induction false} AllTaken(left: Path, now: seq<byte>, size: nat, was: seq<byte>, all: seq<byte>, wide: bool)
    requires now + Written(left, wide) == was + all && |was| + |all| <= size
    requires left != [] ==> SegmentSize(|left[0].asns|, wide) > size - |now|
    ensures left == [] && now == was + all && Counted(left, wide) == 0
  {
    assert |now + Written(left, wide)| == |was| + |all|;
    if left != [] {
      FirstLongEnough(left, wide);
    }
    assert now + [] == now;
  }

  lemma {:induction false} SplitsSize(s: Segment, n: nat, wide: bool)
    requires n <= |s.asns|
    ensures |Raw(Splits(s, n), wide)| >= DataSize(n - Left(n), wide)
    decreases n
  {
    if n > AS_SEGMENT_MAX {
      SplitsSize(s, n - AS_SEGMENT_MAX, wide);
      RawCons(Segment(s.kind, s.asns[..AS_SEGMENT_MAX]), Splits(s, n - AS_SEGMENT_MAX), wide);
    }
  }

  lemma {:induction false} FirstLongEnough(p: Path, wide: bool)
    requires p != []
    ensures |Written(p, wide)| >= SegmentSize(|p[0].asns|, wide)
  {
    SplitsSize(p[0], |p[0].asns|, wide);
    TailSize(p[0], p[1..][..Run(p[0], p[1..])], wide);
  }

  // ----- The size returned -----

  predicate Within(p: Path, limit: nat) {
    forall i :: 0 <= i < |p| ==> |p[i].asns| <= limit
  }

  lemma {:induction false} SplitsCounted(s: Segment, n: nat, done: nat, wide: bool)
    requires n <= |s.asns|
    ensures SplitCount(n, done, wide) >= |Raw(Splits(s, n), wide)|
    ensures SplitCount(n, done, wide) == |Raw(Splits(s, n), wide)| <==>
            n <= AS_SEGMENT_MAX || (done == 0 && n <= 2 * AS_SEGMENT_MAX)
    decreases n
  {
    if n > AS_SEGMENT_MAX {
      SplitsCounted(s, n - AS_SEGMENT_MAX, done + AS_SEGMENT_MAX, wide);
      RawCons(Segment(s.kind, s.asns[..AS_SEGMENT_MAX]), Splits(s, n - AS_SEGMENT_MAX), wide);
    }
  }

  lemma {:induction false} FirstCounted(p: Path, wide: bool)
    requires p != []
    ensures CountedFirst(p, wide) >= |WrittenFirst(p, wide)|
    ensures CountedFirst(p, wide) == |WrittenFirst(p, wide)| <==> |p[0].asns| <= 2 * AS_SEGMENT_MAX
  {
    var packed := p[1..][..Run(p[0], p[1..])];
    SplitsCounted(p[0], |p[0].asns|, 0, wide);
    TailSize(p[0], packed, wide);
    AllDataSize(packed, wide);
  }

  lemma {:induction false} PackedAreShort(s: Segment, rest: Path)
    ensures Within(rest[..Run(s, rest)], AS_SEGMENT_MAX)
    decreases |rest|
  {
    if rest != [] && Packable(s, rest[0]) {
      PackedAreShort(s, rest[1..]);
      var all, more := rest[..Run(s, rest)], rest[1..][..Run(s, rest[1..])];
      assert forall i :: 1 <= i < |all| ==> all[i] == more[i - 1];
    }
  }

  lemma {:induction false} WrittenCounted(p: Path, wide: bool)
    ensures Counted(p, wide) >= |Written(p, wide)|
    ensures Counted(p, wide) == |Written(p, wide)| <==> Within(p, 2 * AS_SEGMENT_MAX)
    decreases |p|
  {
    if p != [] {
      var n := Run(p[0], p[1..]);
      var packed, later := p[1..][..n], p[1..][n..];
      assert p == [p[0]] + packed + later;
      PackedAreShort(p[0], p[1..]);
      WithinJoined(p[0], packed, later);
      FirstCounted(p, wide);
      WrittenCounted(later, wide);
      WrittenUnfolds(p, later, wide);
    }
  }

  lemma {:induction false} WrittenUnfolds(p: Path, later: Path, wide: bool)
    requires p != [] && later == p[1..][Run(p[0], p[1..])..]
    ensures |Written(p, wide)| == |WrittenFirst(p, wide)| + |Written(later, wide)|
    ensures Counted(p, wide) == CountedFirst(p, wide) + Counted(later, wide)
  {}

  lemma {:induction false} WithinJoined(s: Segment, packed: Path, later: Path)
    requires Within(packed, AS_SEGMENT_MAX)
    ensures Within([s] + packed + later, 2 * AS_SEGMENT_MAX) <==>
              |s.asns| <= 2 * AS_SEGMENT_MAX && Within(later, 2 * AS_SEGMENT_MAX)
  {
    var p := [s] + packed + later;
    assert forall i :: 0 <= i < |packed| ==> p[i + 1] == packed[i];
    assert forall i :: 0 <= i < |later| ==> p[i + 1 + |packed|] == later[i];
    assert p[0] == s;
    assert forall i :: 1 + |packed| <= i < |p| ==> p[i] == later[i - 1 - |packed|];
    assert forall i :: 1 <= i < 1 + |packed| ==> p[i] == packed[i - 1];
  }

  /** The size aspath_put returns is the number of octets it wrote exactly when
      no segment is longer than 510 AS numbers; otherwise it is larger. */
  lemma {:induction false} SizeIsExact(p: Path, wide: bool)
    ensures CountedSize(p, wide) >= |WireForm(p, wide)|
    ensures CountedSize(p, wide) == |WireForm(p, wide)| <==>
              p == [] || p[0].asns == [] || Within(p, 2 * AS_SEGMENT_MAX)
  {
    WrittenCounted(p, wide);
  }

  // ----- Round trip -----

  /** What a receiver of that width sees of a path. */
  function SegmentImage(s: Segment, wide: bool): Segment {
    if wide then s
    else Segment(s.kind, seq(|s.asns|, i requires 0 <= i < |s.asns| => Trans(s.asns[i])))
  }

  function Image(p: Path, wide: bool): Path {
    seq(|p|, i requires 0 <= i < |p| => SegmentImage(p[i], wide))
  }

  lemma {:induction false} NothingPacked(p: Path, wide: bool)
    requires Normal(p)
    ensures Written(p, wide) == Raw(Chunked(p), wide)
    decreases |p|
  {
    if p != [] {
      var rest := p[1..];
      assert forall i :: 0 <= i < |rest| ==> rest[i] == p[i + 1];
      assert Run(p[0], rest) == 0;
      assert rest[..0] == [] && rest[0..] == rest;
      NothingPacked(rest, wide);
      RawJoined(Splits(p[0], |p[0].asns|), [LastChunk(p[0])], wide);
      RawJoined(Chunks(p[0]), Chunked(rest), wide);
      RawCons(LastChunk(p[0]), [], wide);
      assert [LastChunk(p[0])] + [] == [LastChunk(p[0])];
    }
  }

  lemma {:induction false} RawJoined(a: Path, b: Path, wide: bool)
    ensures Raw(a + b, wide) == Raw(a, wide) + Raw(b, wide)
    decreases |a|
  {
    if a == [] {
      assert a + b == b;
    } else {
      RawJoined(a[1..], b, wide);
      assert (a + b)[1..] == a[1..] + b && (a + b)[0] == a[0];
      Regroup(SegmentBytes(a[0], wide), Raw(a[1..], wide), Raw(b, wide));
    }
  }

  /** Segments a round trip is promised for: none empty, AS numbers of 32 bits. */
  predicate Sendable(p: Path) {
    forall i :: 0 <= i < |p| ==> p[i].asns != [] && Fits(p[i].asns, true)
  }

  /** The lengths the splitting loop gets right. */
  predicate Moderate(p: Path) {
    forall i :: 0 <= i < |p| ==> |p[i].asns| <= if p[i].kind == Sequence then 2 * AS_SEGMENT_MAX else AS_SEGMENT_MAX
  }

  lemma {:induction false} ImageTail(p: Path, wide: bool)
    requires p != []
    ensures Image(p, wide)[0] == SegmentImage(p[0], wide) && Image(p, wide)[1..] == Image(p[1..], wide)
  {}

  lemma {:induction false} ImageCarried(s: Segment, wide: bool)
    requires Fits(s.asns, true)
    ensures Fits(SegmentImage(s, wide).asns, wide)
  {}

  lemma {:induction false} DataImage(asns: seq<nat>, image: seq<nat>)
    requires |image| == |asns| && forall i :: 0 <= i < |asns| ==> image[i] == Trans(asns[i])
    ensures Data(asns, false) == Data(image, false)
    decreases |asns|
  {
    if asns != [] {
      DataImage(asns[1..], image[1..]);
    }
  }

  /** The 2-octet octets of a path are those of its AS_TRANS image. */
  lemma {:induction false} RawImage(p: Path, wide: bool)
    ensures Raw(p, wide) == Raw(Image(p, wide), wide)
    decreases |p|
  {
    if p != [] {
      RawImage(p[1..], wide);
      ImageTail(p, wide);
      if !wide {
        DataImage(p[0].asns, SegmentImage(p[0], wide).asns);
      }
    }
  }

  lemma {:induction false} SplitsImage(s: Segment, n: nat, wide: bool)
    requires n <= |s.asns|
    ensures Splits(SegmentImage(s, wide), n) == Image(Splits(s, n), wide)
    decreases n
  {
    if n > AS_SEGMENT_MAX {
      SplitsImage(s, n - AS_SEGMENT_MAX, wide);
      var chunk := Segment(s.kind, s.asns[..AS_SEGMENT_MAX]);
      assert SegmentImage(s, wide).asns[..AS_SEGMENT_MAX] == SegmentImage(chunk, wide).asns;
      ImageTail(Splits(s, n), wide);
    }
  }

  lemma {:induction false} ImageJoined(a: Path, b: Path, wide: bool)
    ensures Image(a + b, wide) == Image(a, wide) + Image(b, wide)
  {}

  lemma {:induction false} ChunkedImage(p: Path, wide: bool)
    ensures Chunked(Image(p, wide)) == Image(Chunked(p), wide)
    decreases |p|
  {
    if p != [] {
      ChunkedImage(p[1..], wide);
      ImageTail(p, wide);
      ChunksImage(p[0], wide);
      ImageJoined(Chunks(p[0]), Chunked(p[1..]), wide);
    }
  }

  lemma {:induction false} ChunksImage(s: Segment, wide: bool)
    ensures Chunks(SegmentImage(s, wide)) == Image(Chunks(s), wide)
  {
    SplitsImage(s, |s.asns|, wide);
    var last := LastChunk(s);
    assert LastChunk(SegmentImage(s, wide)).asns == SegmentImage(last, wide).asns;
    assert Image([last], wide) == [SegmentImage(last, wide)];
    ImageJoined(Splits(s, |s.asns|), [last], wide);
  }

  lemma {:induction false} SplitsCarried(s: Segment, n: nat, wide: bool)
    requires n <= |s.asns| && Fits(s.asns, wide)
    ensures AllCarried(Splits(s, n), wide)
    decreases n
  {
    if n > AS_SEGMENT_MAX {
      SplitsCarried(s, n - AS_SEGMENT_MAX, wide);
    }
  }

  lemma {:induction false} LeftPositive(n: nat)
    requires n > 0
    ensures Left(n) > 0
    decreases n
  {
    if n > AS_SEGMENT_MAX {
      LeftPositive(n - AS_SEGMENT_MAX);
    }
  }

  lemma {:induction false} ChunkedCarried(p: Path, wide: bool)
    requires forall i :: 0 <= i < |p| ==> p[i].asns != [] && Fits(p[i].asns, wide)
    ensures AllCarried(Chunked(p), wide)
    decreases |p|
  {
    if p != [] {
      assert forall i :: 0 <= i < |p[1..]| ==> p[1..][i] == p[i + 1];
      ChunkedCarried(p[1..], wide);
      SplitsCarried(p[0], |p[0].asns|, wide);
      LeftPositive(|p[0].asns|);
      assert Carried(LastChunk(p[0]), wide);
    }
  }

  /** Within those lengths the chunks of a segment normalise like the segment. */
  lemma {:induction false} ChunksRejoin(s: Segment, rest: Path)
    requires |s.asns| <= if s.kind == Sequence then 2 * AS_SEGMENT_MAX else AS_SEGMENT_MAX
    ensures Normalise(Chunks(s) + rest) == Normalise([s] + rest)
  {
    var n := |s.asns|;
    if n <= AS_SEGMENT_MAX {
      assert LastChunk(s) == s;
      assert Chunks(s) == [s];
    } else {
      var a, b := s.asns[..AS_SEGMENT_MAX], s.asns[AS_SEGMENT_MAX..];
      assert Splits(s, n - AS_SEGMENT_MAX) == [];
      assert Left(n - AS_SEGMENT_MAX) == n - AS_SEGMENT_MAX;
      assert LastChunk(s) == Segment(Sequence, b);
      assert Chunks(s) == [Segment(Sequence, a), Segment(Sequence, b)];
      assert s == Segment(Sequence, a + b);
      MergeFirst(a, b, rest);
    }
  }

  lemma {:induction false} ChunkedNormalises(p: Path)
    requires Moderate(p)
    ensures Normalise(Chunked(p)) == Normalise(p)
    decreases |p|
  {
    if p != [] {
      var rest := p[1..];
      assert forall i :: 0 <= i < |rest| ==> rest[i] == p[i + 1];
      ChunkedNormalises(rest);
      NormaliseTail(Chunks(p[0]), Chunked(rest), rest);
      ChunksRejoin(p[0], rest);
      assert p == [p[0]] + rest;
    }
  }

  /** The octets of the chunks are read as the chunks. */
  lemma {:induction false} ChunksAreParsed(p: Path, wide: bool)
    requires Sendable(p)
    ensures var d := Raw(Chunked(p), wide);
            Parse(d, |d|, wide) == Some(Normalise(Chunked(Image(p, wide))))
  {
    var d, chunks := Raw(Chunked(p), wide), Chunked(Image(p, wide));
    RawImage(Chunked(p), wide);
    ChunkedImage(p, wide);
    assert d == Raw(chunks, wide);
    forall i | 0 <= i < |p| ensures Image(p, wide)[i].asns != [] && Fits(Image(p, wide)[i].asns, wide) {
      ImageCarried(p[i], wide);
    }
    ChunkedCarried(Image(p, wide), wide);
    ParseRaw(chunks, wide);
    RawEven(chunks, wide);
    assert d[..|d|] == d;
  }

  /** Whatever the lengths, a parser of the same width accepts the octets of a
      normal path and finds the chunks. */
  lemma {:induction false} WrittenIsParsed(p: Path, wide: bool)
    requires Normal(p) && Sendable(p)
    ensures Parse(WireForm(p, wide), |WireForm(p, wide)|, wide) == Some(Normalise(Chunked(Image(p, wide))))
  {
    NothingPacked(p, wide);
    ChunksAreParsed(p, wide);
  }

  lemma {:induction false} ImageRoundTrip(p: Path, wide: bool)
    requires Normal(p) && Sendable(p) && Moderate(p)
    ensures Parse(WireForm(p, wide), |WireForm(p, wide)|, wide) == Some(Normalise(Image(p, wide)))
  {
    WrittenIsParsed(p, wide);
    ChunkedNormalises(Image(p, wide));
  }

  /** Round trip: parsing what aspath_put wrote gives the path back, or, between
      2-octet speakers, its AS_TRANS image; the size returned is exact. */
  lemma {:induction false} WireRoundTrip(p: Path, wide: bool)
    requires Normal(p) && Sendable(p) && Moderate(p)
    ensures Parse(WireForm(p, wide), |WireForm(p, wide)|, wide) == Some(Normalise(Image(p, wide)))
    ensures Parse(WireForm(p, true), |WireForm(p, true)|, true) == Some(p)
    ensures CountedSize(p, wide) == |WireForm(p, wide)|
  {
    ImageRoundTrip(p, wide);
    ImageRoundTrip(p, true);
    assert Image(p, true) == p;
    NormalIsFixed(p);
    SizeIsExact(p, wide);
  }
}
