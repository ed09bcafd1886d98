/** AS paths on the wire: assegments_parse and aspath_put. */
module BgpAspathWire {
  import opened Wrappers
  import opened Bytes
  import opened BgpAspath

  const AS_SEGMENT_MAX: nat := 255
  const AS_HEADER_SIZE: nat := 2

  function Width(wide: bool): nat { if wide then 4 else 2 }

  /** ASSEGMENT_DATA_SIZE. */
  function DataSize(n: nat, wide: bool): nat { if wide then 4 * n else 2 * n }

  function Code(k: Kind): byte {
    match k case Set => 1 case Sequence => 2 case ConfedSequence => 3 case ConfedSet => 4
  }

  function KindOf(code: byte): Option<Kind> {
    if code == 1 then Some(Set)
    else if code == 2 then Some(Sequence)
    else if code == 3 then Some(ConfedSequence)
    else if code == 4 then Some(ConfedSet)
    else None
  }

  /** How a 2-octet speaker sees an AS number. */
  function Trans(asn: nat): nat {
    if asn <= AS_MAX then asn else AS_TRANS
  }

  function PutAsn(asn: nat, wide: bool): (r: seq<byte>)
    ensures |r| == Width(wide)
  {
    if wide then Put32(asn) else Put16(Trans(asn))
  }

  function GetAsn(d: seq<byte>, wide: bool): nat {
    if wide then Get32(d, 0) else Get16(d, 0)
  }

  function Data(asns: seq<nat>, wide: bool): (r: seq<byte>)
    ensures |r| == DataSize(|asns|, wide)
  {
    if asns == [] then [] else
      PutAsn(asns[0], wide) + Data(asns[1..], wide)
  }

  function SegmentSize(n: nat, wide: bool): nat {
    AS_HEADER_SIZE + DataSize(n, wide)
  }

  function SegmentBytes(s: Segment, wide: bool): (r: seq<byte>)
    ensures |r| == SegmentSize(|s.asns|, wide)
  {
    [Code(s.kind), |s.asns| % 256] + Data(s.asns, wide)
  }

  /** A list of segments written as it stands. */
  function Raw(p: Path, wide: bool): seq<byte> {
    if p == [] then [] else SegmentBytes(p[0], wide) + Raw(p[1..], wide)
  }

  // ----- Parsing -----

  function ReadAsns(d: seq<byte>, n: nat, wide: bool): (asns: seq<nat>)
    requires DataSize(n, wide) <= |d|
    ensures |asns| == n
  {
    if n == 0 then [] else
      [GetAsn(d, wide)] + ReadAsns(d[Width(wide)..], n - 1, wide)
  }

  /** The segment at the front of the octets. */
  function First(d: seq<byte>, wide: bool): (r: Option<Segment>)
    ensures r.Some? ==> |d| >= SegmentSize(|r.value.asns|, wide)
  {
    if |d| <= AS_HEADER_SIZE then None
    else if SegmentSize(d[1], wide) > |d| || d[1] == 0 || KindOf(d[0]).None? then None
    else Some(Segment(KindOf(d[0]).value, ReadAsns(d[2..], d[1], wide)))
  }

  function Prefixed(segs: Path, rest: Option<Path>): Option<Path> {
    if rest.None? then None else Some(segs + rest.value)
  }

  /** The segments in the attribute's octets, before normalisation. */
  function ParseSegments(d: seq<byte>, wide: bool): Option<Path>
    decreases |d|
  {
    if d == [] then Some([])
    else if First(d, wide).None? then None
    else
      var s := First(d, wide).value;
      Prefixed([s], ParseSegments(d[SegmentSize(|s.asns|, wide)..], wide))
  }

  /** aspath_parse on a stream that still holds `data`. */
  function Parse(data: seq<byte>, length: nat, wide: bool): Option<Path> {
    if length % 2 != 0 then None
    else if length == 0 then Some([])
    else if |data| < length || |data| < AS_HEADER_SIZE then None
    else
      var r := ParseSegments(data[..length], wide);
      if r.None? then None else Some(Normalise(r.value))
  }

  /** What a segment on the wire can hold. */
  predicate Carried(s: Segment, wide: bool) {
    1 <= |s.asns| <= AS_SEGMENT_MAX && Fits(s.asns, wide)
  }

  predicate Fits(asns: seq<nat>, wide: bool) {
    forall i :: 0 <= i < |asns| ==> asns[i] < (if wide then 0x1_0000_0000 else 0x1_0000)
  }

  predicate AllCarried(p: Path, wide: bool) {
    forall i :: 0 <= i < |p| ==> Carried(p[i], wide)
  }

  lemma {:induction false} GetPut(asn: nat, rest: seq<byte>, wide: bool)
    ensures asn < (if wide then 0x1_0000_0000 else 0x1_0000) ==> GetAsn(PutAsn(asn, wide) + rest, wide) == asn
  {
    var d := PutAsn(asn, wide) + rest;
    if wide {
      if asn < 0x1_0000_0000 {
        Put32Get(asn, d, 0);
      }
    } else if asn < 0x1_0000 {
      Put16Get(asn, d, 0);
    }
  }

  lemma {:induction false} PutGet(d: seq<byte>, wide: bool)
    requires |d| >= Width(wide)
    ensures PutAsn(GetAsn(d, wide), wide) == d[..Width(wide)]
    ensures GetAsn(d, wide) < (if wide then 0x1_0000_0000 else 0x1_0000)
  {
    if wide {
      Digits32(d[0], d[1], d[2], d[3]);
    }
  }

  lemma {:induction false} Digits32(a: byte, b: byte, c: byte, e: byte)
    ensures Put32(a * 0x1000000 + b * 0x10000 + c * 256 + e) == [a, b, c, e]
  {
    var v := a * 0x1000000 + b * 0x10000 + c * 256 + e;
    assert v / 256 == a * 0x10000 + b * 256 + c;
    assert v / 0x10000 == a * 256 + b;
  }

  lemma {:induction false} ReadOne(asn: nat, more: seq<byte>, n: nat, wide: bool)
    requires asn < (if wide then 0x1_0000_0000 else 0x1_0000) && DataSize(n, wide) <= |more|
    ensures ReadAsns(PutAsn(asn, wide) + more, n + 1, wide) == [asn] + ReadAsns(more, n, wide)
  {
    GetPut(asn, more, wide);
    assert (PutAsn(asn, wide) + more)[Width(wide)..] == more;
  }

  lemma {:induction false} ReadData(asns: seq<nat>, rest: seq<byte>, wide: bool)
    requires Fits(asns, wide)
    ensures ReadAsns(Data(asns, wide) + rest, |asns|, wide) == asns
    decreases |asns|
  {
    if asns != [] {
      var tail := asns[1..];
      assert forall i :: 0 <= i < |tail| ==> tail[i] == asns[i + 1];
      ReadData(tail, rest, wide);
      ReadOne(asns[0], Data(tail, wide) + rest, |tail|, wide);
      assert Data(asns, wide) + rest == PutAsn(asns[0], wide) + (Data(tail, wide) + rest);
    }
  }

  lemma {:induction false} DataRead(d: seq<byte>, n: nat, wide: bool)
    requires DataSize(n, wide) <= |d|
    ensures Fits(ReadAsns(d, n, wide), wide)
    ensures Data(ReadAsns(d, n, wide), wide) == d[..DataSize(n, wide)]
    decreases n
  {
    if n > 0 {
      var w := Width(wide);
      DataRead(d[w..], n - 1, wide);
      PutGet(d, wide);
      var asns := ReadAsns(d, n, wide);
      assert asns[1..] == ReadAsns(d[w..], n - 1, wide);
      assert d[..DataSize(n, wide)] == d[..w] + d[w..][..DataSize(n - 1, wide)];
    }
  }

  lemma {:induction false} FirstOf(s: Segment, more: seq<byte>, wide: bool)
    requires Carried(s, wide)
    ensures First(SegmentBytes(s, wide) + more, wide) == Some(s)
  {
    var d, n, data := SegmentBytes(s, wide) + more, |s.asns|, Data(s.asns, wide);
    var head: seq<byte> := [Code(s.kind), n % 256];
    assert n % 256 == n;
    Split2(head, data, more);
    ReadData(s.asns, more, wide);
  }

  lemma {:induction false} Split2(head: seq<byte>, data: seq<byte>, more: seq<byte>)
    requires |head| == 2
    ensures var d := head + data + more;
            d[0] == head[0] && d[1] == head[1] && d[2..] == data + more && d[2 + |data|..] == more
  {}

  lemma {:induction false} ParseRaw(p: Path, wide: bool)
    requires AllCarried(p, wide)
    ensures ParseSegments(Raw(p, wide), wide) == Some(p)
    decreases |p|
  {
    if p != [] {
      var rest := p[1..];
      assert forall i :: 0 <= i < |rest| ==> rest[i] == p[i + 1];
      ParseRaw(rest, wide);
      var s, more := p[0], Raw(rest, wide);
      FirstOf(s, more, wide);
      assert (SegmentBytes(s, wide) + more)[SegmentSize(|s.asns|, wide)..] == more;
      assert p == [s] + rest;
    }
  }

  /** What the parser takes off the front encodes back to what it took. */
  lemma {:induction false} FirstRaw(d: seq<byte>, wide: bool)
    requires First(d, wide).Some?
    ensures var s := First(d, wide).value;
            Carried(s, wide) && SegmentBytes(s, wide) == d[..SegmentSize(|s.asns|, wide)]
  {
    var n := d[1];
    DataRead(d[2..], n, wide);
    assert d[..SegmentSize(n, wide)] == [d[0], d[1]] + d[2..][..DataSize(n, wide)];
  }

  lemma {:induction false} RawParse(d: seq<byte>, wide: bool)
    requires ParseSegments(d, wide).Some?
    ensures AllCarried(ParseSegments(d, wide).value, wide)
    ensures Raw(ParseSegments(d, wide).value, wide) == d
    decreases |d|
  {
    if d != [] {
      var s := First(d, wide).value;
      FirstRaw(d, wide);
      var tail := d[SegmentSize(|s.asns|, wide)..];
      RawParse(tail, wide);
      RawCons(s, ParseSegments(tail, wide).value, wide);
    }
  }

  lemma {:induction false} RawCons(s: Segment, rest: Path, wide: bool)
    ensures Raw([s] + rest, wide) == SegmentBytes(s, wide) + Raw(rest, wide)
    ensures AllCarried([s] + rest, wide) <==> Carried(s, wide) && AllCarried(rest, wide)
  {
    var p := [s] + rest;
    assert p[1..] == rest && p[0] == s;
    assert forall i :: 0 <= i < |rest| ==> rest[i] == p[i + 1];
  }

  /** The parser accepts exactly the encodings of lists of well-formed segments,
      and returns the list encoded. */
  lemma {:induction false} ParseExact(d: seq<byte>, p: Path, wide: bool)
    ensures ParseSegments(d, wide) == Some(p) <==> AllCarried(p, wide) && d == Raw(p, wide)
  {
    if ParseSegments(d, wide) == Some(p) {
      RawParse(d, wide);
    }
    if AllCarried(p, wide) {
      ParseRaw(p, wide);
    }
  }

  /** The check for an odd length refuses nothing the loop would accept. */
  lemma {:induction false} RawEven(p: Path, wide: bool)
    ensures |Raw(p, wide)| % 2 == 0
    decreases |p|
  {
    if p != [] {
      RawEven(p[1..], wide);
    }
  }

  /** assegments_parse: the loop over the octets. */
  method ParseLoop(data: seq<byte>, length: nat, wide: bool) returns (r: Option<Path>)
    ensures r == Parse(data, length, wide)
  {
    if length % 2 != 0 {
      return None;
    }
    if length == 0 {
      return Some([]);
    }
    if |data| < length || |data| < AS_HEADER_SIZE {
      return None;
    }
    var segs := SegmentLoop(data[..length], wide);
    return if segs.None? then None else Some(Normalise(segs.value));
  }

  method SegmentLoop(d: seq<byte>, wide: bool) returns (r: Option<Path>)
    ensures r == ParseSegments(d, wide)
  {
    var bytes := 0;
    var segs: Path := [];
    ghost var whole := ParseSegments(d, wide);
    NothingPrefixed(whole);
    assert d[0..] == d;
    while bytes < |d|
      invariant 0 <= bytes <= |d|
      invariant whole == Prefixed(segs, ParseSegments(d[bytes..], wide))
    {
      var next := FirstSegmentAt(d[bytes..], wide);
      if next.None? {
        return None;
      }
      var s := next.value;
      var end := bytes + SegmentSize(|s.asns|, wide);
      SegmentTaken(d, bytes, end, segs, s, wide);
      segs, bytes := segs + [s], end;
    }
    assert d[bytes..] == [] && segs + [] == segs;
    r := Some(segs);
  }

  method FirstSegmentAt(d: seq<byte>, wide: bool) returns (r: Option<Segment>)
    ensures r == First(d, wide)
  {
    if |d| <= AS_HEADER_SIZE {
      return None;
    }
    var code, n := d[0], d[1];
    if SegmentSize(n, wide) > |d| || n == 0 {
      return None;
    }
    if KindOf(code).None? {
      return None;
    }
    var asns := ReadLoop(d[2..], n, wide);
    return Some(Segment(KindOf(code).value, asns));
  }

  method ReadLoop(d: seq<byte>, n: nat, wide: bool) returns (asns: seq<nat>)
    requires DataSize(n, wide) <= |d|
    ensures asns == ReadAsns(d, n, wide)
  {
    asns := [];
    var w := Width(wide);
    var i, at := 0, 0;
    assert d[0..] == d;
    while i < n
      invariant 0 <= i <= n && 0 <= at && at + DataSize(n - i, wide) <= |d|
      invariant ReadAsns(d, n, wide) == asns + ReadAsns(d[at..], n - i, wide)
    {
      assert d[at..][w..] == d[at + w..];
      asns := asns + [GetAsn(d[at..], wide)];
      i, at := i + 1, at + w;
    }
  }

  lemma {:induction false} NothingPrefixed(r: Option<Path>)
    ensures Prefixed([], r) == r
  {
    if r.Some? {
      assert [] + r.value == r.value;
    }
  }

  lemma {:induction false} SegmentTaken(d: seq<byte>, at: nat, end: nat, segs: Path, s: Segment, wide: bool)
    requires at < |d| && First(d[at..], wide) == Some(s) && end == at + SegmentSize(|s.asns|, wide)
    ensures Prefixed(segs, ParseSegments(d[at..], wide))
         == Prefixed(segs + [s], ParseSegments(d[end..], wide))
  {
    var size := SegmentSize(|s.asns|, wide);
    assert d[at..][size..] == d[end..];
    var rest := ParseSegments(d[end..], wide);
    if rest.Some? {
      assert segs + ([s] + rest.value) == segs + [s] + rest.value;
    }
  }
}
