/** Path attributes of an UPDATE: bgp_attr_parse and bgp_packet_attribute for IPv4
    unicast between internal peers. */
module BgpAttr {
  import opened Wrappers
  import opened Bytes
  import opened BgpAspath
  import opened BgpAspathWire
  import opened BgpAspathPut
  import opened BgpReconcile

  const ORIGIN: byte := 1
  const AS_PATH: byte := 2
  const NEXT_HOP: byte := 3
  const MULTI_EXIT_DISC: byte := 4
  const LOCAL_PREF: byte := 5
  const ATOMIC_AGGREGATE: byte := 6
  const AGGREGATOR: byte := 7
  const COMMUNITIES: byte := 8
  const ORIGINATOR_ID: byte := 9
  const CLUSTER_LIST: byte := 10
  const MP_REACH_NLRI: byte := 14
  const MP_UNREACH_NLRI: byte := 15
  const EXT_COMMUNITIES: byte := 16
  const AS4_PATH: byte := 17
  const AS4_AGGREGATOR: byte := 18

  const OPTIONAL: byte := 0x80
  const TRANS: byte := 0x40
  const PARTIAL: byte := 0x20
  const EXTLEN: byte := 0x10

  datatype Aggregator = Aggregator(asn: nat, addr: nat)

  /** The attributes of a route; a field is present when its flag bit is set. */
  datatype Attrs = Attrs(
    origin: Option<nat>, path: Option<Path>, nextHop: Option<nat>, med: Option<nat>, localPref: Option<nat>,
    atomic: bool, aggregator: Option<Aggregator>, communities: Option<seq<nat>>)

  const NO_ATTRS := Attrs(None, None, None, None, None, false, None, None)

  // ----- Attribute headers -----

  /** The flag bits an attribute must have: optional, transitive. */
  datatype Wanted = Wanted(optional: bool, transitive: bool)

  function WantedFlags(code: byte): Option<Wanted> {
    if code in {ORIGIN, AS_PATH, NEXT_HOP, LOCAL_PREF, ATOMIC_AGGREGATE} then Some(Wanted(false, true))
    else if code in {MULTI_EXIT_DISC, ORIGINATOR_ID, CLUSTER_LIST, MP_REACH_NLRI, MP_UNREACH_NLRI}
    then Some(Wanted(true, false))
    else if code in {AGGREGATOR, COMMUNITIES, EXT_COMMUNITIES, AS4_PATH, AS4_AGGREGATOR} then Some(Wanted(true, true))
    else None
  }

  predicate Optional(f: byte) { f / 128 % 2 == 1 }
  predicate Transitive(f: byte) { f / 64 % 2 == 1 }
  predicate Partial(f: byte) { f / 32 % 2 == 1 }
  predicate Extended(f: byte) { f / 16 % 2 == 1 }

  /** bgp_attr_flag_invalid. */
  predicate FlagInvalid(code: byte, f: byte) {
    WantedFlags(code).Some? &&
    (|| (!Optional(f) && !Transitive(f))
     || (Partial(f) && (!Optional(f) || !Transitive(f)))
     || Wanted(Optional(f), Transitive(f)) != WantedFlags(code).value)
  }

  datatype Tlv = Tlv(flags: byte, code: byte, value: seq<byte>)

  function TlvBytes(t: Tlv): seq<byte> {
    [t.flags, t.code] + (if Extended(t.flags) then Put16(|t.value|) else [|t.value| % 256]) + t.value
  }

  function AllBytes(ts: seq<Tlv>): seq<byte> {
    if ts == [] then [] else TlvBytes(ts[0]) + AllBytes(ts[1..])
  }

  /** The attribute at the front of the octets. */
  function FirstTlv(d: seq<byte>): (r: Option<(Tlv, seq<byte>)>)
    ensures r.Some? ==> |r.value.1| < |d|
  {
    if |d| < 3 then None
    else
      var header := if Extended(d[0]) then 4 else 3;
      if |d| < header then None
      else
        var length := if Extended(d[0]) then Get16(d, 2) else d[2];
        if |d| < header + length then None
        else Some((Tlv(d[0], d[1], d[header..][..length]), d[header..][length..]))
  }

  /** A header that can hold its value's length. */
  predicate Framed(t: Tlv) {
    |t.value| < if Extended(t.flags) then 0x1_0000 else 256
  }

  lemma {:induction false} FirstOfBytes(t: Tlv, rest: seq<byte>)
    requires Framed(t)
    ensures FirstTlv(TlvBytes(t) + rest) == Some((t, rest))
  {
    var d := TlvBytes(t) + rest;
    var header := if Extended(t.flags) then 4 else 3;
    assert d[0] == t.flags && d[1] == t.code;
    assert d[header..] == t.value + rest;
    if Extended(t.flags) {
      assert d[2] == Put16(|t.value|)[0] && d[3] == Put16(|t.value|)[1];
      Put16Get(|t.value|, d, 2);
    } else {
      assert d[2] == |t.value| % 256;
    }
    assert (t.value + rest)[..|t.value|] == t.value && (t.value + rest)[|t.value|..] == rest;
  }

  // ----- Communities -----

  /** community_uniq_sort: the loop that leaves out what is already there; the
      sort leaves the values in order. */
  method UniqSort(vals: seq<nat>) returns (r: seq<nat>)
    ensures r == SortUnique(vals)
  {
    var kept: seq<nat> := [];
    var i := 0;
    while i < |vals|
      invariant 0 <= i <= |vals|
      invariant forall x :: x in kept <==> x in vals[..i]
      invariant forall j, k :: 0 <= j < k < |kept| ==> kept[j] != kept[k]
    {
      assert vals[..i + 1] == vals[..i] + [vals[i]];
      if vals[i] !in kept {
        kept := kept + [vals[i]];
      }
      i := i + 1;
    }
    assert vals[..i] == vals;
    r := Sort(kept);
    SortAscending(kept);
    DistinctSort(kept);
    SortUniqueIncreasing(vals);
    IncreasingUnique(r, SortUnique(vals));
  }

  lemma {:induction false} PlaceIncreasing(x: nat, s: seq<nat>)
    requires Increasing(s) && x !in s
    ensures Increasing(Place(x, s)) && forall y :: y in Place(x, s) <==> y == x || y in s
    decreases |s|
  {
    if s != [] && x > s[0] {
      var t := Place(x, s[1..]);
      assert s == [s[0]] + s[1..];
      PlaceIncreasing(x, s[1..]);
      forall k | 0 <= k < |t| ensures s[0] < t[k] {
        assert t[k] in t;
      }
    } else if s != [] {
      assert s[0] in s;
    }
  }

  lemma {:induction false} DistinctSort(s: seq<nat>)
    requires forall j, k :: 0 <= j < k < |s| ==> s[j] != s[k]
    ensures Increasing(Sort(s)) && forall y :: y in Sort(s) <==> y in s
    decreases |s|
  {
    if s != [] {
      var t := s[1..];
      assert forall j :: 0 <= j < |t| ==> t[j] == s[j + 1];
      assert s[0] !in t;
      DistinctSort(t);
      PlaceIncreasing(s[0], Sort(t));
      assert s == [s[0]] + t;
    }
  }

  // ----- Parsing -----

  /** What has been read so far. */
  datatype Parsed = Parsed(
    attrs: Attrs, as4Path: Option<Path>, as4Aggregator: Option<Aggregator>, others: set<byte>, seen: set<byte>)

  const NOTHING_READ := Parsed(NO_ATTRS, None, None, {}, {})

  predicate Martian(addr: nat) {
    addr / 0x1000000 == 0 || addr / 0x1000000 == 127 || addr / 0x20000000 == 7
  }

  /** The session: whether the peer takes 4-octet AS numbers, whether it announced
      graceful restart, and whether the parsers outside this model accept an
      attribute of another type. */
  datatype Session = Session(wide: bool, restart: bool, accepts: (byte, seq<byte>) -> bool)

  /** The parser of one attribute's value. */
  function ParseValue(code: byte, v: seq<byte>, p: Parsed, ses: Session): Option<Parsed> {
    var a := p.attrs;
    if code == ORIGIN then
      if |v| != 1 || v[0] > 2 then None else Some(p.(attrs := a.(origin := Some(v[0]))))
    else if code == AS_PATH then
      var path := Parse(v, |v|, ses.wide);
      if path.None? then None else Some(p.(attrs := a.(path := Some(path.value))))
    else if code == AS4_PATH then
      var path := Parse(v, |v|, true);
      if path.None? then None else Some(p.(as4Path := Some(path.value)))
    else if code == NEXT_HOP then
      if |v| != 4 || Martian(Get32(v, 0)) then None else Some(p.(attrs := a.(nextHop := Some(Get32(v, 0)))))
    else if code == MULTI_EXIT_DISC then
      if |v| != 4 then None else Some(p.(attrs := a.(med := Some(Get32(v, 0)))))
    else if code == LOCAL_PREF then
      if |v| != 4 then None else Some(p.(attrs := a.(localPref := Some(Get32(v, 0)))))
    else if code == ATOMIC_AGGREGATE then
      if |v| != 0 then None else Some(p.(attrs := a.(atomic := true)))
    else if code == AGGREGATOR then
      if |v| != (if ses.wide then 8 else 6) then None
      else if ses.wide then Some(p.(attrs := a.(aggregator := Some(Aggregator(Get32(v, 0), Get32(v, 4))))))
      else Some(p.(attrs := a.(aggregator := Some(Aggregator(Get16(v, 0), Get32(v, 2))))))
    else if code == AS4_AGGREGATOR then
      if |v| != 8 then None else Some(p.(as4Aggregator := Some(Aggregator(Get32(v, 0), Get32(v, 4)))))
    else if code == COMMUNITIES then
      if |v| == 0 then Some(p)
      else if |v| % 4 != 0 then None
      else Some(p.(attrs := a.(communities := Some(SortUnique(ReadAsns(v, |v| / 4, true))))))
    else if ses.accepts(code, v) then
      Some(if code in {ORIGINATOR_ID, CLUSTER_LIST, MP_REACH_NLRI, MP_UNREACH_NLRI, EXT_COMMUNITIES}
           then p.(others := p.others + {code}) else p)
    else None
  }

  function ParseOne(t: Tlv, p: Parsed, ses: Session): Option<Parsed> {
    if t.code in p.seen || FlagInvalid(t.code, t.flags) then None
    else ParseValue(t.code, t.value, p.(seen := p.seen + {t.code}), ses)
  }

  /** The loop of bgp_attr_parse. */
  function ParseAll(d: seq<byte>, p: Parsed, ses: Session): Option<Parsed>
    decreases |d|
  {
    if d == [] then Some(p)
    else if FirstTlv(d).None? then None
    else
      var p1 := ParseOne(FirstTlv(d).value.0, p, ses);
      if p1.None? then None else ParseAll(FirstTlv(d).value.1, p1.value, ses)
  }

  /** bgp_attr_check. */
  predicate Complete(p: Parsed, ses: Session) {
    || (ses.restart && p.attrs == NO_ATTRS && p.as4Path.None? && p.as4Aggregator.None? && p.others == {})
    || (p.attrs == NO_ATTRS && p.as4Path.None? && p.as4Aggregator.None? && p.others == {MP_UNREACH_NLRI})
    || (p.attrs.origin.Some? && p.attrs.path.Some? && (p.attrs.nextHop.Some? || MP_REACH_NLRI in p.others)
      && p.attrs.localPref.Some?)
  }

  /** An AGGREGATOR that is not AS_TRANS overrides both AS4 attributes. */
  predicate IgnoresAs4(p: Parsed) {
    p.as4Aggregator.Some? && p.attrs.aggregator.Some? && p.attrs.aggregator.value.asn != AS_TRANS
  }

  function MungedAggregator(p: Parsed): Option<Aggregator> {
    if p.as4Aggregator.None? || IgnoresAs4(p) then p.attrs.aggregator
    else if p.attrs.aggregator.Some? then p.as4Aggregator
    else Some(Aggregator(p.as4Aggregator.value.asn, 0))
  }

  function MungedPath(p: Parsed): Option<Path> {
    if p.attrs.path.Some? && p.as4Path.Some? && !IgnoresAs4(p)
    then Some(Reconcile(p.attrs.path.value, p.as4Path.value)) else p.attrs.path
  }

  /** bgp_attr_munge_as4_attrs. */
  function Munged(p: Parsed, ses: Session): Attrs {
    if ses.wide || p.attrs.path.None? then p.attrs
    else p.attrs.(path := MungedPath(p), aggregator := MungedAggregator(p))
  }

  /** bgp_attr_parse. */
  function Receive(d: seq<byte>, ses: Session): Option<Attrs> {
    var p := ParseAll(d, NOTHING_READ, ses);
    if p.None? || !Complete(p.value, ses) then None else Some(Munged(p.value, ses))
  }

  /** bgp_attr_parse: the loop over the attributes, the check for missing ones and
      the 4-octet attributes. */
  method AttrParse(d: seq<byte>, ses: Session) returns (r: Option<Attrs>)
    ensures r == Receive(d, ses)
  {
    var rest, p := d, NOTHING_READ;
    ghost var all := ParseAll(d, NOTHING_READ, ses);
    while rest != []
      invariant ParseAll(rest, p, ses) == all
      decreases |rest|
    {
      var first := FirstTlv(rest);
      if first.None? {
        return None;
      }
      var t := first.value.0;
      if t.code in p.seen {
        return None;
      }
      p := p.(seen := p.seen + {t.code});
      if FlagInvalid(t.code, t.flags) {
        return None;
      }
      var next := ParseValue(t.code, t.value, p, ses);
      if next.None? {
        return None;
      }
      p, rest := next.value, first.value.1;
    }
    if !Complete(p, ses) {
      return None;
    }
    var attrs := p.attrs;
    if attrs.path.Some? && !ses.wide {
      var ignore := false;
      if p.as4Aggregator.Some? {
        if attrs.aggregator.Some? {
          if attrs.aggregator.value.asn != AS_TRANS {
            ignore := true;
          } else {
            attrs := attrs.(aggregator := p.as4Aggregator);
          }
        } else {
          attrs := attrs.(aggregator := Some(Aggregator(p.as4Aggregator.value.asn, 0)));
        }
      }
      if !ignore && p.as4Path.Some? {
        var newpath := ReconcileAs4(attrs.path.value, p.as4Path.value);
        attrs := attrs.(path := Some(newpath));
      }
    }
    r := Some(attrs);
  }
}
