/** The Babel update codec: really_send_update compresses against what it has
    already put into the packet, parse_packet decompresses against what it has
    already taken out of it. */
module BabelCodec {
  import opened Wrappers
  import opened Bytes
  import opened BabelPrefix
  import opened TlvLoop

  const MESSAGE_ROUTER_ID: byte := 6
  const MESSAGE_NH: byte := 7
  const MESSAGE_UPDATE: byte := 8
  const DIVERSITY_HOPS := 8

  type Id = s: seq<byte> | |s| == 8 witness Zeros(8)
  type V4Addr = s: seq<byte> | |s| == 4 witness Zeros(4)

  /** v4tov6. */
  function FromV4(a: V4Addr): Addr {
    V4_PREFIX + a
  }

  // ----- Receiver -----

  /** What parse_packet carries from one TLV to the next. */
  datatype Defaults = Defaults(
    id: Option<Id>, v4Prefix: Option<Addr>, v6Prefix: Option<Addr>, v4Nh: Option<Addr>, v6Nh: Option<Addr>)

  const NO_DEFAULTS := Defaults(None, None, None, None, None)

  /** What it hands on: an update, or a wildcard retraction. */
  datatype Event =
    | Heard(id: Id, prefix: Addr, plen: nat, seqno: nat, metric: nat, interval: nat, nexthop: Addr)
    | RetractAll

  /** Who sent the packet, and whether the interface has an IPv4 address. */
  datatype Rx = Rx(from: Addr, ipv4: bool)

  predicate Flag(flags: byte, mask: nat)
    requires mask > 0
  {
    flags / mask % 2 == 1
  }

  /** A TLV's effect on the defaults, and what it reports.  `m` starts at the
      TLV's type octet. */
  function OnRouterId(d: Defaults, m: seq<byte>): Defaults {
    if At(m, 1) < 10 then d.(id := None) else d.(id := Some(Slice(m, 4, 8)))
  }

  function OnNextHop(d: Defaults, m: seq<byte>): Defaults {
    if At(m, 1) < 2 then d.(v4Nh := None, v6Nh := None)
    else
      match NetworkPrefix(At(m, 2), -1, 0, Drop(m, 4), None, At(m, 1) - 2)
      case None => d.(v4Nh := None, v6Nh := None)
      case Some((_, a)) => if At(m, 2) == 1 then d.(v4Nh := Some(a)) else d.(v6Nh := Some(a))
  }

  /** The prefix an update TLV carries.  The test for a usable default looks at
      the flags octet where it means the address encoding. */
  function UpdatePrefix(d: Defaults, m: seq<byte>): Option<(nat, Addr)>
    requires At(m, 1) >= 10
  {
    if At(m, 5) == 0 || (if At(m, 3) == 1 then d.v4Prefix.Some? else d.v6Prefix.Some?)
    then NetworkPrefix(At(m, 2), At(m, 4), At(m, 5), Drop(m, 12),
                       if At(m, 2) == 1 then d.v4Prefix else d.v6Prefix, At(m, 1) - 10)
    else None
  }

  function ForgetPrefixes(d: Defaults): Defaults {
    d.(v4Prefix := None, v6Prefix := None)
  }

  /** The router-id an update implies for the updates after it. */
  function ImpliedId(v4: bool, p: Addr): Id {
    if v4 then Zeros(4) + p[12..] else p[8..]
  }

  function AfterUpdate(d: Defaults, m: seq<byte>, p: Addr): Defaults {
    var v4 := At(m, 2) == 1;
    var d1 := if !Flag(At(m, 3), 0x80) then d
              else if v4 then d.(v4Prefix := Some(p)) else d.(v6Prefix := Some(p));
    if Flag(At(m, 3), 0x40) then d1.(id := Some(ImpliedId(v4, p))) else d1
  }

  function OnUpdate(d: Defaults, m: seq<byte>, rx: Rx): (Defaults, seq<Event>) {
    if At(m, 1) < 10 then
      (if At(m, 1) < 2 || Flag(At(m, 3), 0x80) then ForgetPrefixes(d) else d, [])
    else
      match UpdatePrefix(d, m)
      case None => (if Flag(At(m, 3), 0x80) then ForgetPrefixes(d) else d, [])
      case Some((_, p)) =>
        var ae := At(m, 2);
        var d1 := AfterUpdate(d, m, p);
        var metric := Get16(m, 10);
        if ae == 0 then (d1, if metric < 0xFFFF then [] else [RetractAll])
        else if d1.id.None? then (d1, [])
        else if ae == 1 && (d1.v4Nh.None? || !rx.ipv4) then (d1, [])
        else
          var nh := if ae == 1 then d1.v4Nh.value else if d1.v6Nh.Some? then d1.v6Nh.value else rx.from;
          (d1, [Heard(d1.id.value, p, At(m, 4) + (if ae == 1 then 96 else 0),
                      Get16(m, 8), metric, Get16(m, 6), nh)])
  }

  /** Every other TLV leaves the defaults alone. */
  function OnTlv(d: Defaults, m: seq<byte>, rx: Rx): (Defaults, seq<Event>) {
    if At(m, 0) == MESSAGE_ROUTER_ID then (OnRouterId(d, m), [])
    else if At(m, 0) == MESSAGE_NH then (OnNextHop(d, m), [])
    else if At(m, 0) == MESSAGE_UPDATE then OnUpdate(d, m, rx)
    else (d, [])
  }

  function Babel(rx: Rx): Handler<Defaults, Event> {
    (d: Defaults, m: seq<byte>) => OnTlv(d, m, rx)
  }

  /** The body of a packet from one TLV boundary on. */
  function Parse(body: seq<byte>, d: Defaults, rx: Rx): (Defaults, seq<Event>) {
    Run(Babel(rx), body, d)
  }

  /** A link-local address begins with FE80::/64. */
  predicate LinkLocal(a: Addr) {
    a[..8] == [0xFE, 0x80, 0, 0, 0, 0, 0, 0]
  }

  /** parse_packet. */
  method ParsePacket(packet: seq<byte>, rx: Rx) returns (events: seq<Event>)
    ensures LinkLocal(rx.from) && |packet| >= 4 && packet[0] == 42 && packet[1] == 2 ==>
              if Get16(packet, 2) + 4 <= |packet|
              then events == Parse(packet[4..4 + Get16(packet, 2)], NO_DEFAULTS, rx).1
              else events == Parse(packet[4..], NO_DEFAULTS, rx).1
    ensures !LinkLocal(rx.from) || |packet| < 4 || At(packet, 0) != 42 || At(packet, 1) != 2 ==> events == []
  {
    if !LinkLocal(rx.from) {
      return [];
    }
    if At(packet, 0) != 42 || At(packet, 1) != 2 {
      return [];
    }
    var bodylen: int := Get16(packet, 2);
    if bodylen + 4 > |packet| {
      bodylen := |packet| - 4;
    }
    var body := if bodylen <= 0 then [] else packet[4..4 + bodylen];
    assert |packet| >= 4 && bodylen == |packet| - 4 ==> body == packet[4..];
    events := Loop(Babel(rx), body, NO_DEFAULTS);
  }

  // ----- Sender -----

  /** What really_send_update remembers of the packet it is filling. */
  datatype Caches = Caches(id: Option<Id>, nh: Option<V4Addr>, prefix: Option<Addr>)

  const NO_CACHES := Caches(None, None, None)

  /** One call of really_send_update that passes the output filter. */
  datatype Announcement = Announcement(
    id: Id, prefix: Addr, plen: nat, seqno: nat, metric: nat, channels: Option<seq<byte>>)

  /** The sending interface. */
  datatype Tx = Tx(ipv4: V4Addr, interval: nat)

  predicate Sendable(a: Announcement) {
    && Masked(a.prefix, a.plen)
    && a.seqno < 0x10000 && a.metric < 0x10000
    && (a.channels.Some? ==> |a.channels.value| <= DIVERSITY_HOPS)
  }

  predicate IsV4(a: Announcement) {
    a.plen >= 96 && V4Mapped(a.prefix)
  }

  function RealPlen(a: Announcement): nat {
    if IsV4(a) then a.plen - 96 else a.plen
  }

  /** Octets of the prefix that are significant. */
  function Octets(a: Announcement): (n: nat)
    ensures a.plen <= 128 ==> n <= 16
  {
    (RealPlen(a) + 7) / 8
  }

  /** The loop that counts leading octets equal to the cached prefix. */
  function CommonHead(a: Addr, b: Addr, limit: nat, from: nat): (n: nat)
    requires from <= limit <= 16
    ensures from <= n <= limit
    decreases limit - from
  {
    if from == limit || a[from] != b[from] then from else CommonHead(a, b, limit, from + 1)
  }

  lemma {:induction false} CommonHeadShared(a: Addr, b: Addr, limit: nat, from: nat)
    requires from <= limit <= 16 && a[..from] == b[..from]
    ensures a[..CommonHead(a, b, limit, from)] == b[..CommonHead(a, b, limit, from)]
    decreases limit - from
  {
    if from < limit && a[from] == b[from] {
      assert a[..from + 1] == a[..from] + [a[from]] && b[..from + 1] == b[..from] + [b[from]];
      CommonHeadShared(a, b, limit, from + 1);
    }
  }

  function Omitted(c: Caches, a: Announcement): nat
    requires a.plen <= 128
  {
    if IsV4(a) || c.prefix.None? then 0 else CommonHead(c.prefix.value, a.prefix, a.plen / 8, 0)
  }

  predicate SetsPrefix(c: Caches, a: Announcement) {
    !IsV4(a) && (c.prefix.None? || a.plen >= 48)
  }

  predicate ImpliesId(c: Caches, a: Announcement) {
    c.id != Some(a.id) && RealPlen(a) == 128 && a.prefix[8..] == a.id
  }

  function NextHopTlv(c: Caches, a: Announcement, tx: Tx): seq<byte> {
    if IsV4(a) && c.nh != Some(tx.ipv4) then [MESSAGE_NH, 6, 1, 0] + tx.ipv4 else []
  }

  function RouterIdTlv(c: Caches, a: Announcement): seq<byte> {
    if c.id != Some(a.id) && !ImpliesId(c, a) then [MESSAGE_ROUTER_ID, 10, 0, 0] + a.id else []
  }

  function ChannelsTlv(a: Announcement): (s: seq<byte>)
    requires Sendable(a)
    ensures |s| <= DIVERSITY_HOPS + 2
  {
    if a.channels.Some? then [2, |a.channels.value|] + a.channels.value else []
  }

  function PrefixOctets(c: Caches, a: Announcement): (s: seq<byte>)
    requires Sendable(a)
    ensures |s| == Octets(a) - Omitted(c, a)
  {
    if IsV4(a) then a.prefix[12..12 + Octets(a)] else a.prefix[Omitted(c, a)..Octets(a)]
  }

  function Flags(c: Caches, a: Announcement): byte {
    (if SetsPrefix(c, a) then 0x80 else 0) + (if ImpliesId(c, a) then 0x40 else 0)
  }

  function UpdateHead(c: Caches, a: Announcement, tx: Tx): (s: seq<byte>)
    requires Sendable(a)
    ensures |s| == 12
  {
    [MESSAGE_UPDATE, 10 + Octets(a) - Omitted(c, a) + |ChannelsTlv(a)|,
     if IsV4(a) then 1 else 2, Flags(c, a), RealPlen(a), Omitted(c, a)]
    + Put16((tx.interval + 5) / 10) + Put16(a.seqno) + Put16(a.metric)
  }

  function UpdateTlv(c: Caches, a: Announcement, tx: Tx): seq<byte>
    requires Sendable(a)
  {
    UpdateHead(c, a, tx) + PrefixOctets(c, a) + ChannelsTlv(a)
  }

  /** The octets really_send_update appends. */
  function Encode(c: Caches, a: Announcement, tx: Tx): seq<byte>
    requires Sendable(a)
  {
    NextHopTlv(c, a, tx) + RouterIdTlv(c, a) + UpdateTlv(c, a, tx)
  }

  function AfterEncode(c: Caches, a: Announcement, tx: Tx): Caches {
    Caches(Some(a.id),
           if IsV4(a) then Some(tx.ipv4) else c.nh,
           if SetsPrefix(c, a) then Some(a.prefix) else c.prefix)
  }

  /** send_wildcard_retraction. */
  function EncodeWildcard(seqno: nat): seq<byte> {
    [MESSAGE_UPDATE, 10, 0, 0x40, 0, 0] + Put16(0xFFFF) + Put16(seqno) + Put16(0xFFFF)
  }

  /** An update never outgrows the 60 octets ensure_space asks for. */
  lemma {:induction false} EncodeFits(c: Caches, a: Announcement, tx: Tx)
    requires Sendable(a)
    ensures |Encode(c, a, tx)| <= 58
  {}

  // ----- The sender's caches and the receiver's defaults agree -----

  /** Whatever the sender relies on, the receiver knows, and the same. */
  predicate Agree(c: Caches, d: Defaults) {
    && (c.id.Some? ==> d.id == c.id)
    && (c.nh.Some? ==> d.v4Nh == Some(FromV4(c.nh.value)))
    && (c.prefix.Some? ==> d.v6Prefix == c.prefix && !V4Mapped(c.prefix.value))
    && d.v6Nh.None?
  }

  /** What the receiver should report for an announcement. */
  function Meaning(a: Announcement, tx: Tx, rx: Rx): Event {
    Heard(a.id, a.prefix, a.plen, a.seqno, a.metric, (tx.interval + 5) / 10 % 0x10000,
          if IsV4(a) then FromV4(tx.ipv4) else rx.from)
  }

  /** What it does report: nothing for an IPv4 prefix where it has no IPv4 address. */
  function Reported(a: Announcement, tx: Tx, rx: Rx): seq<Event> {
    if IsV4(a) && !rx.ipv4 then [] else [Meaning(a, tx, rx)]
  }

  /** A well-formed TLV is handled and skipped whole. */
  lemma {:induction false} ParseTlv(tlv: seq<byte>, rest: seq<byte>, d: Defaults, rx: Rx)
    requires |tlv| >= 2 && tlv[0] != MESSAGE_PAD1 && |tlv| - 2 == tlv[1]
    ensures var (d1, ev) := OnTlv(d, tlv + rest, rx);
            var (d2, evs) := Parse(rest, d1, rx);
            Parse(tlv + rest, d, rx) == (d2, ev + evs)
  {
    RunTlv(Babel(rx), tlv, rest, d);
  }

  lemma {:induction false} NextHopHeard(c: Caches, a: Announcement, tx: Tx, rest: seq<byte>, d: Defaults, rx: Rx)
    returns (d1: Defaults)
    requires Agree(c, d)
    ensures Agree(c.(nh := if IsV4(a) then Some(tx.ipv4) else c.nh), d1)
    ensures Parse(NextHopTlv(c, a, tx) + rest, d, rx) == Parse(rest, d1, rx)
  {
    var tlv := NextHopTlv(c, a, tx);
    if tlv == [] {
      assert [] + rest == rest;
      d1 := d;
    } else {
      var m := tlv + rest;
      ParseTlv(tlv, rest, d, rx);
      assert Drop(m, 4)[..4] == tx.ipv4;
      var raw := FromV4(tx.ipv4);
      assert V4_PREFIX + Slice(Drop(m, 4), 0, 4) + Zeros(0) == raw;
      assert NetworkPrefix(1, -1, 0, Drop(m, 4), None, 4) == Some((4, raw));
      d1 := OnNextHop(d, m);
      assert d1 == d.(v4Nh := Some(raw));
      var (d2, evs) := Parse(rest, d1, rx);
      assert [] + evs == evs;
    }
  }

  lemma {:induction false} RouterIdHeard(c: Caches, a: Announcement, rest: seq<byte>, d: Defaults, rx: Rx)
    returns (d1: Defaults)
    requires Agree(c, d)
    ensures Agree(c.(id := if ImpliesId(c, a) then None else Some(a.id)), d1)
    ensures Parse(RouterIdTlv(c, a) + rest, d, rx) == Parse(rest, d1, rx)
  {
    var tlv := RouterIdTlv(c, a);
    if tlv == [] {
      assert [] + rest == rest;
      d1 := d;
    } else {
      var m := tlv + rest;
      ParseTlv(tlv, rest, d, rx);
      assert Slice(m, 4, 8) == m[4..12] == a.id;
      d1 := OnRouterId(d, m);
      var (d2, evs) := Parse(rest, d1, rx);
      assert [] + evs == evs;
    }
  }

  lemma {:induction false} UpdateHeadRead(c: Caches, a: Announcement, tx: Tx, m: seq<byte>)
    requires Sendable(a) && |m| >= 12 && m[..12] == UpdateHead(c, a, tx)
    ensures At(m, 0) == MESSAGE_UPDATE && At(m, 1) == 10 + Octets(a) - Omitted(c, a) + |ChannelsTlv(a)|
    ensures At(m, 2) == (if IsV4(a) then 1 else 2) && At(m, 3) == Flags(c, a)
    ensures At(m, 4) == RealPlen(a) && At(m, 5) == Omitted(c, a)
    ensures Get16(m, 6) == (tx.interval + 5) / 10 % 0x10000 && Get16(m, 8) == a.seqno && Get16(m, 10) == a.metric
  {
    var h := UpdateHead(c, a, tx);
    assert forall k :: 0 <= k < 12 ==> At(m, k) == m[..12][k] == h[k];
    Put16Get(a.seqno, m, 8);
    Put16Get(a.metric, m, 10);
    var iv := (tx.interval + 5) / 10;
    assert At(m, 6) == iv / 256 % 256 && At(m, 7) == iv % 256;
    IntervalImage(iv);
  }

  lemma {:induction false} IntervalImage(v: nat)
    ensures v / 256 % 256 * 256 + v % 256 == v % 0x10000
  {
    var q := v / 256;
    assert v == (q / 256) * 0x10000 + (q % 256 * 256 + v % 256);
  }

  /** An update TLV: its head, then the octets of the prefix, then the rest. */
  lemma {:induction false} UpdateTlvLayout(c: Caches, a: Announcement, tx: Tx, rest: seq<byte>)
    requires Sendable(a)
    ensures var m := UpdateTlv(c, a, tx) + rest;
            && |m| >= 12 && m[..12] == UpdateHead(c, a, tx)
            && |Drop(m, 12)| >= |PrefixOctets(c, a)|
            && Drop(m, 12)[..|PrefixOctets(c, a)|] == PrefixOctets(c, a)
  {
    var m := UpdateTlv(c, a, tx) + rest;
    assert m == UpdateHead(c, a, tx) + (PrefixOctets(c, a) + (ChannelsTlv(a) + rest));
    assert Drop(m, 12) == PrefixOctets(c, a) + (ChannelsTlv(a) + rest);
  }

  lemma {:induction false} PrefixV4Heard(a: Announcement, m: seq<byte>, d: Defaults, n: nat)
    requires Masked(a.prefix, a.plen) && IsV4(a) && n == (a.plen - 96 + 7) / 8
    requires At(m, 1) >= 10 + n && At(m, 2) == 1 && At(m, 4) == a.plen - 96 && At(m, 5) == 0
    requires |Drop(m, 12)| >= n && Drop(m, 12)[..n] == a.prefix[12..12 + n]
    ensures UpdatePrefix(d, m) == Some((n, a.prefix))
  {
    CompressedV4(a.prefix, a.plen, d.v4Prefix, Drop(m, 12), At(m, 1) - 10);
  }

  lemma {:induction false} UpdatePrefixV6(d: Defaults, m: seq<byte>, plen: byte, o: byte, len: nat)
    requires At(m, 1) - 10 == len && At(m, 2) == 2 && At(m, 3) != 1 && At(m, 4) == plen && At(m, 5) == o
    requires o > 0 ==> d.v6Prefix.Some?
    ensures UpdatePrefix(d, m) == NetworkPrefix(2, plen, o, Drop(m, 12), d.v6Prefix, len)
  {}

  /** Masked prefix p sent with its first o octets left out. */
  lemma {:induction false} V6Heard(p: Addr, plen: byte, o: byte, m: seq<byte>, d: Defaults)
    requires Masked(p, plen) && o <= plen / 8
    requires o > 0 ==> d.v6Prefix.Some? && !V4Mapped(d.v6Prefix.value) && d.v6Prefix.value[..o] == p[..o]
    requires At(m, 1) >= 10 + (plen + 7) / 8 - o && At(m, 2) == 2 && At(m, 3) != 1 && At(m, 4) == plen && At(m, 5) == o
    requires |Drop(m, 12)| >= (plen + 7) / 8 - o && Drop(m, 12)[..(plen + 7) / 8 - o] == p[o..(plen + 7) / 8]
    ensures UpdatePrefix(d, m) == Some(((plen + 7) / 8 - o, p))
  {
    CompressedV6(p, plen, o, d.v6Prefix, Drop(m, 12), At(m, 1) - 10);
    UpdatePrefixV6(d, m, plen, o, At(m, 1) - 10);
  }

  lemma {:induction false} PrefixV6Heard(c: Caches, a: Announcement, m: seq<byte>, d: Defaults, o: byte, n: nat)
    requires Masked(a.prefix, a.plen) && !IsV4(a) && o == Omitted(c, a) && n == (a.plen + 7) / 8
    requires c.prefix.Some? ==> d.v6Prefix == c.prefix && !V4Mapped(c.prefix.value)
    requires o <= n && At(m, 1) >= 10 + n - o && At(m, 2) == 2 && At(m, 3) != 1 && At(m, 4) == a.plen && At(m, 5) == o
    requires |Drop(m, 12)| >= n - o && Drop(m, 12)[..n - o] == a.prefix[o..n]
    ensures UpdatePrefix(d, m) == Some((n - o, a.prefix))
  {
    OmittedIsShared(c, a);
    if o > 0 {
      assert d.v6Prefix == c.prefix && c.prefix.value[..o] == a.prefix[..o];
    }
    V6Heard(a.prefix, a.plen, o, m, d);
  }

  lemma {:induction false} OmittedIsShared(c: Caches, a: Announcement)
    requires a.plen <= 128 && !IsV4(a)
    ensures Omitted(c, a) <= a.plen / 8
    ensures Omitted(c, a) > 0 ==> c.prefix.Some? && c.prefix.value[..Omitted(c, a)] == a.prefix[..Omitted(c, a)]
  {
    if c.prefix.Some? {
      CommonHeadShared(c.prefix.value, a.prefix, a.plen / 8, 0);
    }
  }

  /** The prefix is read back from the update TLV. */
  lemma {:induction false} PrefixHeard(c: Caches, a: Announcement, tx: Tx, rest: seq<byte>, d: Defaults)
    requires Sendable(a)
    requires c.prefix.Some? ==> d.v6Prefix == c.prefix && !V4Mapped(c.prefix.value)
    ensures var m := UpdateTlv(c, a, tx) + rest;
            At(m, 1) >= 10 && UpdatePrefix(d, m) == Some((|PrefixOctets(c, a)|, a.prefix))
  {
    var m := UpdateTlv(c, a, tx) + rest;
    UpdateTlvLayout(c, a, tx, rest);
    UpdateHeadRead(c, a, tx, m);
    FlagsReadBack(c, a);
    if IsV4(a) {
      PrefixV4Heard(a, m, d, Octets(a));
    } else {
      PrefixV6Heard(c, a, m, d, Omitted(c, a), Octets(a));
    }
  }

  /** The update TLV itself, once next hop and router-id are known. */
  lemma {:induction false} UpdateHeard(c: Caches, a: Announcement, tx: Tx, rest: seq<byte>, d: Defaults, rx: Rx)
    returns (d1: Defaults)
    requires Sendable(a)
    requires Agree(c.(id := if ImpliesId(c, a) then None else Some(a.id),
                      nh := if IsV4(a) then Some(tx.ipv4) else c.nh), d)
    ensures Agree(AfterEncode(c, a, tx), d1)
    ensures Parse(UpdateTlv(c, a, tx) + rest, d, rx)
            == (Parse(rest, d1, rx).0, Reported(a, tx, rx) + Parse(rest, d1, rx).1)
  {
    var tlv := UpdateTlv(c, a, tx);
    var m := tlv + rest;
    UpdateTlvLayout(c, a, tx, rest);
    UpdateHeadRead(c, a, tx, m);
    PrefixHeard(c, a, tx, rest, d);
    d1 := AfterUpdate(d, m, a.prefix);
    UpdateAgrees(c, a, tx, m, d);
    UpdateReported(c, a, tx, m, d1, d, rx, |PrefixOctets(c, a)|);
    ParseTlv(tlv, rest, d, rx);
  }

  /** The update handler once the prefix is read and a router-id is known. */
  lemma {:induction false} UpdateEvents(d: Defaults, m: seq<byte>, rx: Rx, n: nat, p: Addr)
    requires At(m, 0) == MESSAGE_UPDATE && At(m, 1) >= 10 && At(m, 2) != 0
    requires UpdatePrefix(d, m) == Some((n, p)) && AfterUpdate(d, m, p).id.Some?
    ensures var d1 := AfterUpdate(d, m, p);
            var nh := if At(m, 2) == 1 then d1.v4Nh else Some(if d1.v6Nh.Some? then d1.v6Nh.value else rx.from);
            OnTlv(d, m, rx) == (d1,
              if nh.None? || (At(m, 2) == 1 && !rx.ipv4) then []
              else [Heard(d1.id.value, p, At(m, 4) + (if At(m, 2) == 1 then 96 else 0),
                          Get16(m, 8), Get16(m, 10), Get16(m, 6), nh.value)])
  {}

  /** What the receiver knows once the update is handled. */
  lemma {:induction false} UpdateAgrees(c: Caches, a: Announcement, tx: Tx, m: seq<byte>, d: Defaults)
    requires Masked(a.prefix, a.plen)
    requires Agree(c.(id := if ImpliesId(c, a) then None else Some(a.id),
                      nh := if IsV4(a) then Some(tx.ipv4) else c.nh), d)
    requires At(m, 2) == (if IsV4(a) then 1 else 2) && At(m, 3) == Flags(c, a)
    ensures Agree(AfterEncode(c, a, tx), AfterUpdate(d, m, a.prefix))
  {
    FlagsReadBack(c, a);
    if !IsV4(a) && a.plen < 96 {
      ShortNotMapped(a.prefix, a.plen);
    }
  }

  /** What the update handler then reports. */
  lemma {:induction false} UpdateReported(c: Caches, a: Announcement, tx: Tx, m: seq<byte>, d1: Defaults, d: Defaults,
                                          rx: Rx, n: nat)
    requires At(m, 0) == MESSAGE_UPDATE && At(m, 1) >= 10
    requires At(m, 2) == (if IsV4(a) then 1 else 2) && At(m, 4) == RealPlen(a)
    requires Get16(m, 6) == (tx.interval + 5) / 10 % 0x10000 && Get16(m, 8) == a.seqno && Get16(m, 10) == a.metric
    requires UpdatePrefix(d, m) == Some((n, a.prefix)) && d1 == AfterUpdate(d, m, a.prefix)
    requires Agree(AfterEncode(c, a, tx), d1)
    ensures OnTlv(d, m, rx) == (d1, Reported(a, tx, rx))
  {
    UpdateEvents(d, m, rx, n, a.prefix);
  }

  lemma {:induction false} FlagsReadBack(c: Caches, a: Announcement)
    ensures Flag(Flags(c, a), 0x80) <==> SetsPrefix(c, a)
    ensures Flag(Flags(c, a), 0x40) <==> ImpliesId(c, a)
    ensures Flags(c, a) != 1
  {}

  lemma {:induction false} Regroup4(a: seq<byte>, b: seq<byte>, c: seq<byte>, d: seq<byte>)
    ensures a + b + c + d == a + (b + (c + d))
  {}

  /** One update: whatever follows it in the packet, the receiver reports
      exactly that update and stays in agreement with the sender, also when it
      has no IPv4 address and drops an IPv4 update. */
  lemma {:induction false} EncodedIsHeard(c: Caches, a: Announcement, tx: Tx, rest: seq<byte>, d: Defaults, rx: Rx)
    returns (d1: Defaults)
    requires Sendable(a) && Agree(c, d)
    ensures Agree(AfterEncode(c, a, tx), d1)
    ensures Parse(Encode(c, a, tx) + rest, d, rx)
            == (Parse(rest, d1, rx).0, Reported(a, tx, rx) + Parse(rest, d1, rx).1)
  {
    var t1, t2, t3 := NextHopTlv(c, a, tx), RouterIdTlv(c, a), UpdateTlv(c, a, tx);
    Regroup4(t1, t2, t3, rest);
    var e1 := NextHopHeard(c, a, tx, t2 + (t3 + rest), d, rx);
    var c1 := c.(nh := if IsV4(a) then Some(tx.ipv4) else c.nh);
    assert RouterIdTlv(c1, a) == t2;
    var e2 := RouterIdHeard(c1, a, t3 + rest, e1, rx);
    d1 := UpdateHeard(c, a, tx, rest, e2, rx);
  }

  /** A wildcard retraction is reported, and the router-id it implies is one
      the sender no longer relies on. */
  lemma {:induction false} WildcardIsHeard(c: Caches, seqno: nat, rest: seq<byte>, d: Defaults, rx: Rx)
    returns (d1: Defaults)
    requires Agree(c, d)
    ensures Agree(c.(id := None), d1)
    ensures Parse(EncodeWildcard(seqno) + rest, d, rx) == (Parse(rest, d1, rx).0, [RetractAll] + Parse(rest, d1, rx).1)
  {
    var tlv := EncodeWildcard(seqno);
    var m := tlv + rest;
    ParseTlv(tlv, rest, d, rx);
    assert At(m, 3) == 0x40 && At(m, 5) == 0 && Get16(m, 10) == 0xFFFF;
    d1 := AfterUpdate(d, m, MaskPrefix(Zeros(16), 0));
  }

  // ----- Whole packets -----

  /** What a packet is filled with: updates, each with the interface state at
      the time, and wildcard retractions. */
  datatype Item = Up(a: Announcement, tx: Tx) | Wildcard(seqno: nat)

  predicate SendableItem(i: Item) {
    i.Up? ==> Sendable(i.a)
  }

  predicate SendableItems(items: seq<Item>) {
    forall k :: 0 <= k < |items| ==> SendableItem(items[k])
  }

  function EncodeItem(c: Caches, i: Item): seq<byte>
    requires SendableItem(i)
  {
    match i
    case Up(a, tx) => Encode(c, a, tx)
    case Wildcard(seqno) => EncodeWildcard(seqno)
  }

  function AfterItem(c: Caches, i: Item): Caches {
    match i
    case Up(a, tx) => AfterEncode(c, a, tx)
    case Wildcard(_) => c.(id := None)
  }

  function CachesAfter(items: seq<Item>): Caches {
    if items == [] then NO_CACHES else AfterItem(CachesAfter(items[..|items| - 1]), items[|items| - 1])
  }

  /** The body of a packet filled with the items, in order. */
  function Body(items: seq<Item>): seq<byte>
    requires SendableItems(items)
  {
    if items == [] then []
    else Body(items[..|items| - 1]) + EncodeItem(CachesAfter(items[..|items| - 1]), items[|items| - 1])
  }

  function ItemEvents(i: Item, rx: Rx): seq<Event> {
    match i
    case Up(a, tx) => Reported(a, tx, rx)
    case Wildcard(_) => [RetractAll]
  }

  function Meanings(items: seq<Item>, rx: Rx): seq<Event> {
    if items == [] then [] else Meanings(items[..|items| - 1], rx) + ItemEvents(items[|items| - 1], rx)
  }

  lemma {:induction false} ItemIsHeard(c: Caches, i: Item, rest: seq<byte>, d: Defaults, rx: Rx)
    returns (d1: Defaults)
    requires SendableItem(i) && Agree(c, d)
    ensures Agree(AfterItem(c, i), d1)
    ensures Parse(EncodeItem(c, i) + rest, d, rx) == (Parse(rest, d1, rx).0, ItemEvents(i, rx) + Parse(rest, d1, rx).1)
  {
    match i
    case Up(a, tx) => d1 := EncodedIsHeard(c, a, tx, rest, d, rx);
    case Wildcard(seqno) => d1 := WildcardIsHeard(c, seqno, rest, d, rx);
  }

  lemma {:induction false} BodySnoc(items: seq<Item>, rest: seq<byte>)
    requires SendableItems(items) && items != []
    ensures var n := |items| - 1;
            Body(items) + rest == Body(items[..n]) + (EncodeItem(CachesAfter(items[..n]), items[n]) + rest)
  {
    var n := |items| - 1;
    RegroupBytes(Body(items[..n]), EncodeItem(CachesAfter(items[..n]), items[n]), rest);
  }

  lemma {:induction false} RegroupBytes(a: seq<byte>, b: seq<byte>, c: seq<byte>)
    ensures a + b + c == a + (b + c)
  {}

  lemma {:induction false} BodyIsHeard(items: seq<Item>, rest: seq<byte>, rx: Rx)
    returns (d1: Defaults)
    requires SendableItems(items)
    ensures Agree(CachesAfter(items), d1)
    ensures Parse(Body(items) + rest, NO_DEFAULTS, rx).1 == Meanings(items, rx) + Parse(rest, d1, rx).1
    decreases |items|
  {
    if items == [] {
      d1 := NO_DEFAULTS;
      assert Body(items) + rest == rest;
    } else {
      var n := |items| - 1;
      var init, last := items[..n], items[n];
      var enc := EncodeItem(CachesAfter(init), last);
      BodySnoc(items, rest);
      var d0 := BodyIsHeard(init, enc + rest, rx);
      d1 := ItemIsHeard(CachesAfter(init), last, rest, d0, rx);
      Regroup(Meanings(init, rx), ItemEvents(last, rx), Parse(rest, d1, rx).1);
    }
  }

  /** Round trip: a packet's body, parsed from empty defaults, yields exactly
      what was put into it: same router-ids, prefixes, lengths, sequence
      numbers, metrics and next hops, in the same order, and nothing else; only
      a receiver without an IPv4 address reports no IPv4 prefix. */
  lemma {:induction false} PacketRoundTrip(items: seq<Item>, rx: Rx)
    requires SendableItems(items)
    ensures Parse(Body(items), NO_DEFAULTS, rx).1 == Meanings(items, rx)
  {
    var d := BodyIsHeard(items, [], rx);
    assert Body(items) + [] == Body(items);
  }
}
