/** The octets of what babeld sends, as sections 4.2, 4.4.7, 4.4.8 and 4.4.9 of RFC 6126
    lay them out. */
module BabelLayout {
  import opened Wrappers
  import opened Bytes
  import opened BabelPrefix
  import opened TlvLoop
  import opened BabelCodec
  import opened BabelSender

  /** Two octets in network order at a place. */
  predicate Word(d: seq<byte>, i: nat, v: nat) {
    i + 1 < |d| && 256 * (d[i] as int) + d[i + 1] as int == v % 0x10000
  }

  lemma {:induction false} WordOf(v: nat)
    ensures Word(Put16(v), 0, v)
  {
    var q := v / 256;
    Remainder(v, q / 256, q % 256 * 256 + v % 256);
  }

  lemma {:induction false} Remainder(v: nat, k: nat, x: nat)
    requires v == k * 0x10000 + x && x < 0x10000
    ensures v % 0x10000 == x
  {
    assert v / 0x10000 == k;
  }

  /** A Router-Id TLV: type 6, length 10, two reserved octets, the id. */
  lemma {:induction false} RouterIdOctets(c: Caches, a: Announcement)
    ensures RouterIdTlv(c, a) != [] ==>
              var d := RouterIdTlv(c, a);
              |d| == 12 && d[0] == 6 && d[1] == 10 && d[2] == 0 && d[3] == 0 && d[4..12] == a.id
  {}

  /** A Next Hop TLV for IPv4: type 7, length 6, encoding 1, a reserved octet, the
      address. */
  lemma {:induction false} NextHopOctets(c: Caches, a: Announcement, tx: Tx)
    ensures NextHopTlv(c, a, tx) != [] ==>
              var d := NextHopTlv(c, a, tx);
              |d| == 8 && d[0] == 7 && d[1] == 6 && d[2] == 1 && d[3] == 0 && d[4..8] == tx.ipv4
  {}

  /** When each of the two is sent: a router-id that is neither known nor implied, and a
      next hop for an IPv4 prefix that is not known. */
  lemma {:induction false} SentWhenNew(c: Caches, a: Announcement, tx: Tx)
    requires a.plen <= 128
    ensures RouterIdTlv(c, a) != [] <==>
              c.id != Some(a.id) && !(a.plen == 128 && !V4Mapped(a.prefix) && a.prefix[8..] == a.id)
    ensures NextHopTlv(c, a, tx) != [] <==> a.plen >= 96 && V4Mapped(a.prefix) && c.nh != Some(tx.ipv4)
  {}

  /** An Update TLV: type 8, length, encoding, flags, prefix length, octets omitted, then
      interval, seqno and metric in two octets each, the octets of the prefix that are
      not omitted, and a sub-TLV of type 2 with the channels. */
  lemma {:induction false} UpdateOctets(c: Caches, a: Announcement, tx: Tx)
    requires Sendable(a)
    ensures var d := UpdateTlv(c, a, tx);
            var v4 := a.plen >= 96 && V4Mapped(a.prefix);
            var from, to := if v4 then 12 else Omitted(c, a), (a.plen + 7) / 8;
            && |d| >= 12 && d[0] == 8 && d[1] as int == |d| - 2
            && d[2] == (if v4 then 1 else 2)
            && d[4] as int == (if v4 then a.plen - 96 else a.plen) && d[5] as int == Omitted(c, a)
            && Word(d, 6, (tx.interval + 5) / 10) && Word(d, 8, a.seqno) && Word(d, 10, a.metric)
            && from <= to && |d| >= 12 + to - from && d[12..12 + to - from] == a.prefix[from..to]
            && d[12 + to - from..] == if a.channels.None? then [] else [2, |a.channels.value|] + a.channels.value
  {
    var d := UpdateTlv(c, a, tx);
    var h, p, s := UpdateHead(c, a, tx), PrefixOctets(c, a), ChannelsTlv(a);
    WordOf((tx.interval + 5) / 10);
    WordOf(a.seqno);
    WordOf(a.metric);
    OmittedIsShort(c, a);
    assert |h| == 12 && d[..12] == h;
    assert forall i :: 0 <= i < 12 ==> d[i] == h[i];
    assert d[12..12 + |p|] == p && d[12 + |p|..] == s;
  }

  lemma {:induction false} OmittedIsShort(c: Caches, a: Announcement)
    requires a.plen <= 128
    ensures Omitted(c, a) <= (a.plen + 7) / 8
  {}

  /** The flags: 128 when the prefix becomes the default, 64 when it gives the router-id. */
  lemma {:induction false} UpdateFlags(c: Caches, a: Announcement, tx: Tx)
    requires Sendable(a)
    ensures var v4 := a.plen >= 96 && V4Mapped(a.prefix);
            UpdateTlv(c, a, tx)[3] as int ==
              (if !v4 && (c.prefix.None? || a.plen >= 48) then 128 else 0)
              + (if c.id != Some(a.id) && !v4 && a.plen == 128 && a.prefix[8..] == a.id then 64 else 0)
  {
    var d, h := UpdateTlv(c, a, tx), UpdateHead(c, a, tx);
    assert d[..12] == h && d[3] == h[3];
  }

  /** A wildcard retraction: encoding 0, no prefix, infinite metric. */
  lemma {:induction false} WildcardOctets(seqno: nat)
    ensures var d := EncodeWildcard(seqno);
            && |d| == 12 && d[..6] == [8, 10, 0, 0x40, 0, 0]
            && Word(d, 6, 0xFFFF) && Word(d, 8, seqno) && Word(d, 10, 0xFFFF)
  {
    WordOf(0xFFFF);
    WordOf(seqno);
  }

  /** A packet: 42, version 2, the length of the body in two octets, the body. */
  lemma {:induction false} PacketOctets(items: seq<Item>)
    requires SendableItems(items)
    ensures var d := Packet(items);
            |d| >= 4 && d[0] == 42 && d[1] == 2 && Word(d, 2, |Body(items)|) && d[4..] == Body(items)
  {
    WordOf(|Body(items)|);
  }

  // ----- What is read -----

  /** Padding is skipped: single octets of 0, and TLVs of type 1 of any length; so are
      TLVs of types the receiver has no handler for. */
  lemma {:induction false} PaddingSkipped(rest: seq<byte>, other: byte, body: seq<byte>, d: Defaults, rx: Rx)
    requires other !in {0, 6, 7, 8} && |body| < 256
    ensures Parse([0] + rest, d, rx) == Parse(rest, d, rx)
    ensures Parse([other, |body|] + body + rest, d, rx) == Parse(rest, d, rx)
  {
    assert ([0] + rest)[1..] == rest;
    var tlv := [other, |body|] + body;
    ParseTlv(tlv, rest, d, rx);
    var (d2, evs) := Parse(rest, d, rx);
    assert [] + evs == evs;
  }

  /** A TLV is handled exactly when its length octet is at most the number of octets
      left, its own two included, so that one may claim two octets more than there are;
      a longer one ends the packet. */
  lemma {:induction false} HandledExactly(m: seq<byte>, d: Defaults, rx: Rx)
    requires |m| >= 2 && m[0] != 0
    ensures Parse(m, d, rx) ==
              if m[1] as int > |m| then (d, [])
              else
                var r := OnTlv(d, m, rx);
                var rest := if m[1] as int + 2 <= |m| then m[m[1] as int + 2..] else [];
                (Parse(rest, r.0, rx).0, r.1 + Parse(rest, r.0, rx).1)
  {}

  /** A malformed update is not reported; where it was to set the default prefixes, or
      is too short to tell, there are none afterwards. */
  lemma {:induction false} MalformedUpdate(d: Defaults, m: seq<byte>, rx: Rx)
    requires At(m, 0) == 8 && (At(m, 1) < 10 || UpdatePrefix(d, m).None?)
    ensures var (d', events) := OnTlv(d, m, rx);
            && events == [] && d'.id == d.id && d'.v4Nh == d.v4Nh && d'.v6Nh == d.v6Nh
            && if At(m, 1) < 2 || At(m, 3) >= 128 then d'.v4Prefix.None? && d'.v6Prefix.None? else d' == d
  {}

  /** What a well-formed update leaves for those after it. */
  lemma {:induction false} DefaultsAfter(d: Defaults, m: seq<byte>, rx: Rx, n: nat, p: Addr)
    requires At(m, 0) == 8 && At(m, 1) >= 10 && UpdatePrefix(d, m) == Some((n, p))
    ensures var d', flags, v4 := OnTlv(d, m, rx).0, At(m, 3) as int, At(m, 2) == 1;
            && d'.v4Prefix == (if flags / 128 % 2 == 1 && v4 then Some(p) else d.v4Prefix)
            && d'.v6Prefix == (if flags / 128 % 2 == 1 && !v4 then Some(p) else d.v6Prefix)
            && d'.id == (if flags / 64 % 2 == 0 then d.id
                         else if v4 then Some([0, 0, 0, 0] + p[12..]) else Some(p[8..]))
            && d'.v4Nh == d.v4Nh && d'.v6Nh == d.v6Nh
  {
    assert Zeros(4) == [0, 0, 0, 0];
  }

  /** Only an update under a known router-id is reported, an IPv4 one only with a next
      hop for IPv4. */
  lemma {:induction false} ReportedExactly(d: Defaults, m: seq<byte>, rx: Rx, n: nat, p: Addr)
    requires |m| >= 12 && m[0] == 8 && m[1] >= 10 && m[2] != 0 && UpdatePrefix(d, m) == Some((n, p))
    ensures var (d', events) := OnTlv(d, m, rx);
            if d'.id.Some? && (At(m, 2) == 1 ==> d.v4Nh.Some? && rx.ipv4)
            then
              && |events| == 1 && events[0].Heard?
              && var e := events[0];
                 && e.id == d'.id.value && e.prefix == p
                 && e.plen == At(m, 4) as int + (if At(m, 2) == 1 then 96 else 0)
                 && Word(m, 6, e.interval) && Word(m, 8, e.seqno) && Word(m, 10, e.metric)
                 && e.nexthop == (if At(m, 2) == 1 then d.v4Nh.value
                                  else if d.v6Nh.Some? then d.v6Nh.value else rx.from)
            else events == []
  {}

  /** An update without an address encoding retracts all the sender's routes, if its
      metric is infinite, and nothing otherwise. */
  lemma {:induction false} WildcardRead(d: Defaults, m: seq<byte>, rx: Rx)
    requires |m| >= 12 && m[0] == 8 && m[1] >= 10 && m[2] == 0 && UpdatePrefix(d, m).Some?
    ensures OnTlv(d, m, rx).1 == if m[10] == 255 && m[11] == 255 then [RetractAll] else []
  {}

  predicate NoHop(encoding: nat, n: int) {
    || n < 0 || encoding > 3
    || (encoding == 1 && n < 4) || (encoding == 2 && n < 16) || (encoding == 3 && n < 8)
  }

  /** A next hop by its encoding: four octets for IPv4, sixteen for IPv6, eight for a
      link-local address; a malformed one leaves none. */
  lemma {:induction false} NextHopRead(d: Defaults, m: seq<byte>, rx: Rx)
    requires At(m, 0) == 7
    ensures var d', n := OnTlv(d, m, rx).0, At(m, 1) as int - 2;
            && OnTlv(d, m, rx).1 == [] && (d'.id, d'.v4Prefix, d'.v6Prefix) == (d.id, d.v4Prefix, d.v6Prefix)
            && (At(m, 2) == 1 && n >= 4 && |m| >= 8 ==> d'.v4Nh == Some(V4_PREFIX + m[4..8]) && d'.v6Nh == d.v6Nh)
            && (At(m, 2) == 2 && n >= 16 && |m| >= 20 ==> d'.v6Nh == Some(m[4..20]) && d'.v4Nh == d.v4Nh)
            && (At(m, 2) == 3 && n >= 8 && |m| >= 12 ==>
                  d'.v6Nh == Some([0xFE, 0x80, 0, 0, 0, 0, 0, 0] + m[4..12]) && d'.v4Nh == d.v4Nh)
            && (NoHop(At(m, 2), n) ==> d'.v4Nh.None? && d'.v6Nh.None?)
  {
    var p := Drop(m, 4);
    if At(m, 2) == 1 && At(m, 1) >= 6 && |m| >= 8 {
      assert Slice(p, 0, 4) == m[4..8];
      assert V4_PREFIX + Slice(p, 0, 4) + Zeros(0) == V4_PREFIX + m[4..8];
    } else if At(m, 2) == 2 && At(m, 1) >= 18 && |m| >= 20 {
      assert Slice(p, 0, 16) == m[4..20];
      assert [] + Slice(p, 0, 16) + Zeros(0) == m[4..20];
    } else if At(m, 2) == 3 && At(m, 1) >= 10 && |m| >= 12 {
      assert Slice(p, 0, 8) == m[4..12];
      assert [0xFE, 0x80] + Zeros(6) + Slice(p, 0, 8) + Zeros(0) == [0xFE, 0x80, 0, 0, 0, 0, 0, 0] + m[4..12];
    }
  }
}
