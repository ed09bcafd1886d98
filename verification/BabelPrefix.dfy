/** Prefix algebra of babeld/util.c and network_prefix of babeld/message.c. */
module BabelPrefix {
  import opened Wrappers
  import opened Bytes

  type Addr = a: seq<byte> | |a| == 16 witness Zeros(16)

  /** ::ffff:0:0/96 */
  const V4_PREFIX: seq<byte> := [0, 0, 0, 0, 0, 0, 0, 0, 0, 0, 0xFF, 0xFF]

  predicate V4Mapped(a: Addr) {
    a[..12] == V4_PREFIX
  }

  /** 2^k for the bits of one octet. */
  function Pow2(k: nat): (p: nat)
    requires k <= 8
    ensures 1 <= p <= 256
  {
    [1, 2, 4, 8, 16, 32, 64, 128, 256][k]
  }

  /** The k high bits of an octet. */
  function HighBits(b: byte, k: nat): byte
    requires 0 < k < 8
  {
    b / Pow2(8 - k) * Pow2(8 - k)
  }

  function MaskedByte(p: Addr, plen: nat, i: nat): byte
    requires i < 16
  {
    if i < plen / 8 then p[i]
    else if i == plen / 8 && plen % 8 != 0 then HighBits(p[i], plen % 8)
    else 0
  }

  /** mask_prefix. */
  function MaskPrefix(p: Addr, plen: nat): Addr {
    if plen >= 128 then p else seq<byte>(16, i requires 0 <= i < 16 => MaskedByte(p, plen, i))
  }

  /** A prefix in the form the routing tables hold. */
  predicate Masked(p: Addr, plen: nat) {
    plen <= 128 && MaskPrefix(p, plen) == p
  }

  /** in_prefix. */
  predicate InPrefix(a: Addr, p: Addr, plen: nat) {
    var n := if plen > 128 then 128 else plen;
    a[..n / 8] == p[..n / 8]
    && (n % 8 == 0 || HighBits(a[n / 8], n % 8) == HighBits(p[n / 8], n % 8))
  }

  /** Masking is what membership compares: an address is in a prefix exactly
      when both mask to the same address. */
  lemma {:induction false} InPrefixIsEqualMask(a: Addr, p: Addr, plen: nat)
    ensures InPrefix(a, p, plen) <==> MaskPrefix(a, plen) == MaskPrefix(p, plen)
  {
    if plen >= 128 {
      assert a[..16] == a && p[..16] == p;
    } else {
      var ma, mp := MaskPrefix(a, plen), MaskPrefix(p, plen);
      var n := plen / 8;
      if InPrefix(a, p, plen) {
        forall i | 0 <= i < 16 ensures ma[i] == mp[i] {
          if i < n { assert a[i] == a[..n][i] == p[..n][i] == p[i]; }
        }
      }
      if ma == mp {
        forall i | 0 <= i < n ensures a[i] == p[i] { assert ma[i] == mp[i]; }
        if plen % 8 != 0 { assert ma[n] == mp[n]; }
      }
    }
  }

  /** A masked prefix is zero from its last significant octet on. */
  lemma {:induction false} MaskedTail(p: Addr, plen: nat, i: nat)
    requires Masked(p, plen) && (plen + 7) / 8 <= i < 16
    ensures p[i] == 0
  {
    assert plen < 128;
    assert MaskPrefix(p, plen)[i] == p[i];
  }

  /** A masked prefix shorter than 96 bits is never v4-mapped. */
  lemma {:induction false} ShortNotMapped(p: Addr, plen: nat)
    requires Masked(p, plen) && plen < 96
    ensures !V4Mapped(p)
  {
    assert MaskPrefix(p, plen)[11] == MaskedByte(p, plen, 11) != 0xFF;
    assert p[..12][11] == p[11];
  }

  /** Octets network_prefix reads for a prefix length. */
  function PrefixBytes(plen: int, ae: byte): int {
    if plen >= 0 then (plen + 7) / 8 else if ae == 1 then 4 else 16
  }

  /** network_prefix: the compressed prefix of an address-encoding, or nothing
      when it cannot be decoded.  `dp` is the prefix omitted octets come from.
      The first component is the number of octets read. */
  function NetworkPrefix(ae: byte, plen: int, omitted: nat, p: seq<byte>, dp: Option<Addr>, len: nat)
    : Option<(nat, Addr)>
    requires -1 <= plen < 256
  {
    var pb := PrefixBytes(plen, ae);
    if pb > 16 then None
    else if ae == 0 then
      Some((0, MaskPrefix(Zeros(16), if plen < 0 then 128 else plen)))
    else if ae == 1 then
      if omitted > 4 || pb > 4 || (pb > omitted && len < pb - omitted) then None
      else if omitted > 0 && (dp.None? || !V4Mapped(dp.value)) then None
      else if pb < omitted then None
      else
        var head: seq<byte> := if omitted > 0 then dp.value[..12 + omitted] else V4_PREFIX;
        var raw := head + Slice(p, 0, pb - omitted) + Zeros(4 - pb);
        Some((pb - omitted, MaskPrefix(raw, if plen < 0 then 128 else plen + 96)))
    else if ae == 2 then
      if omitted > 16 || (pb > omitted && len < pb - omitted) then None
      else if omitted > 0 && (dp.None? || V4Mapped(dp.value)) then None
      else if pb < omitted then None
      else
        var head: seq<byte> := if omitted > 0 then dp.value[..omitted] else [];
        var raw := head + Slice(p, 0, pb - omitted) + Zeros(16 - pb);
        Some((pb - omitted, MaskPrefix(raw, if plen < 0 then 128 else plen)))
    else if ae == 3 then
      if (pb > 8 && len < pb - 8) || pb < 8 then None
      else
        var raw := [0xFE, 0x80] + Zeros(6) + Slice(p, 0, pb - 8) + Zeros(16 - pb);
        Some((pb - 8, MaskPrefix(raw, if plen < 0 then 128 else plen)))
    else None
  }

  /** Sending the significant octets past a shared head gives the prefix back. */
  lemma {:induction false} CompressedV6(p: Addr, plen: nat, omitted: nat, dp: Option<Addr>, body: seq<byte>, len: nat)
    requires Masked(p, plen) && omitted <= plen / 8
    requires omitted > 0 ==> dp.Some? && !V4Mapped(dp.value) && dp.value[..omitted] == p[..omitted]
    requires |body| >= (plen + 7) / 8 - omitted && body[..(plen + 7) / 8 - omitted] == p[omitted..(plen + 7) / 8]
    requires len >= (plen + 7) / 8 - omitted
    ensures NetworkPrefix(2, plen, omitted, body, dp, len) == Some(((plen + 7) / 8 - omitted, p))
  {
    var pb := (plen + 7) / 8;
    var raw := (if omitted > 0 then dp.value[..omitted] else []) + Slice(body, 0, pb - omitted) + Zeros(16 - pb);
    forall i | 0 <= i < 16 ensures raw[i] == p[i] {
      if i < omitted {
        assert p[i] == p[..omitted][i];
      } else if i < pb {
        assert raw[i] == body[i - omitted] == body[..pb - omitted][i - omitted] == p[omitted..pb][i - omitted] == p[i];
      } else {
        MaskedTail(p, plen, i);
      }
    }
    assert raw == p;
  }

  lemma {:induction false} CompressedV4(p: Addr, plen: nat, dp: Option<Addr>, body: seq<byte>, len: nat)
    requires Masked(p, plen) && plen >= 96 && V4Mapped(p)
    requires var pb := (plen - 96 + 7) / 8;
             |body| >= pb && body[..pb] == p[12..12 + pb] && len >= pb
    ensures NetworkPrefix(1, plen - 96, 0, body, dp, len) == Some(((plen - 96 + 7) / 8, p))
  {
    var pb := (plen - 96 + 7) / 8;
    var raw := V4_PREFIX + Slice(body, 0, pb) + Zeros(4 - pb);
    forall i | 0 <= i < 16 ensures raw[i] == p[i] {
      if i < 12 {
        assert p[i] == p[..12][i];
      } else if i < 12 + pb {
        assert raw[i] == body[i - 12] == body[..pb][i - 12] == p[12..12 + pb][i - 12] == p[i];
      } else {
        MaskedTail(p, plen, i);
      }
    }
    assert raw == p;
  }

  // ----- Destinations -----

  datatype Dest = Dest(prefix: Addr, plen: nat)

  function CompareNat(a: int, b: int): int {
    if a < b then -1 else if a > b then 1 else 0
  }

  function Or(first: int, second: int): int { if first != 0 then first else second }

  /** route_compare: by prefix, then by length. */
  function CompareDest(a: Dest, b: Dest): int {
    Or(Memcmp(a.prefix, b.prefix), CompareNat(a.plen, b.plen))
  }

  lemma {:induction false} CompareDestOrder(a: Dest, b: Dest)
    ensures CompareDest(a, b) == 0 <==> a == b
    ensures CompareDest(b, a) == -CompareDest(a, b)
  {
    MemcmpOrder(a.prefix, b.prefix);
  }

  lemma {:induction false} CompareDestTransitive(a: Dest, b: Dest, c: Dest)
    requires CompareDest(a, b) < 0 && CompareDest(b, c) < 0
    ensures CompareDest(a, c) < 0
  {
    MemcmpOrder(a.prefix, b.prefix);
    MemcmpOrder(b.prefix, c.prefix);
    if Memcmp(a.prefix, b.prefix) <= 0 && Memcmp(b.prefix, c.prefix) <= 0 {
      MemcmpTransitive(a.prefix, b.prefix, c.prefix);
    }
  }
}
