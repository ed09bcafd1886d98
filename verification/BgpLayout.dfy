/** The octets of AS paths and path attributes, as section 4.3 of RFC 4271 and sections 3
    and 4 of RFC 6793 lay them out. */
module BgpLayout {
  import opened Wrappers
  import opened Bytes
  import opened BgpAspath
  import opened BgpAspathWire
  import opened BgpAspathPut
  import opened BgpAttr
  import opened BgpAttrSend
  import opened BgpAspathText

  /** Numbers in network order at a place. */
  predicate Short(d: seq<byte>, i: nat, v: nat) {
    i + 1 < |d| && 256 * (d[i] as int) + d[i + 1] as int == v
  }

  predicate Long(d: seq<byte>, i: nat, v: nat) {
    i + 3 < |d|
    && 16777216 * (d[i] as int) + 65536 * (d[i + 1] as int) + 256 * (d[i + 2] as int) + d[i + 3] as int == v
  }

  lemma {:induction false} ShortOf(v: nat)
    requires v < 0x10000
    ensures Short(Put16(v), 0, v)
  {}

  lemma {:induction false} LongOf(v: nat)
    requires v < 0x1_0000_0000
    ensures Long(Put32(v), 0, v)
  {
    var a, b, c := v / 0x1000000, v / 0x10000, v / 256;
    assert c / 256 == b && b / 256 == a;
    assert v == c * 256 + v % 256 && c == b * 256 + c % 256 && b == a * 256 + b % 256;
  }

  // ----- AS path segments -----

  lemma {:induction false} DataFrom(asns: seq<nat>, wide: bool, i: nat)
    requires i <= |asns|
    ensures Data(asns, wide)[DataSize(i, wide)..] == Data(asns[i..], wide)
    decreases i
  {
    if i == 0 {
      assert asns[0..] == asns && Data(asns, wide)[0..] == Data(asns, wide);
    } else {
      var head, tail := PutAsn(asns[0], wide), Data(asns[1..], wide);
      DataFrom(asns[1..], wide, i - 1);
      assert asns[1..][i - 1..] == asns[i..];
      assert (head + tail)[DataSize(i, wide)..] == tail[DataSize(i - 1, wide)..];
    }
  }

  lemma {:induction false} LongLater(d: seq<byte>, at: nat, v: nat)
    requires at <= |d| && Long(d[at..], 0, v)
    ensures Long(d, at, v)
  {}

  lemma {:induction false} ShortLater(d: seq<byte>, at: nat, v: nat)
    requires at <= |d| && Short(d[at..], 0, v)
    ensures Short(d, at, v)
  {}

  /** AS numbers in four octets each. */
  lemma {:induction false} WideOctets(asns: seq<nat>, i: nat)
    requires Fits(asns, true) && i < |asns|
    ensures Long(Data(asns, true), 4 * i, asns[i])
  {
    DataFrom(asns, true, i);
    LongOf(asns[i]);
    assert asns[i..][0] == asns[i];
    LongLater(Data(asns, true), 4 * i, asns[i]);
  }

  /** AS numbers in two octets each, with 23456 for those that do not fit. */
  lemma {:induction false} NarrowOctets(asns: seq<nat>, i: nat)
    requires i < |asns|
    ensures Short(Data(asns, false), 2 * i, if asns[i] < 65536 then asns[i] else 23456)
  {
    DataFrom(asns, false, i);
    ShortOf(Trans(asns[i]));
    assert asns[i..][0] == asns[i];
    ShortLater(Data(asns, false), 2 * i, Trans(asns[i]));
  }

  /** A segment: its type (1 AS_SET, 2 AS_SEQUENCE, 3 AS_CONFED_SEQUENCE, 4
      AS_CONFED_SET), how many AS numbers, the AS numbers. */
  lemma {:induction false} SegmentOctets(s: Segment, wide: bool)
    requires |s.asns| <= 255
    ensures var d := SegmentBytes(s, wide);
            && d[0] as int
               == (match s.kind case Set => 1 case Sequence => 2 case ConfedSequence => 3 case ConfedSet => 4)
            && d[1] as int == |s.asns| && d[2..] == Data(s.asns, wide)
            && |d| == 2 + |s.asns| * if wide then 4 else 2
  {}

  // ----- Attributes -----

  /** An attribute: its flags, its type, the length of its value in two octets if the
      flag 16 is set and in one otherwise, the value. */
  lemma {:induction false} TlvOctets(t: Tlv)
    requires Framed(t)
    ensures var d := TlvBytes(t);
            && |d| >= 3 && d[0] == t.flags && d[1] == t.code
            && if t.flags / 16 % 2 == 1 then |d| >= 4 && Short(d, 2, |t.value|) && d[4..] == t.value
               else d[2] as int == |t.value| && d[3..] == t.value
  {
    if Extended(t.flags) {
      ShortOf(|t.value|);
    }
  }

  /** What is read at the front of octets, by the same layout; nothing when they end
      before the value does. */
  lemma {:induction false} FirstOctets(d: seq<byte>)
    ensures FirstTlv(d).Some? <==>
              |d| >= 3 && if d[0] / 16 % 2 == 1 then |d| >= 4 && |d| >= 4 + 256 * (d[2] as int) + d[3] as int
                          else |d| >= 3 + d[2] as int
    ensures FirstTlv(d).Some? ==>
              var (t, rest) := FirstTlv(d).value;
              && t.flags == d[0] && t.code == d[1]
              && |t.value| == (if d[0] / 16 % 2 == 1 then 256 * (d[2] as int) + d[3] as int else d[2] as int)
              && d == d[..if d[0] / 16 % 2 == 1 then 4 else 3] + t.value + rest
  {}

  /** Flags, type and value of the attributes of fixed layout. */
  lemma {:induction false} FixedOctets(a: Attrs)
    requires a.origin.Some? && a.origin.value < 256
    ensures OriginPart(a) == [Tlv(64, 1, [a.origin.value])]
    ensures a.nextHop.Some? && a.nextHop.value < 0x1_0000_0000 ==>
              |NextHopPart(a)| == 1 && var t := NextHopPart(a)[0];
              t.flags == 64 && t.code == 3 && |t.value| == 4 && Long(t.value, 0, a.nextHop.value)
    ensures a.med.Some? && a.med.value < 0x1_0000_0000 ==>
              |MedPart(a)| == 1 && var t := MedPart(a)[0];
              t.flags == 128 && t.code == 4 && |t.value| == 4 && Long(t.value, 0, a.med.value)
    ensures ValueOr0(a.localPref) < 0x1_0000_0000 ==>
              |LocalPrefPart(a)| == 1 && var t := LocalPrefPart(a)[0];
              t.flags == 64 && t.code == 5 && |t.value| == 4 && Long(t.value, 0, ValueOr0(a.localPref))
    ensures AtomicPart(a) == if a.atomic then [Tlv(64, 6, [])] else []
  {
    if a.nextHop.Some? && a.nextHop.value < 0x1_0000_0000 {
      LongOf(a.nextHop.value);
    }
    if a.med.Some? && a.med.value < 0x1_0000_0000 {
      LongOf(a.med.value);
    }
    if ValueOr0(a.localPref) < 0x1_0000_0000 {
      LongOf(ValueOr0(a.localPref));
    }
  }

  /** AGGREGATOR has the AS number in four octets, or in two with 23456 in place of one
      that does not fit, which then goes in AS4_AGGREGATOR. */
  lemma {:induction false} AggregatorOctets(a: Attrs, wide: bool)
    requires a.aggregator.Some? && Fits32(a.aggregator.value)
    ensures var g := a.aggregator.value;
            && |AggregatorPart(a, wide)| == 1
            && (var t := AggregatorPart(a, wide)[0];
                && t.flags == 192 && t.code == 7
                && if wide then |t.value| == 8 && Long(t.value, 0, g.asn) && Long(t.value, 4, g.addr)
                   else |t.value| == 6 && Short(t.value, 0, if g.asn < 65536 then g.asn else 23456)
                        && Long(t.value, 2, g.addr))
            && (if wide || g.asn < 65536 then As4AggregatorPart(a, wide) == []
                else
                  |As4AggregatorPart(a, wide)| == 1 && var t := As4AggregatorPart(a, wide)[0];
                  && t.flags == 192 && t.code == 18 && |t.value| == 8
                  && Long(t.value, 0, g.asn) && Long(t.value, 4, g.addr))
  {
    var g := a.aggregator.value;
    LongOf(g.asn);
    LongOf(g.addr);
    ShortOf(Trans(g.asn));
  }

  /** AS_PATH, COMMUNITIES and, for a peer with 2-octet AS numbers, AS4_PATH. */
  lemma {:induction false} VariableOctets(a: Attrs, wide: bool)
    requires a.path.Some?
    ensures PathPart(a.path.value, wide) == [Tlv(80, 2, WireForm(a.path.value, wide))]
    ensures As4PathPart(a.path.value, wide) ==
              if wide || !HasAs4(a.path.value) then []
              else [Tlv(208, 17, WireForm(WithoutConfeds(a.path.value), true))]
    ensures a.communities.Some? ==>
              CommunityPart(a, true) ==
                [Tlv(if |a.communities.value| >= 64 then 208 else 192, 8, Data(a.communities.value, true))]
  {}

  // ----- The path in AS4_PATH -----

  predicate IsConfed(s: Segment) {
    s.kind == ConfedSequence || s.kind == ConfedSet
  }

  /** The confederation segments a path starts with are left out of AS4_PATH, if the
      first is an AS_CONFED_SEQUENCE; the path goes on from the first other segment. */
  lemma {:induction false} WithoutConfedsExactly(p: Path)
    ensures var q, n := WithoutConfeds(p), |p| - |WithoutConfeds(p)|;
            && 0 <= n && q == p[n..]
            && if p != [] && p[0].kind == ConfedSequence
               then (forall i :: 0 <= i < n ==> IsConfed(p[i])) && (q != [] ==> !IsConfed(q[0]))
               else n == 0
  {
    DropConfedsExactly(p);
    assert p[0..] == p;
  }

  lemma {:induction false} DropConfedsExactly(p: Path)
    ensures var q, n := DropConfeds(p), |p| - |DropConfeds(p)|;
            && 0 <= n && q == p[n..] && (forall i :: 0 <= i < n ==> IsConfed(p[i])) && (q != [] ==> !IsConfed(q[0]))
    decreases |p|
  {
    if p != [] && IsConfed(p[0]) {
      var rest := p[1..];
      assert forall i :: 0 <= i < |rest| ==> rest[i] == p[i + 1];
      DropConfedsExactly(rest);
      var n := |rest| - |DropConfeds(rest)|;
      assert rest[n..] == p[n + 1..];
    } else {
      assert p[0..] == p;
    }
  }

  // ----- Paths as text -----

  /** The number a string of decimal digits stands for. */
  function Numeral(s: string): nat
    requires forall i :: 0 <= i < |s| ==> '0' <= s[i] <= '9'
  {
    if s == [] then 0 else 10 * Numeral(s[..|s| - 1]) + (s[|s| - 1] - '0') as nat
  }

  predicate Digits(s: string) {
    forall i :: 0 <= i < |s| ==> '0' <= s[i] <= '9'
  }

  /** AS numbers are written in decimal, without leading zeros. */
  lemma {:induction false} DecimalExactly(n: nat)
    ensures Decimal(n) != [] && Digits(Decimal(n)) && Numeral(Decimal(n)) == n
    ensures n > 0 ==> Decimal(n)[0] != '0'
    decreases n
  {
    if n >= 10 {
      DecimalExactly(n / 10);
      var s := Decimal(n);
      assert s[..|s| - 1] == Decimal(n / 10);
    } else {
      assert Decimal(n)[..0] == [];
    }
  }

  lemma {:induction false} ReadInParts(v: nat, s: string, t: string)
    requires Digits(s)
    ensures ReadNumber(v, s + t) == ReadNumber(ReadNumber(v, s).0, t) && ReadNumber(v, s).1 == []
    decreases |s|
  {
    if s == [] {
      assert s + t == t;
    } else {
      assert (s + t)[1..] == s[1..] + t;
      ReadInParts(Shifted(v, DigitValue(s[0])), s[1..], t);
    }
  }

  lemma {:induction false} ShiftedModulo(n: nat, d: nat)
    ensures Shifted(n % 0x1_0000_0000, d) == (10 * n + d) % 0x1_0000_0000
  {
    var q, x := n / 0x1_0000_0000, n % 0x1_0000_0000 * 10 + d;
    Remainder(10 * n + d, 10 * q + x / 0x1_0000_0000, x % 0x1_0000_0000);
  }

  lemma {:induction false} Remainder(v: nat, k: nat, x: nat)
    requires v == k * 0x1_0000_0000 + x && x < 0x1_0000_0000
    ensures v % 0x1_0000_0000 == x
  {
    assert v / 0x1_0000_0000 == k;
  }

  /** And read in decimal, modulo 2^32. */
  lemma {:induction false} NumberRead(s: string, rest: string)
    requires Digits(s) && (rest == [] || !IsDigit(rest[0]))
    ensures ReadNumber(0, s + rest) == (Numeral(s) % 0x1_0000_0000, rest)
  {
    NumberValue(s);
    ReadInParts(0, s, rest);
  }

  lemma {:induction false} NumberValue(s: string)
    requires Digits(s)
    ensures ReadNumber(0, s).0 == Numeral(s) % 0x1_0000_0000
    decreases |s|
  {
    if s != [] {
      var front, c := s[..|s| - 1], s[|s| - 1];
      NumberValue(front);
      OneMoreDigit(front, c);
      assert s == front + [c];
      ShiftedModulo(Numeral(front), DigitValue(c));
    }
  }

  lemma {:induction false} OneMoreDigit(front: string, c: char)
    requires Digits(front) && IsDigit(c)
    ensures ReadNumber(0, front + [c]).0 == Shifted(ReadNumber(0, front).0, DigitValue(c))
  {
    ReadInParts(0, front, [c]);
    assert [c][1..] == [];
  }

  /** The brackets of each type of segment, and what stands between its AS numbers. */
  lemma {:induction false} SegmentTextExactly(kind: Kind, a: nat, b: nat)
    ensures var open := match kind case Set => "{" case ConfedSet => "[" case ConfedSequence => "(" case Sequence => "";
            var close :=
              match kind case Set => "}" case ConfedSet => "]" case ConfedSequence => ")" case Sequence => "";
            var between := if kind == Set || kind == ConfedSet then "," else " ";
            SegmentText(Segment(kind, [a, b])) == open + Decimal(a) + between + Decimal(b) + close
  {
    assert [a, b][1..] == [b];
    assert AsnsText([a, b], Separator(kind)) == Decimal(a) + ([Separator(kind)] + Decimal(b));
  }

  /** A character that is neither digit, nor bracket, nor white space or comma, makes the
      text no path, wherever a token may begin. */
  lemma {:induction false} OtherCharacterRefused(c: char, rest: string, st: Parser)
    requires Ready(st) && c !in "0123456789{}()[], \t\n\r\U{000B}\U{000C}\0"
    ensures Scan([c] + rest, st) == None
  {
    OnlyDigits(c);
  }

  lemma {:induction false} OnlyDigits(c: char)
    ensures IsDigit(c) ==> c in "0123456789"
  {
    if IsDigit(c) {
      var d := (c - '0') as nat;
      assert d in {0, 1, 2, 3, 4, 5, 6, 7, 8, 9};
      assert "0123456789"[d] == c;
    }
  }
}
