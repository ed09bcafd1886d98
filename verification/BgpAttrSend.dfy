/** bgp_packet_attribute, and the round trip of a route's attributes. */
module BgpAttrSend {
  import opened Wrappers
  import opened Bytes
  import opened BgpAspath
  import opened BgpAspathWire
  import opened BgpAspathPut
  import opened BgpReconcile
  import opened BgpAttr

  // ----- What is sent -----

  function ValueOr0(v: Option<nat>): nat { if v.Some? then v.value else 0 }

  /** aspath_has_as4. */
  predicate HasAs4(p: Path) {
    exists i, j :: 0 <= i < |p| && 0 <= j < |p[i].asns| && p[i].asns[j] > AS_MAX
  }

  /** aspath_delete_confed_seq. */
  function DropConfeds(p: Path): Path {
    if p != [] && (p[0].kind == ConfedSequence || p[0].kind == ConfedSet) then DropConfeds(p[1..]) else p
  }

  function WithoutConfeds(p: Path): Path {
    if p != [] && p[0].kind == ConfedSequence then DropConfeds(p) else p
  }

  function OriginPart(a: Attrs): seq<Tlv> {
    [Tlv(TRANS, ORIGIN, [ValueOr0(a.origin) % 256])]
  }

  function PathPart(p: Path, wide: bool): seq<Tlv> {
    [Tlv(TRANS + EXTLEN, AS_PATH, WireForm(p, wide))]
  }

  function NextHopPart(a: Attrs): seq<Tlv> {
    if a.nextHop.Some? then [Tlv(TRANS, NEXT_HOP, Put32(a.nextHop.value))] else []
  }

  function MedPart(a: Attrs): seq<Tlv> {
    if a.med.Some? then [Tlv(OPTIONAL, MULTI_EXIT_DISC, Put32(a.med.value))] else []
  }

  function LocalPrefPart(a: Attrs): seq<Tlv> {
    [Tlv(TRANS, LOCAL_PREF, Put32(ValueOr0(a.localPref)))]
  }

  function AtomicPart(a: Attrs): seq<Tlv> {
    if a.atomic then [Tlv(TRANS, ATOMIC_AGGREGATE, [])] else []
  }

  function AggregatorPart(a: Attrs, wide: bool): seq<Tlv> {
    if a.aggregator.None? then []
    else
      var g := a.aggregator.value;
      [Tlv(OPTIONAL + TRANS, AGGREGATOR, (if wide then Put32(g.asn) else Put16(Trans(g.asn))) + Put32(g.addr))]
  }

  function CommunityPart(a: Attrs, send: bool): seq<Tlv> {
    if !send || a.communities.None? then []
    else
      var c := a.communities.value;
      [Tlv(if |c| * 4 > 255 then OPTIONAL + TRANS + EXTLEN else OPTIONAL + TRANS, COMMUNITIES, Data(c, true))]
  }

  function As4PathPart(p: Path, wide: bool): seq<Tlv> {
    if wide || !HasAs4(p) then []
    else [Tlv(OPTIONAL + TRANS + EXTLEN, AS4_PATH, WireForm(WithoutConfeds(p), true))]
  }

  /** The aggregator a receiver of that width reads in AGGREGATOR, and the one sent
      in AS4_AGGREGATOR. */
  function SeenAggregator(a: Attrs, wide: bool): Option<Aggregator> {
    if a.aggregator.None? then None else Some(Seen(a.aggregator.value, wide))
  }

  function As4Aggregator(a: Attrs, wide: bool): Option<Aggregator> {
    if wide || a.aggregator.None? || a.aggregator.value.asn <= AS_MAX then None else a.aggregator
  }

  function As4AggregatorPart(a: Attrs, wide: bool): seq<Tlv> {
    if wide || a.aggregator.None? || a.aggregator.value.asn <= AS_MAX then []
    else [Tlv(OPTIONAL + TRANS, AS4_AGGREGATOR, Put32(a.aggregator.value.asn) + Put32(a.aggregator.value.addr))]
  }

  /** The attributes sent, in order. */
  function Sent(a: Attrs, wide: bool, send: bool): seq<Tlv>
    requires a.path.Some?
  {
    OriginPart(a) + (PathPart(a.path.value, wide) + (NextHopPart(a) + Later(a, wide, send)))
  }

  function Later(a: Attrs, wide: bool, send: bool): seq<Tlv>
    requires a.path.Some?
  {
    MedPart(a) + (LocalPrefPart(a) + (AtomicPart(a) + Last(a, wide, send)))
  }

  function Last(a: Attrs, wide: bool, send: bool): seq<Tlv>
    requires a.path.Some?
  {
    AggregatorPart(a, wide) + (CommunityPart(a, send) + (As4PathPart(a.path.value, wide) + As4AggregatorPart(a, wide)))
  }

  // ----- Reading a list of attributes -----

  function Fold(ts: seq<Tlv>, p: Parsed, ses: Session): Option<Parsed> {
    if ts == [] then Some(p)
    else
      var p1 := ParseOne(ts[0], p, ses);
      if p1.None? then None else Fold(ts[1..], p1.value, ses)
  }

  lemma {:induction false} FoldBytes(ts: seq<Tlv>, p: Parsed, ses: Session)
    requires forall i :: 0 <= i < |ts| ==> Framed(ts[i])
    ensures ParseAll(AllBytes(ts), p, ses) == Fold(ts, p, ses)
    decreases |ts|
  {
    if ts != [] {
      var rest := ts[1..];
      assert forall i :: 0 <= i < |rest| ==> rest[i] == ts[i + 1];
      FirstOfBytes(ts[0], AllBytes(rest));
      var p1 := ParseOne(ts[0], p, ses);
      if p1.Some? {
        FoldBytes(rest, p1.value, ses);
      }
    }
  }

  lemma {:induction false} FoldJoined(a: seq<Tlv>, b: seq<Tlv>, p: Parsed, ses: Session)
    ensures Fold(a + b, p, ses) == (if Fold(a, p, ses).None? then None else Fold(b, Fold(a, p, ses).value, ses))
    decreases |a|
  {
    if a == [] {
      assert a + b == b;
    } else {
      assert (a + b)[1..] == a[1..] + b && (a + b)[0] == a[0];
      var p1 := ParseOne(a[0], p, ses);
      if p1.Some? {
        FoldJoined(a[1..], b, p1.value, ses);
      }
    }
  }

  lemma {:induction false} FoldOne(t: Tlv, p: Parsed, ses: Session)
    ensures Fold([t], p, ses) == ParseOne(t, p, ses)
  {
    assert [t][1..] == [];
  }

  lemma {:induction false} ReadOne(t: Tlv, p: Parsed, ses: Session)
    requires t.code !in p.seen && !FlagInvalid(t.code, t.flags)
    ensures Fold([t], p, ses) == ParseValue(t.code, t.value, p.(seen := p.seen + {t.code}), ses)
  {
    FoldOne(t, p, ses);
  }

  /** The four octets of a 32-bit value read back as it. */
  lemma {:induction false} Get32All(v: nat)
    requires v < 0x1_0000_0000
    ensures Get32(Put32(v), 0) == v
  {
    var d := Put32(v);
    assert d[0..4] == d;
    Get32Of(v, d, 0);
  }

  lemma {:induction false} Get32Of(v: nat, d: seq<byte>, i: nat)
    requires v < 0x1_0000_0000 && i + 4 <= |d| && d[i..i + 4] == Put32(v)
    ensures Get32(d, i) == v
  {
    forall k | 0 <= k < 4 ensures At(d, i + k) == Put32(v)[k] {
      assert d[i..i + 4][k] == d[i + k];
    }
    Put32Get(v, d, i);
  }

  lemma {:induction false} OriginRead(a: Attrs, p: Parsed, ses: Session)
    requires ORIGIN !in p.seen && a.origin.Some? && a.origin.value < 256
    ensures Fold(OriginPart(a), p, ses)
         == if a.origin.value > 2 then None
           else Some(p.(attrs := p.attrs.(origin := a.origin), seen := p.seen + {ORIGIN}))
  {
    FoldOne(OriginPart(a)[0], p, ses);
  }

  /** An AS_PATH or AS4_PATH whose octets parse. */
  lemma {:induction false} PathValue(v: seq<byte>, path: Path, p: Parsed, ses: Session)
    ensures AS_PATH !in p.seen && Parse(v, |v|, ses.wide) == Some(path) ==>
              Fold([Tlv(TRANS + EXTLEN, AS_PATH, v)], p, ses)
              == Some(p.(attrs := p.attrs.(path := Some(path)), seen := p.seen + {AS_PATH}))
    ensures AS4_PATH !in p.seen && Parse(v, |v|, true) == Some(path) ==>
              Fold([Tlv(OPTIONAL + TRANS + EXTLEN, AS4_PATH, v)], p, ses)
              == Some(p.(as4Path := Some(path), seen := p.seen + {AS4_PATH}))
  {
    FoldOne(Tlv(TRANS + EXTLEN, AS_PATH, v), p, ses);
    FoldOne(Tlv(OPTIONAL + TRANS + EXTLEN, AS4_PATH, v), p, ses);
  }

  lemma {:induction false} PathRead(path: Path, p: Parsed, ses: Session)
    requires AS_PATH !in p.seen && Normal(path) && Sendable(path) && Moderate(path)
    ensures Fold(PathPart(path, ses.wide), p, ses)
         == Some(p.(attrs := p.attrs.(path := Some(Normalise(Image(path, ses.wide)))), seen := p.seen + {AS_PATH}))
  {
    ImageRoundTrip(path, ses.wide);
    PathValue(WireForm(path, ses.wide), Normalise(Image(path, ses.wide)), p, ses);
  }

  lemma {:induction false} NextHopRead(a: Attrs, p: Parsed, ses: Session)
    requires NEXT_HOP !in p.seen && p.attrs.nextHop.None? && (a.nextHop.Some? ==> a.nextHop.value < 0x1_0000_0000)
    ensures Fold(NextHopPart(a), p, ses)
         == if a.nextHop.None? then Some(p)
            else if Martian(a.nextHop.value) then None
            else Some(p.(attrs := p.attrs.(nextHop := a.nextHop), seen := p.seen + {NEXT_HOP}))
  {
    if a.nextHop.Some? {
      var v := Put32(a.nextHop.value);
      assert v[0..4] == v;
      Get32Of(a.nextHop.value, v, 0);
      FoldOne(NextHopPart(a)[0], p, ses);
    }
  }

  lemma {:induction false} MedRead(a: Attrs, p: Parsed, ses: Session)
    requires MULTI_EXIT_DISC !in p.seen && p.attrs.med.None? && (a.med.Some? ==> a.med.value < 0x1_0000_0000)
    ensures Fold(MedPart(a), p, ses)
         == Some(p.(attrs := p.attrs.(med := a.med),
                        seen := if a.med.Some? then p.seen + {MULTI_EXIT_DISC} else p.seen))
  {
    if a.med.Some? {
      var v := Put32(a.med.value);
      assert v[0..4] == v;
      Get32Of(a.med.value, v, 0);
      FoldOne(MedPart(a)[0], p, ses);
    }
  }

  lemma {:induction false} LocalPrefValue(v: nat, p: Parsed, ses: Session)
    requires v < 0x1_0000_0000
    ensures ParseValue(LOCAL_PREF, Put32(v), p, ses) == Some(p.(attrs := p.attrs.(localPref := Some(v))))
  {
    Get32All(v);
  }

  lemma {:induction false} LocalPrefRead(a: Attrs, p: Parsed, ses: Session)
    requires LOCAL_PREF !in p.seen && ValueOr0(a.localPref) < 0x1_0000_0000
    ensures Fold(LocalPrefPart(a), p, ses)
         == Some(p.(attrs := p.attrs.(localPref := Some(ValueOr0(a.localPref))), seen := p.seen + {LOCAL_PREF}))
  {
    var v := ValueOr0(a.localPref);
    var t := Tlv(TRANS, LOCAL_PREF, Put32(v));
    assert LocalPrefPart(a) == [t];
    assert !FlagInvalid(t.code, t.flags);
    ReadOne(t, p, ses);
    LocalPrefValue(v, p.(seen := p.seen + {LOCAL_PREF}), ses);
  }

  lemma {:induction false} AtomicRead(a: Attrs, p: Parsed, ses: Session)
    requires ATOMIC_AGGREGATE !in p.seen && !p.attrs.atomic
    ensures Fold(AtomicPart(a), p, ses)
         == Some(p.(attrs := p.attrs.(atomic := a.atomic),
                        seen := if a.atomic then p.seen + {ATOMIC_AGGREGATE} else p.seen))
  {
    if a.atomic {
      FoldOne(AtomicPart(a)[0], p, ses);
    }
  }

  predicate Fits32(g: Aggregator) { g.asn < 0x1_0000_0000 && g.addr < 0x1_0000_0000 }

  function Seen(g: Aggregator, wide: bool): Aggregator {
    if wide then g else g.(asn := Trans(g.asn))
  }

  lemma {:induction false} AggregatorRead(a: Attrs, p: Parsed, ses: Session)
    requires AGGREGATOR !in p.seen && p.attrs.aggregator.None? && (a.aggregator.Some? ==> Fits32(a.aggregator.value))
    ensures Fold(AggregatorPart(a, ses.wide), p, ses)
         == if a.aggregator.None? then Some(p)
            else Some(p.(attrs := p.attrs.(aggregator := Some(Seen(a.aggregator.value, ses.wide))),
              seen := p.seen + {AGGREGATOR}))
  {
    if a.aggregator.Some? {
      var g := a.aggregator.value;
      var asn := if ses.wide then Put32(g.asn) else Put16(Trans(g.asn));
      var v := asn + Put32(g.addr);
      assert v[|asn|..|asn| + 4] == Put32(g.addr);
      Get32Of(g.addr, v, |asn|);
      if ses.wide {
        assert v[0..4] == Put32(g.asn);
        Get32Of(g.asn, v, 0);
      } else {
        Put16Get(Trans(g.asn), v, 0);
      }
      FoldOne(AggregatorPart(a, ses.wide)[0], p, ses);
    }
  }

  /** What the receiver makes of the communities sent. */
  function Heard(a: Attrs, send: bool): Option<seq<nat>> {
    if !send || a.communities.None? || a.communities.value == [] then None else Some(SortUnique(a.communities.value))
  }

  lemma {:induction false} CommunityValue(c: seq<nat>, p: Parsed, ses: Session)
    requires Fits(c, true)
    ensures ParseValue(COMMUNITIES, Data(c, true), p, ses)
         == Some(if c == [] then p else p.(attrs := p.attrs.(communities := Some(SortUnique(c)))))
  {
    var v := Data(c, true);
    assert |v| == 4 * |c| && |v| / 4 == |c| && |v| % 4 == 0;
    ReadData(c, [], true);
    assert v + [] == v;
  }

  lemma {:induction false} CommunityRead(a: Attrs, p: Parsed, ses: Session, send: bool)
    requires COMMUNITIES !in p.seen && p.attrs.communities.None?
             && (a.communities.Some? ==> Fits(a.communities.value, true))
    ensures Fold(CommunityPart(a, send), p, ses)
         == Some(p.(attrs := p.attrs.(communities := Heard(a, send)),
                    seen := if send && a.communities.Some? then p.seen + {COMMUNITIES} else p.seen))
  {
    if send && a.communities.Some? {
      var t := CommunityPart(a, send)[0];
      assert !FlagInvalid(t.code, t.flags);
      ReadOne(t, p, ses);
      CommunityValue(a.communities.value, p.(seen := p.seen + {COMMUNITIES}), ses);
    }
  }

  lemma {:induction false} ConfedFreeKept(p: Path)
    requires ConfedFree(p)
    ensures WithoutConfeds(p) == p
  {}

  lemma {:induction false} As4PathRead(path: Path, p: Parsed, ses: Session)
    requires AS4_PATH !in p.seen && p.as4Path.None? && Normal(path) && Sendable(path) && Moderate(path)
    requires !ses.wide && HasAs4(path) ==> ConfedFree(path)
    ensures Fold(As4PathPart(path, ses.wide), p, ses)
         == if ses.wide || !HasAs4(path) then Some(p) else Some(p.(as4Path := Some(path), seen := p.seen + {AS4_PATH}))
  {
    if !ses.wide && HasAs4(path) {
      ConfedFreeKept(path);
      WireRoundTrip(path, true);
      PathValue(WireForm(path, true), path, p, ses);
    }
  }

  lemma {:induction false} As4AggregatorRead(a: Attrs, p: Parsed, ses: Session)
    requires AS4_AGGREGATOR !in p.seen && p.as4Aggregator.None? && (a.aggregator.Some? ==> Fits32(a.aggregator.value))
    ensures Fold(As4AggregatorPart(a, ses.wide), p, ses)
         == if ses.wide || a.aggregator.None? || a.aggregator.value.asn <= AS_MAX then Some(p)
            else Some(p.(as4Aggregator := a.aggregator, seen := p.seen + {AS4_AGGREGATOR}))
  {
    if !ses.wide && a.aggregator.Some? && a.aggregator.value.asn > AS_MAX {
      var g := a.aggregator.value;
      var v := Put32(g.asn) + Put32(g.addr);
      assert v[0..4] == Put32(g.asn) && v[4..8] == Put32(g.addr);
      Get32Of(g.asn, v, 0);
      Get32Of(g.addr, v, 4);
      FoldOne(As4AggregatorPart(a, ses.wide)[0], p, ses);
    }
  }

  // ----- Round trip -----

  /** The routes the round trip is stated for: values of the right width, a normal
      path that aspath_put can split, attributes that fit their length fields; and
      no confederation segments where the path must also go as AS4_PATH. */
  predicate Routable(a: Attrs, wide: bool) {
    && a.origin.Some? && a.origin.value < 256
    && a.path.Some? && Normal(a.path.value) && Sendable(a.path.value) && Moderate(a.path.value)
    && |WireForm(a.path.value, wide)| < 0x1_0000 && |WireForm(a.path.value, true)| < 0x1_0000
    && (!wide && HasAs4(a.path.value) ==> ConfedFree(a.path.value))
    && ValueOr0(a.nextHop) < 0x1_0000_0000 && ValueOr0(a.med) < 0x1_0000_0000 && ValueOr0(a.localPref) < 0x1_0000_0000
    && (a.aggregator.Some? ==> Fits32(a.aggregator.value))
    && (a.communities.Some? ==> Fits(a.communities.value, true) && |a.communities.value| * 4 < 0x1_0000)
  }

  predicate Below(p: Parsed, code: byte) {
    forall c :: c in p.seen ==> c < code
  }

  /** What has been read, leaving aside which types were seen. */
  function Content(p: Parsed): Parsed { p.(seen := {}) }

  lemma {:induction false} LastRead(a: Attrs, p: Parsed, ses: Session, send: bool)
    requires Routable(a, ses.wide) && Below(p, AGGREGATOR)
    requires p.attrs.aggregator.None? && p.attrs.communities.None? && p.as4Path.None? && p.as4Aggregator.None?
    ensures var q := Fold(Last(a, ses.wide, send), p, ses);
            q.Some? && Content(q.value) == Content(p).(
              attrs := p.attrs.(aggregator := SeenAggregator(a, ses.wide),
                                communities := Heard(a, send)),
              as4Path := if ses.wide || !HasAs4(a.path.value) then None else a.path,
              as4Aggregator := As4Aggregator(a, ses.wide))
  {
    var path := a.path.value;
    var p4, p3 := As4PathPart(path, ses.wide), As4AggregatorPart(a, ses.wide);
    AggregatorRead(a, p, ses);
    var s1 := Fold(AggregatorPart(a, ses.wide), p, ses).value;
    FoldJoined(AggregatorPart(a, ses.wide), CommunityPart(a, send) + (p4 + p3), p, ses);
    CommunityRead(a, s1, ses, send);
    var s2 := Fold(CommunityPart(a, send), s1, ses).value;
    FoldJoined(CommunityPart(a, send), p4 + p3, s1, ses);
    As4PathRead(path, s2, ses);
    var s3 := Fold(p4, s2, ses).value;
    FoldJoined(p4, p3, s2, ses);
    As4AggregatorRead(a, s3, ses);
  }

  /** LOCAL_PREF and ATOMIC_AGGREGATE. */
  lemma {:induction false} PreferenceRead(a: Attrs, rest: seq<Tlv>, p: Parsed, ses: Session) returns (s: Parsed)
    requires Routable(a, ses.wide) && Below(p, LOCAL_PREF) && !p.attrs.atomic
    ensures Fold(LocalPrefPart(a) + (AtomicPart(a) + rest), p, ses) == Fold(rest, s, ses)
    ensures Below(s, AGGREGATOR)
    ensures Content(s) == Content(p).(attrs := p.attrs.(localPref := Some(ValueOr0(a.localPref)), atomic := a.atomic))
  {
    LocalPrefRead(a, p, ses);
    var s1 := Fold(LocalPrefPart(a), p, ses).value;
    FoldJoined(LocalPrefPart(a), AtomicPart(a) + rest, p, ses);
    AtomicRead(a, s1, ses);
    s := Fold(AtomicPart(a), s1, ses).value;
    FoldJoined(AtomicPart(a), rest, s1, ses);
  }

  /** MED, LOCAL_PREF and ATOMIC_AGGREGATE. */
  lemma {:induction false} MiddleRead(a: Attrs, rest: seq<Tlv>, p: Parsed, ses: Session) returns (s: Parsed)
    requires Routable(a, ses.wide) && Below(p, MULTI_EXIT_DISC)
    requires p.attrs.med.None? && !p.attrs.atomic
    ensures Fold(MedPart(a) + (LocalPrefPart(a) + (AtomicPart(a) + rest)), p, ses) == Fold(rest, s, ses)
    ensures Below(s, AGGREGATOR)
    ensures Content(s) == Content(p).(
              attrs := p.attrs.(med := a.med, localPref := Some(ValueOr0(a.localPref)), atomic := a.atomic))
  {
    MedRead(a, p, ses);
    var s1 := Fold(MedPart(a), p, ses).value;
    FoldJoined(MedPart(a), LocalPrefPart(a) + (AtomicPart(a) + rest), p, ses);
    s := PreferenceRead(a, rest, s1, ses);
  }

  lemma {:induction false} LaterRead(a: Attrs, p: Parsed, ses: Session, send: bool)
    requires Routable(a, ses.wide) && Below(p, MULTI_EXIT_DISC)
    requires p.attrs == NO_ATTRS.(origin := p.attrs.origin, path := p.attrs.path, nextHop := p.attrs.nextHop)
    requires p.as4Path.None? && p.as4Aggregator.None?
    ensures var q := Fold(Later(a, ses.wide, send), p, ses);
            q.Some? && Content(q.value) == Content(p).(
              attrs := Attrs(p.attrs.origin, p.attrs.path, p.attrs.nextHop, a.med, Some(ValueOr0(a.localPref)),
                             a.atomic, SeenAggregator(a, ses.wide), Heard(a, send)),
              as4Path := if ses.wide || !HasAs4(a.path.value) then None else a.path,
              as4Aggregator := As4Aggregator(a, ses.wide))
  {
    var last := Last(a, ses.wide, send);
    var s := MiddleRead(a, last, p, ses);
    assert s.attrs == Content(s).attrs && s.as4Path == Content(s).as4Path
           && s.as4Aggregator == Content(s).as4Aggregator;
    LastRead(a, s, ses, send);
  }

  /** What the receiver has read of everything, when it accepts it. */
  function ReadOf(a: Attrs, ses: Session, send: bool): Parsed
    requires a.path.Some?
  {
    Parsed(Attrs(a.origin, Some(Normalise(Image(a.path.value, ses.wide))), a.nextHop, a.med,
                 Some(ValueOr0(a.localPref)), a.atomic,
                 SeenAggregator(a, ses.wide), Heard(a, send)),
           if ses.wide || !HasAs4(a.path.value) then None else a.path,
           As4Aggregator(a, ses.wide),
           {}, {})
  }

  predicate Acceptable(a: Attrs) {
    a.origin.Some? && a.origin.value <= 2 && (a.nextHop.Some? ==> !Martian(a.nextHop.value))
  }

  lemma {:induction false} PartRead(part: seq<Tlv>, rest: seq<Tlv>, p: Parsed, q: Parsed, ses: Session)
    requires Fold(part, p, ses) == Some(q)
    ensures Fold(part + rest, p, ses) == Fold(rest, q, ses)
  {
    FoldJoined(part, rest, p, ses);
  }

  /** What has been read after ORIGIN and AS_PATH. */
  function HeadOf(a: Attrs, wide: bool): Parsed
    requires a.path.Some?
  {
    NOTHING_READ.(attrs := NO_ATTRS.(origin := a.origin, path := Some(Normalise(Image(a.path.value, wide)))),
      seen := {ORIGIN, AS_PATH})
  }

  lemma {:induction false} HeadRead(a: Attrs, rest: seq<Tlv>, ses: Session)
    requires Routable(a, ses.wide) && a.origin.value <= 2
    ensures Fold(OriginPart(a) + (PathPart(a.path.value, ses.wide) + rest), NOTHING_READ, ses)
            == Fold(rest, HeadOf(a, ses.wide), ses)
  {
    var path := a.path.value;
    OriginRead(a, NOTHING_READ, ses);
    var s1 := NOTHING_READ.(attrs := NO_ATTRS.(origin := a.origin), seen := {ORIGIN});
    assert NOTHING_READ.seen + {ORIGIN} == {ORIGIN};
    PartRead(OriginPart(a), PathPart(path, ses.wide) + rest, NOTHING_READ, s1, ses);
    PathRead(path, s1, ses);
    assert s1.seen + {AS_PATH} == {ORIGIN, AS_PATH};
    PartRead(PathPart(path, ses.wide), rest, s1, HeadOf(a, ses.wide), ses);
  }

  lemma {:induction false} HeadRefused(a: Attrs, rest: seq<Tlv>, ses: Session)
    requires Routable(a, ses.wide) && !Acceptable(a)
    ensures Fold(OriginPart(a) + (PathPart(a.path.value, ses.wide) + (NextHopPart(a) + rest)), NOTHING_READ, ses).None?
  {
    if a.origin.value <= 2 {
      var p := HeadOf(a, ses.wide);
      HeadRead(a, NextHopPart(a) + rest, ses);
      NextHopRead(a, p, ses);
      FoldJoined(NextHopPart(a), rest, p, ses);
    } else {
      OriginRead(a, NOTHING_READ, ses);
      FoldJoined(OriginPart(a), PathPart(a.path.value, ses.wide) + (NextHopPart(a) + rest), NOTHING_READ, ses);
    }
  }

  lemma {:induction false} SentRead(a: Attrs, ses: Session, send: bool)
    requires Routable(a, ses.wide) && Acceptable(a)
    ensures var q := Fold(Sent(a, ses.wide, send), NOTHING_READ, ses);
            q.Some? && Content(q.value) == ReadOf(a, ses, send)
  {
    var p, later := HeadOf(a, ses.wide), Later(a, ses.wide, send);
    HeadRead(a, NextHopPart(a) + later, ses);
    NextHopRead(a, p, ses);
    var s := Fold(NextHopPart(a), p, ses).value;
    PartRead(NextHopPart(a), later, p, s, ses);
    LaterRead(a, s, ses, send);
  }

  /** Every attribute fits its length field. */
  predicate AllFramed(ts: seq<Tlv>) {
    forall i :: 0 <= i < |ts| ==> Framed(ts[i])
  }

  lemma {:induction false} FramedJoined(a: seq<Tlv>, b: seq<Tlv>)
    requires AllFramed(a) && AllFramed(b)
    ensures AllFramed(a + b)
  {}

  lemma {:induction false} PathsFramed(path: Path, wide: bool)
    requires |WireForm(path, wide)| < 0x1_0000 && |WireForm(path, true)| < 0x1_0000
             && (!wide && HasAs4(path) ==> ConfedFree(path))
    ensures AllFramed(PathPart(path, wide)) && AllFramed(As4PathPart(path, wide))
  {
    PathFramed(WireForm(path, wide));
    if !wide && HasAs4(path) {
      ConfedFreeKept(path);
      As4PathFramed(WireForm(path, true));
    }
  }

  lemma {:induction false} PathFramed(v: seq<byte>)
    requires |v| < 0x1_0000
    ensures AllFramed([Tlv(TRANS + EXTLEN, AS_PATH, v)])
  {
    LongFramed(TRANS + EXTLEN, AS_PATH, v);
  }

  lemma {:induction false} As4PathFramed(v: seq<byte>)
    requires |v| < 0x1_0000
    ensures AllFramed([Tlv(OPTIONAL + TRANS + EXTLEN, AS4_PATH, v)])
  {
    LongFramed(OPTIONAL + TRANS + EXTLEN, AS4_PATH, v);
  }

  lemma {:induction false} LongFramed(flags: byte, code: byte, v: seq<byte>)
    requires Extended(flags) && |v| < 0x1_0000
    ensures AllFramed([Tlv(flags, code, v)])
  {}

  lemma {:induction false} PartsFramed(a: Attrs, wide: bool, send: bool)
    requires a.communities.Some? ==> |a.communities.value| * 4 < 0x1_0000
    ensures AllFramed(OriginPart(a)) && AllFramed(NextHopPart(a)) && AllFramed(MedPart(a))
            && AllFramed(LocalPrefPart(a))
    ensures AllFramed(AtomicPart(a)) && AllFramed(AggregatorPart(a, wide)) && AllFramed(As4AggregatorPart(a, wide))
    ensures AllFramed(CommunityPart(a, send))
  {}

  lemma {:induction false} SentFramed(a: Attrs, wide: bool, send: bool)
    requires Routable(a, wide)
    ensures AllFramed(Sent(a, wide, send))
  {
    var path := a.path.value;
    PathsFramed(path, wide);
    PartsFramed(a, wide, send);
    var p1, p2 := As4PathPart(path, wide), As4AggregatorPart(a, wide);
    FramedJoined(p1, p2);
    FramedJoined(CommunityPart(a, send), p1 + p2);
    FramedJoined(AggregatorPart(a, wide), CommunityPart(a, send) + (p1 + p2));
    var last := Last(a, wide, send);
    FramedJoined(AtomicPart(a), last);
    FramedJoined(LocalPrefPart(a), AtomicPart(a) + last);
    FramedJoined(MedPart(a), LocalPrefPart(a) + (AtomicPart(a) + last));
    var later := Later(a, wide, send);
    FramedJoined(NextHopPart(a), later);
    FramedJoined(PathPart(path, wide), NextHopPart(a) + later);
    FramedJoined(OriginPart(a), PathPart(path, wide) + (NextHopPart(a) + later));
  }

  /** The route as the receiver has it: LOCAL_PREF always present, communities in
      canonical form. */
  function Delivered(a: Attrs, send: bool): Attrs {
    a.(localPref := Some(ValueOr0(a.localPref)), communities := Heard(a, send))
  }

  lemma {:induction false} NotHasAs4(p: Path)
    requires !HasAs4(p)
    ensures Image(p, false) == p
  {
    forall i | 0 <= i < |p| ensures SegmentImage(p[i], false) == p[i] {
      assert SegmentImage(p[i], false).asns == p[i].asns;
    }
  }

  /** The path parsed, reconciled with the AS4_PATH if one was sent, is the path. */
  lemma {:induction false} PathRestored(path: Path, wide: bool)
    requires Normal(path) && (!wide && HasAs4(path) ==> ConfedFree(path))
    ensures wide || !HasAs4(path) ==> Normalise(Image(path, wide)) == path
    ensures !wide && HasAs4(path) ==> Reconcile(Normalise(Image(path, wide)), path) == path
  {
    NormalIsFixed(path);
    if wide {
      assert Image(path, true) == path;
    } else if HasAs4(path) {
      PrependedIsRestored([], path);
    } else {
      NotHasAs4(path);
    }
  }

  lemma {:induction false} MungeRestores(a: Attrs, ses: Session, send: bool)
    requires Routable(a, ses.wide)
    ensures Munged(ReadOf(a, ses, send), ses) == Delivered(a, send)
  {
    var r := ReadOf(a, ses, send);
    PathRestored(a.path.value, ses.wide);
    MungedSent(r, a, ses.wide);
  }

  /** The aggregator sent is the aggregator had, and AS4_PATH is not ignored. */
  lemma {:induction false} MungedSent(r: Parsed, a: Attrs, wide: bool)
    requires r.attrs.aggregator == SeenAggregator(a, wide) && r.as4Aggregator == As4Aggregator(a, wide)
    ensures !IgnoresAs4(r) && MungedAggregator(r) == a.aggregator
  {}

  lemma {:induction false} SeenAside(p: Parsed, ses: Session)
    ensures Munged(p, ses) == Munged(Content(p), ses) && (Complete(p, ses) <==> Complete(Content(p), ses))
  {}

  lemma {:induction false} DeliveredUnchanged(a: Attrs)
    requires a.localPref.Some? && (a.communities.Some? ==> a.communities.value != [] && Increasing(a.communities.value))
    ensures Delivered(a, true) == a
  {
    if a.communities.Some? {
      SortedIsFixed(a.communities.value);
    }
  }

  /** Round trip of a route between internal peers, of either AS number width: the
      receiver has the origin, the full path, the next hop, MED, local preference,
      aggregator and communities that were sent; it refuses the route exactly when
      the origin is undefined or the next hop missing or martian. */
  lemma {:induction false} AttrRoundTrip(a: Attrs, ses: Session, send: bool)
    requires Routable(a, ses.wide)
    ensures Receive(AllBytes(Sent(a, ses.wide, send)), ses)
         == if Acceptable(a) && a.nextHop.Some? then Some(Delivered(a, send)) else None
  {
    SentFramed(a, ses.wide, send);
    FoldBytes(Sent(a, ses.wide, send), NOTHING_READ, ses);
    if Acceptable(a) {
      SentRead(a, ses, send);
      SeenAside(Fold(Sent(a, ses.wide, send), NOTHING_READ, ses).value, ses);
      MungeRestores(a, ses, send);
    } else {
      HeadRefused(a, Later(a, ses.wide, send), ses);
    }
  }

  // ----- The code -----

  lemma {:induction false} BytesJoined(a: seq<Tlv>, b: seq<Tlv>)
    ensures AllBytes(a + b) == AllBytes(a) + AllBytes(b)
    decreases |a|
  {
    if a == [] {
      assert a + b == b;
    } else {
      BytesJoined(a[1..], b);
      assert (a + b)[1..] == a[1..] + b && (a + b)[0] == a[0];
      Regroup(TlvBytes(a[0]), AllBytes(a[1..]), AllBytes(b));
    }
  }

  /** The next part of what is to be written fits when the whole does. */
  lemma {:induction false} PartFits(now: seq<byte>, part: seq<Tlv>, later: seq<Tlv>, size: nat)
    requires |now| + |AllBytes(part + later)| <= size
    ensures |now| + |AllBytes(part)| <= size && |now + AllBytes(part)| + |AllBytes(later)| <= size
    ensures now + AllBytes(part + later) == now + AllBytes(part) + AllBytes(later)
  {
    BytesJoined(part, later);
    Regroup(now, AllBytes(part), AllBytes(later));
  }

  lemma {:induction false} OneBytes(t: Tlv)
    ensures AllBytes([t]) == TlvBytes(t)
  {
    assert [t][1..] == [];
    assert TlvBytes(t) + [] == TlvBytes(t);
  }

  /** One attribute whose value is at hand. */
  method PutTlv(s: Stream, part: seq<Tlv>)
    requires |part| <= 1
    modifies s
    ensures old(s.Holds(AllBytes(part))) ==> s.data == old(s.data) + AllBytes(part)
  {
    assert s.data + [] == s.data;
    if part != [] {
      OneBytes(part[0]);
      assert part == [part[0]];
      s.Put(TlvBytes(part[0]));
    }
  }

  /** AS_PATH or AS4_PATH: the length is written again when aspath_put has returned
      the size. */
  method PutPath(s: Stream, flags: byte, code: byte, p: Path, wide: bool)
    requires Extended(flags)
    modifies s
    ensures old(s.Holds(AllBytes([Tlv(flags, code, WireForm(p, wide))])))
            && CountedSize(p, wide) == |WireForm(p, wide)| ==>
              s.data == old(s.data) + AllBytes([Tlv(flags, code, WireForm(p, wide))])
  {
    ghost var was, form := s.data, WireForm(p, wide);
    OneBytes(Tlv(flags, code, form));
    var header: seq<byte> := [flags, code, 0, 0];
    var sizep := |s.data| + 2;
    s.Put(header);
    var size := BgpAspathPut.Put(s, p, wide);
    s.PutAt(sizep, Put16(size)[0]);
    s.PutAt(sizep + 1, Put16(size)[1]);
    LengthWritten(was, flags, code, form);
  }

  lemma {:induction false} LengthWritten(was: seq<byte>, flags: byte, code: byte, v: seq<byte>)
    requires Extended(flags)
    ensures var d := was + [flags, code, 0, 0] + v;
            && |was| + 3 < |d|
            && d[|was| + 2 := Put16(|v|)[0]][|was| + 3 := Put16(|v|)[1]] == was + TlvBytes(Tlv(flags, code, v))
    ensures |TlvBytes(Tlv(flags, code, v))| == 4 + |v|
  {}

  /** bgp_packet_attribute: given room for all of it, the stream gets the attributes
      in order. */
  method PacketAttribute(s: Stream, a: Attrs, wide: bool, send: bool)
    requires a.path.Some?
    modifies s
    ensures old(s.Holds(AllBytes(Sent(a, wide, send)))) && Within(a.path.value, 2 * AS_SEGMENT_MAX) ==>
              s.data == old(s.data) + AllBytes(Sent(a, wide, send))
  {
    ghost var fits := s.Holds(AllBytes(Sent(a, wide, send))) && Within(a.path.value, 2 * AS_SEGMENT_MAX);
    var path := a.path.value;
    ghost var later := Later(a, wide, send);
    if fits {
      PartFits(s.data, OriginPart(a), PathPart(path, wide) + (NextHopPart(a) + later), s.size);
      PartFits(s.data + AllBytes(OriginPart(a)), PathPart(path, wide), NextHopPart(a) + later, s.size);
      PartFits(s.data + AllBytes(OriginPart(a)) + AllBytes(PathPart(path, wide)), NextHopPart(a), later, s.size);
    }
    SizeIsExact(path, wide);
    PutTlv(s, OriginPart(a));
    PutPath(s, TRANS + EXTLEN, AS_PATH, path, wide);
    PutTlv(s, NextHopPart(a));
    PutLater(s, a, wide, send);
  }

  method PutLater(s: Stream, a: Attrs, wide: bool, send: bool)
    requires a.path.Some?
    modifies s
    ensures old(s.Holds(AllBytes(Later(a, wide, send)))) && Within(a.path.value, 2 * AS_SEGMENT_MAX) ==>
              s.data == old(s.data) + AllBytes(Later(a, wide, send))
  {
    ghost var last := Last(a, wide, send);
    if s.Holds(AllBytes(Later(a, wide, send))) {
      PartFits(s.data, MedPart(a), LocalPrefPart(a) + (AtomicPart(a) + last), s.size);
      PartFits(s.data + AllBytes(MedPart(a)), LocalPrefPart(a), AtomicPart(a) + last, s.size);
      PartFits(s.data + AllBytes(MedPart(a)) + AllBytes(LocalPrefPart(a)), AtomicPart(a), last, s.size);
    }
    PutTlv(s, MedPart(a));
    PutTlv(s, LocalPrefPart(a));
    PutTlv(s, AtomicPart(a));
    PutLast(s, a, wide, send);
  }

  method PutLast(s: Stream, a: Attrs, wide: bool, send: bool)
    requires a.path.Some?
    modifies s
    ensures old(s.Holds(AllBytes(Last(a, wide, send)))) && Within(a.path.value, 2 * AS_SEGMENT_MAX) ==>
              s.data == old(s.data) + AllBytes(Last(a, wide, send))
  {
    var path := a.path.value;
    ghost var p4, p3 := As4PathPart(path, wide), As4AggregatorPart(a, wide);
    if s.Holds(AllBytes(Last(a, wide, send))) {
      PartFits(s.data, AggregatorPart(a, wide), CommunityPart(a, send) + (p4 + p3), s.size);
      PartFits(s.data + AllBytes(AggregatorPart(a, wide)), CommunityPart(a, send), p4 + p3, s.size);
      PartFits(s.data + AllBytes(AggregatorPart(a, wide)) + AllBytes(CommunityPart(a, send)), p4, p3, s.size);
    }
    PutTlv(s, AggregatorPart(a, wide));
    PutTlv(s, CommunityPart(a, send));
    PutAs4Path(s, path, wide);
    PutTlv(s, As4AggregatorPart(a, wide));
  }

  method PutAs4Path(s: Stream, path: Path, wide: bool)
    modifies s
    ensures old(s.Holds(AllBytes(As4PathPart(path, wide)))) && Within(path, 2 * AS_SEGMENT_MAX) ==>
              s.data == old(s.data) + AllBytes(As4PathPart(path, wide))
  {
    if !wide && HasAs4(path) {
      WithoutConfedsWithin(path);
      SizeIsExact(WithoutConfeds(path), true);
      PutPath(s, OPTIONAL + TRANS + EXTLEN, AS4_PATH, WithoutConfeds(path), true);
    } else {
      assert s.data + [] == s.data;
    }
  }

  lemma {:induction false} WithoutConfedsWithin(p: Path)
    ensures Within(p, 2 * AS_SEGMENT_MAX) ==> Within(WithoutConfeds(p), 2 * AS_SEGMENT_MAX)
  {
    DropConfedsWithin(p);
  }

  lemma {:induction false} DropConfedsWithin(p: Path)
    ensures Within(p, 2 * AS_SEGMENT_MAX) ==> Within(DropConfeds(p), 2 * AS_SEGMENT_MAX)
    decreases |p|
  {
    if p != [] {
      assert forall i :: 0 <= i < |p[1..]| ==> p[1..][i] == p[i + 1];
      DropConfedsWithin(p[1..]);
    }
  }
}
