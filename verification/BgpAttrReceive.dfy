/** What bgp_attr_parse makes of any octets: which it accepts, and what the route then
    has of each attribute, by the type numbers and layouts of section 4.3 of RFC 4271 and
    the rules of section 4.2.3 of RFC 6793. */
module BgpAttrReceive {
  import opened Wrappers
  import opened Bytes
  import opened BgpAspath
  import opened BgpAspathWire
  import opened BgpReconcile
  import opened BgpAttr

  /** The value of the first attribute of that type in the octets. */
  function Value(d: seq<byte>, code: byte): Option<seq<byte>>
    decreases |d|
  {
    var first := FirstTlv(d);
    if first.None? then None
    else if first.value.0.code == code then Some(first.value.0.value)
    else Value(first.value.1, code)
  }

  function Number(v: Option<seq<byte>>): Option<nat> {
    if v.None? then None else Some(Get32(v.value, 0))
  }

  function PathIn(v: Option<seq<byte>>, wide: bool): Option<Path> {
    if v.None? then None else Parse(v.value, |v.value|, wide)
  }

  /** An aggregator: its AS number in two octets or four, then its address. */
  function AggregatorIn(v: Option<seq<byte>>, wide: bool): Option<Aggregator> {
    if v.None? then None
    else if wide then Some(Aggregator(Get32(v.value, 0), Get32(v.value, 4)))
    else Some(Aggregator(Get16(v.value, 0), Get32(v.value, 2)))
  }

  function CommunitiesIn(v: Option<seq<byte>>): Option<seq<nat>> {
    if v.None? || v.value == [] then None else Some(SortUnique(ReadAsns(v.value, |v.value| / 4, true)))
  }

  /** A field read, or what it was before. */
  function Or<T>(read: Option<T>, was: Option<T>): Option<T> {
    if read.Some? then read else was
  }

  /** The attributes the octets hold, type by type. */
  predicate Read(q: Parsed, d: seq<byte>, p: Parsed, ses: Session) {
    && q.attrs.origin
       == (if Value(d, 1).None? then p.attrs.origin else Some(At(Value(d, 1).value, 0)))
    && q.attrs.path == Or(PathIn(Value(d, 2), ses.wide), p.attrs.path)
    && q.attrs.nextHop == Or(Number(Value(d, 3)), p.attrs.nextHop)
    && q.attrs.med == Or(Number(Value(d, 4)), p.attrs.med)
    && q.attrs.localPref == Or(Number(Value(d, 5)), p.attrs.localPref)
    && q.attrs.atomic == (p.attrs.atomic || Value(d, 6).Some?)
    && q.attrs.aggregator == Or(AggregatorIn(Value(d, 7), ses.wide), p.attrs.aggregator)
    && q.attrs.communities == Or(CommunitiesIn(Value(d, 8)), p.attrs.communities)
    && q.as4Path == Or(PathIn(Value(d, 17), true), p.as4Path)
    && q.as4Aggregator == Or(AggregatorIn(Value(d, 18), true), p.as4Aggregator)
    && (forall c :: c in q.others <==> c in p.others || (c in {9, 10, 14, 15, 16} && Value(d, c).Some?))
  }

  // ----- What is accepted -----

  /** The attributes the octets are made of, if they are. */
  function Split(d: seq<byte>): Option<seq<Tlv>>
    decreases |d|
  {
    if d == [] then Some([])
    else if FirstTlv(d).None? then None
    else
      var rest := Split(FirstTlv(d).value.1);
      if rest.None? then None else Some([FirstTlv(d).value.0] + rest.value)
  }

  /** The flags a type is to have: well-known ones are transitive and not partial;
      optional ones that are not transitive are not partial either. */
  predicate FlagsOk(code: byte, f: byte) {
    if code in {1, 2, 3, 5, 6} then f / 32 == 2
    else if code in {4, 9, 10, 14, 15} then f / 32 == 4
    else if code in {7, 8, 16, 17, 18} then f / 64 == 3
    else true
  }

  lemma {:induction false} FlagsExactly(code: byte, f: byte)
    ensures FlagInvalid(code, f) <==> !FlagsOk(code, f)
  {
    assert f / 32 == 4 * (f / 128 % 2) + 2 * (f / 64 % 2) + f / 32 % 2;
    assert f / 64 == 2 * (f / 128 % 2) + f / 64 % 2;
  }

  /** A next hop is not of network 0 or 127 or of class D or E. */
  predicate NextHopOk(v: seq<byte>) {
    |v| == 4 && v[0] != 0 && v[0] != 127 && v[0] < 224
  }

  /** The values a type may have. */
  predicate ValueOk(code: byte, v: seq<byte>, ses: Session) {
    if code == 1 then v in {[0], [1], [2]}
    else if code == 2 then Parse(v, |v|, ses.wide).Some?
    else if code == 3 then NextHopOk(v)
    else if code == 4 || code == 5 then |v| == 4
    else if code == 6 then v == []
    else if code == 7 then |v| == if ses.wide then 8 else 6
    else if code == 8 then |v| % 4 == 0
    else if code == 17 then Parse(v, |v|, true).Some?
    else if code == 18 then |v| == 8
    else ses.accepts(code, v)
  }

  predicate AttributeOk(t: Tlv, ses: Session) {
    FlagsOk(t.code, t.flags) && ValueOk(t.code, t.value, ses)
  }

  lemma {:induction false} MartianOctet(v: seq<byte>)
    requires |v| == 4
    ensures Martian(Get32(v, 0)) <==> !NextHopOk(v)
  {
    var a: int, b: int, c: int, e: int := v[0], v[1], v[2], v[3];
    var low, addr := b * 0x10000 + c * 256 + e, Get32(v, 0);
    assert addr == a * 0x1000000 + low && 0 <= low < 0x1000000;
    assert addr / 0x1000000 == a && addr / 0x20000000 == a / 32;
  }

  /** One attribute is accepted exactly when it is new and in order. */
  lemma {:induction false} OneAccepted(t: Tlv, p: Parsed, ses: Session)
    ensures ParseOne(t, p, ses).Some? <==> t.code !in p.seen && AttributeOk(t, ses)
    ensures ParseOne(t, p, ses).Some? ==> ParseOne(t, p, ses).value.seen == p.seen + {t.code}
  {
    FlagsExactly(t.code, t.flags);
    if t.code == 3 && |t.value| == 4 {
      MartianOctet(t.value);
    }
    if t.code == 1 && |t.value| == 1 {
      assert t.value == [t.value[0]];
    }
  }

  /** What one attribute changes. */
  lemma {:induction false} OneRead(t: Tlv, p: Parsed, ses: Session)
    requires ParseOne(t, p, ses).Some?
    ensures var q, v := ParseOne(t, p, ses).value, Some(t.value);
            && q.attrs.origin == (if t.code == 1 then Some(At(t.value, 0)) else p.attrs.origin)
            && q.attrs.path == (if t.code == 2 then PathIn(v, ses.wide) else p.attrs.path)
            && q.attrs.nextHop == (if t.code == 3 then Number(v) else p.attrs.nextHop)
            && q.attrs.med == (if t.code == 4 then Number(v) else p.attrs.med)
            && q.attrs.localPref == (if t.code == 5 then Number(v) else p.attrs.localPref)
            && q.attrs.atomic == (t.code == 6 || p.attrs.atomic)
            && q.attrs.aggregator == (if t.code == 7 then AggregatorIn(v, ses.wide) else p.attrs.aggregator)
            && q.attrs.communities == (if t.code == 8 then Or(CommunitiesIn(v), p.attrs.communities)
                                       else p.attrs.communities)
            && q.as4Path == (if t.code == 17 then PathIn(v, true) else p.as4Path)
            && q.as4Aggregator == (if t.code == 18 then AggregatorIn(v, true) else p.as4Aggregator)
            && q.others == p.others + (if t.code in {9, 10, 14, 15, 16} then {t.code} else {})
  {}

  // ----- All of them -----

  predicate InOrder(ts: seq<Tlv>, seen: set<byte>, ses: Session) {
    && (forall i :: 0 <= i < |ts| ==> AttributeOk(ts[i], ses) && ts[i].code !in seen)
    && (forall i, j :: 0 <= i < j < |ts| ==> ts[i].code != ts[j].code)
  }

  lemma {:induction false} InOrderTail(t: Tlv, ts: seq<Tlv>, seen: set<byte>, ses: Session)
    ensures InOrder([t] + ts, seen, ses) <==>
              AttributeOk(t, ses) && t.code !in seen && InOrder(ts, seen + {t.code}, ses)
  {
    var all := [t] + ts;
    assert forall i :: 0 <= i < |ts| ==> all[i + 1] == ts[i];
    if InOrder(all, seen, ses) {
      assert all[0] == t;
      forall i | 0 <= i < |ts| ensures AttributeOk(ts[i], ses) && ts[i].code !in seen + {t.code} {
        assert all[i + 1].code != all[0].code && AttributeOk(all[i + 1], ses);
      }
      forall i, j | 0 <= i < j < |ts| ensures ts[i].code != ts[j].code {
        assert all[i + 1].code != all[j + 1].code;
      }
    }
  }

  /** The loop gets through exactly when the octets split into attributes, each in
      order and none of a type that occurs twice. */
  lemma {:induction false} AllAccepted(d: seq<byte>, p: Parsed, ses: Session)
    ensures ParseAll(d, p, ses).Some? <==> Split(d).Some? && InOrder(Split(d).value, p.seen, ses)
    decreases |d|
  {
    if d != [] && FirstTlv(d).Some? {
      var t, rest := FirstTlv(d).value.0, FirstTlv(d).value.1;
      OneAccepted(t, p, ses);
      if Split(rest).Some? {
        InOrderTail(t, Split(rest).value, p.seen, ses);
      }
      if ParseOne(t, p, ses).Some? {
        AllAccepted(rest, ParseOne(t, p, ses).value, ses);
      }
    }
  }

  /** No attribute of a type already seen is accepted. */
  lemma {:induction false} SeenIsAbsent(d: seq<byte>, p: Parsed, ses: Session, code: byte)
    requires ParseAll(d, p, ses).Some? && code in p.seen
    ensures Value(d, code).None?
    decreases |d|
  {
    if d != [] {
      var t, rest := FirstTlv(d).value.0, FirstTlv(d).value.1;
      OneAccepted(t, p, ses);
      SeenIsAbsent(rest, ParseOne(t, p, ses).value, ses, code);
    }
  }

  /** The loop reads of each type what the octets hold of it. */
  lemma {:induction false} AllRead(d: seq<byte>, p: Parsed, ses: Session)
    requires ParseAll(d, p, ses).Some?
    ensures Read(ParseAll(d, p, ses).value, d, p, ses)
    decreases |d|
  {
    if d != [] {
      var t, rest := FirstTlv(d).value.0, FirstTlv(d).value.1;
      var p1 := ParseOne(t, p, ses).value;
      OneAccepted(t, p, ses);
      OneRead(t, p, ses);
      AllRead(rest, p1, ses);
      SeenIsAbsent(rest, p1, ses, t.code);
    }
  }

  lemma {:induction false} ValueAccepted(d: seq<byte>, p: Parsed, ses: Session, code: byte)
    requires ParseAll(d, p, ses).Some? && Value(d, code).Some?
    ensures ValueOk(code, Value(d, code).value, ses)
    decreases |d|
  {
    var t, rest := FirstTlv(d).value.0, FirstTlv(d).value.1;
    OneAccepted(t, p, ses);
    if t.code != code {
      ValueAccepted(rest, ParseOne(t, p, ses).value, ses, code);
    }
  }

  lemma {:induction false} PathsAccepted(d: seq<byte>, p: Parsed, ses: Session)
    requires ParseAll(d, p, ses).Some?
    ensures Value(d, 2).Some? ==> PathIn(Value(d, 2), ses.wide).Some?
    ensures Value(d, 17).Some? ==> PathIn(Value(d, 17), true).Some?
  {
    if Value(d, 2).Some? {
      ValueAccepted(d, p, ses, 2);
    }
    if Value(d, 17).Some? {
      ValueAccepted(d, p, ses, 17);
    }
  }

  /** The octets have ORIGIN, AS_PATH and LOCAL_PREF, and a next hop in NEXT_HOP or
      in MP_REACH_NLRI. */
  predicate Mandatory(d: seq<byte>) {
    && Value(d, 1).Some? && Value(d, 2).Some? && Value(d, 5).Some?
    && (Value(d, 3).Some? || Value(d, 14).Some?)
  }

  /** They have no attribute of these types, nor any community. */
  predicate Without(d: seq<byte>, codes: set<byte>) {
    (forall c :: c in codes ==> Value(d, c).None?) && CommunitiesIn(Value(d, 8)).None?
  }

  /** Nothing but MP_UNREACH_NLRI; or nothing at all, from a peer that restarts
      gracefully. */
  predicate Withdrawal(d: seq<byte>, restart: bool) {
    Without(d, {1, 2, 3, 4, 5, 6, 7, 9, 10, 14, 16, 17, 18}) && (Value(d, 15).Some? || restart)
  }

  lemma {:induction false} WithoutMeans(d: seq<byte>)
    ensures Without(d, {1, 2, 3, 4, 5, 6, 7, 9, 10, 14, 16, 17, 18}) <==>
              && Value(d, 1).None? && Value(d, 2).None? && Value(d, 3).None? && Value(d, 4).None?
              && Value(d, 5).None? && Value(d, 6).None? && Value(d, 7).None? && Value(d, 9).None?
              && Value(d, 10).None? && Value(d, 14).None? && Value(d, 16).None? && Value(d, 17).None?
              && Value(d, 18).None? && CommunitiesIn(Value(d, 8)).None?
  {}

  lemma {:induction false} CompleteExactly(d: seq<byte>, ses: Session)
    requires ParseAll(d, NOTHING_READ, ses).Some?
    ensures Complete(ParseAll(d, NOTHING_READ, ses).value, ses) <==> Mandatory(d) || Withdrawal(d, ses.restart)
  {
    var q := ParseAll(d, NOTHING_READ, ses).value;
    AllRead(d, NOTHING_READ, ses);
    PathsAccepted(d, NOTHING_READ, ses);
    WithoutMeans(d);
    OthersRead(q, d);
    assert q.attrs == NO_ATTRS <==>
             && q.attrs.origin.None? && q.attrs.path.None? && q.attrs.nextHop.None? && q.attrs.med.None?
             && q.attrs.localPref.None? && !q.attrs.atomic && q.attrs.aggregator.None? && q.attrs.communities.None?;
  }

  lemma {:induction false} OthersRead(q: Parsed, d: seq<byte>)
    requires forall c :: c in q.others <==> c in {9, 10, 14, 15, 16} && Value(d, c).Some?
    ensures q.others == {} <==>
              && Value(d, 9).None? && Value(d, 10).None? && Value(d, 14).None? && Value(d, 15).None?
              && Value(d, 16).None?
    ensures q.others == {15} <==>
              && Value(d, 9).None? && Value(d, 10).None? && Value(d, 14).None? && Value(d, 15).Some?
              && Value(d, 16).None?
    ensures 14 in q.others <==> Value(d, 14).Some?
  {
    if q.others == {} {
      assert 9 !in q.others && 10 !in q.others && 14 !in q.others && 15 !in q.others && 16 !in q.others;
    }
    if q.others == {15} {
      assert 9 !in q.others && 10 !in q.others && 14 !in q.others && 15 in q.others && 16 !in q.others;
    }
  }

  /** What is accepted, of all octets: those that split into attributes with the flags
      and values their types may have, none of a type that occurs twice, that have all
      a route must have or are a withdrawal. */
  lemma {:induction false} AcceptedExactly(d: seq<byte>, ses: Session)
    ensures Receive(d, ses).Some? <==>
              && Split(d).Some? && InOrder(Split(d).value, {}, ses)
              && (Mandatory(d) || Withdrawal(d, ses.restart))
  {
    AllAccepted(d, NOTHING_READ, ses);
    if ParseAll(d, NOTHING_READ, ses).Some? {
      CompleteExactly(d, ses);
    }
  }

  /** What an accepted route has of the attributes that AS number width does not
      touch. */
  lemma {:induction false} FieldsExactly(d: seq<byte>, ses: Session)
    requires Receive(d, ses).Some?
    ensures var r := Receive(d, ses).value;
            && r.origin == (if Value(d, 1).None? then None else Some(At(Value(d, 1).value, 0)))
            && r.nextHop == Number(Value(d, 3)) && r.med == Number(Value(d, 4)) && r.localPref == Number(Value(d, 5))
            && r.atomic == Value(d, 6).Some? && r.communities == CommunitiesIn(Value(d, 8))
  {
    AllRead(d, NOTHING_READ, ses);
  }

  /** From a peer with 4-octet AS numbers, AS_PATH and AGGREGATOR are taken as they
      are, whatever else was sent. */
  lemma {:induction false} WideExactly(d: seq<byte>, ses: Session)
    requires Receive(d, ses).Some? && ses.wide
    ensures var r := Receive(d, ses).value;
            r.path == PathIn(Value(d, 2), true) && r.aggregator == AggregatorIn(Value(d, 7), true)
  {
    AllRead(d, NOTHING_READ, ses);
  }

  /** From a peer with 2-octet AS numbers that sends both AGGREGATOR and
      AS4_AGGREGATOR, whether the former is AS_TRANS decides: if it is not, AS_PATH and
      AGGREGATOR are taken as they are and AS4_PATH is ignored too; if it is,
      AS4_AGGREGATOR is taken.  AS4_AGGREGATOR without AGGREGATOR is taken, but for the
      address.  But in the first case AS_PATH is reconciled with AS4_PATH. */
  lemma {:induction false} NarrowExactly(d: seq<byte>, ses: Session)
    requires Receive(d, ses).Some? && !ses.wide && Value(d, 2).Some?
    ensures var r, path := Receive(d, ses).value, PathIn(Value(d, 2), false);
            var g, g4 := AggregatorIn(Value(d, 7), false), AggregatorIn(Value(d, 18), true);
            var path4 := PathIn(Value(d, 17), true);
            && path.Some?
            && (g4.Some? && g.Some? && g.value.asn != 23456 ==> r.aggregator == g && r.path == path)
            && (g4.Some? && g.Some? && g.value.asn == 23456 ==> r.aggregator == g4)
            && (g4.Some? && g.None? ==> r.aggregator.Some? && r.aggregator.value.asn == g4.value.asn)
            && (g4.None? ==> r.aggregator == g)
            && (g4.None? || g.None? || g.value.asn == 23456 ==>
                  r.path == if path4.None? then path else Some(Reconcile(path.value, path4.value)))
  {
    AllRead(d, NOTHING_READ, ses);
    PathsAccepted(d, NOTHING_READ, ses);
  }
}
