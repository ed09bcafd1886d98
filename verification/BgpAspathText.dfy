/** AS paths as text: aspath_make_str_count and aspath_str2aspath. */
module BgpAspathText {
  import opened Wrappers
  import opened BgpAspath
  import opened BgpAspathWire
  import opened BgpAspathPut

  // ----- Numbers -----

  function DigitChar(d: nat): char
    requires d < 10
  {
    '0' + d as char
  }

  predicate IsDigit(c: char) { '0' <= c <= '9' }

  function DigitValue(c: char): nat
    requires IsDigit(c)
  {
    (c - '0') as nat
  }

  /** printf's %u. */
  function Decimal(n: nat): (s: string)
    ensures s != [] && IsDigit(s[0])
  {
    if n < 10 then [DigitChar(n)] else Decimal(n / 10) + [DigitChar(n % 10)]
  }

  function Power10(k: nat): nat {
    if k == 0 then 1 else 10 * Power10(k - 1)
  }

  lemma {:induction false} DecimalLength(n: nat, k: nat)
    requires k >= 1 && n < Power10(k)
    ensures |Decimal(n)| <= k
    decreases n
  {
    assert Power10(1) == 10;
    if n >= 10 {
      assert Power10(k) == 10 * Power10(k - 1);
      DecimalLength(n / 10, k - 1);
    }
  }

  /** A 32-bit AS number takes at most ten characters. */
  lemma {:induction false} AsnLength(n: nat)
    requires n < 0x1_0000_0000
    ensures |Decimal(n)| <= 10
  {
    assert Power10(2) == 100;
    assert Power10(4) == 10000;
    assert Power10(6) == 1000000;
    assert Power10(8) == 100000000;
    assert Power10(10) == 10000000000;
    DecimalLength(n, 10);
  }

  /** One digit more, in 32 bits. */
  function Shifted(value: nat, d: nat): nat {
    (value * 10 + d) % 0x1_0000_0000
  }

  /** The digits at the front, read into a 32-bit number. */
  function ReadNumber(value: nat, s: string): (nat, string)
    decreases |s|
  {
    if s != [] && IsDigit(s[0])
    then ReadNumber(Shifted(value, DigitValue(s[0])), s[1..])
    else (value, s)
  }

  lemma {:induction false} ReadDigit(value: nat, d: nat, rest: string)
    requires d < 10
    ensures ReadNumber(value, [DigitChar(d)] + rest) == ReadNumber(Shifted(value, d), rest)
  {
    assert ([DigitChar(d)] + rest)[1..] == rest;
  }

  lemma {:induction false} LastDigit(n: nat, rest: string)
    requires n >= 10
    ensures Decimal(n) + rest == Decimal(n / 10) + ([DigitChar(n % 10)] + rest)
  {}

  lemma {:induction false} ReadDecimal(n: nat, rest: string)
    requires n < 0x1_0000_0000
    ensures ReadNumber(0, Decimal(n) + rest) == ReadNumber(n, rest)
    decreases n
  {
    if n < 10 {
      ReadDigit(0, n, rest);
    } else {
      var m, d := n / 10, n % 10;
      assert Shifted(m, d) == n;
      LastDigit(n, rest);
      ReadDecimal(m, [DigitChar(d)] + rest);
      ReadDigit(m, d, rest);
    }
  }

  // ----- Writing -----

  function Separator(k: Kind): char { if IsSet(k) then ',' else ' ' }

  function Opening(k: Kind): string {
    match k case Set => "{" case ConfedSet => "[" case ConfedSequence => "(" case Sequence => ""
  }

  function Closing(k: Kind): string {
    match k case Set => "}" case ConfedSet => "]" case ConfedSequence => ")" case Sequence => ""
  }

  function AsnsText(asns: seq<nat>, sep: char): string {
    if asns == [] then ""
    else Decimal(asns[0]) + (if |asns| == 1 then "" else [sep] + AsnsText(asns[1..], sep))
  }

  function SegmentText(s: Segment): string {
    Opening(s.kind) + (AsnsText(s.asns, Separator(s.kind)) + Closing(s.kind))
  }

  /** The string form of a path. */
  function Text(p: Path): string {
    if p == [] then ""
    else SegmentText(p[0]) + (if |p| == 1 then "" else " " + Text(p[1..]))
  }

  // ----- Reading -----

  datatype Token = AsVal(asno: nat) | Open(kind: Kind) | Close | Unknown

  predicate IsSeparator(c: char) {
    c == ' ' || c == ',' || c == '\t' || c == '\n' || c == '\r' || c == '\U{000B}' || c == '\U{000C}'
  }

  function SkipSeparators(s: string): (r: string)
    ensures |r| <= |s| && (r != [] ==> !IsSeparator(r[0]))
  {
    if s != [] && IsSeparator(s[0]) then SkipSeparators(s[1..]) else s
  }

  /** aspath_gettoken: the next token and what follows it. */
  function NextToken(s: string): Option<(Token, string)> {
    var p := SkipSeparators(s);
    if p == [] || p[0] == '\0' then None
    else if p[0] == '{' then Some((Open(Set), p[1..]))
    else if p[0] == '}' then Some((Close, p[1..]))
    else if p[0] == '(' then Some((Open(ConfedSequence), p[1..]))
    else if p[0] == ')' then Some((Close, p[1..]))
    else if p[0] == '[' then Some((Open(ConfedSet), p[1..]))
    else if p[0] == ']' then Some((Close, p[1..]))
    else if IsDigit(p[0]) then
      var r := ReadNumber(DigitValue(p[0]), p[1..]);
      Some((AsVal(r.0), r.1))
    else Some((Unknown, p))
  }

  lemma {:induction false} NumberShrinks(value: nat, s: string)
    ensures |ReadNumber(value, s).1| <= |s|
    decreases |s|
  {
    if s != [] && IsDigit(s[0]) {
      NumberShrinks(Shifted(value, DigitValue(s[0])), s[1..]);
    }
  }

  lemma {:induction false} TokenShrinks(s: string)
    ensures NextToken(s).Some? && !NextToken(s).value.0.Unknown? ==> |NextToken(s).value.1| < |s|
  {
    var p := SkipSeparators(s);
    if p != [] && IsDigit(p[0]) {
      NumberShrinks(DigitValue(p[0]), p[1..]);
    }
  }

  /** aspath_as_add. */
  function AddAsn(p: Path, asn: nat): Path
    requires p != []
  {
    p[|p| - 1 := p[|p| - 1].(asns := p[|p| - 1].asns + [asn])]
  }

  /** The parser between two tokens. */
  datatype Parser = Parser(segs: Path, kind: Kind, needType: bool)

  predicate Ready(st: Parser) { st.needType || st.segs != [] }

  function Act(st: Parser, t: Token): (r: Parser)
    requires Ready(st)
    ensures Ready(r)
  {
    match t
    case AsVal(asn) =>
      var segs := if st.needType then st.segs + [Segment(st.kind, [])] else st.segs;
      Parser(AddAsn(segs, asn), st.kind, false)
    case Open(k) => Parser(st.segs + [Segment(k, [])], k, false)
    case Close => Parser(st.segs, Sequence, true)
    case Unknown => st
  }

  function Scan(s: string, st: Parser): Option<Path>
    requires Ready(st)
    decreases |s|
  {
    var t := NextToken(s);
    if t.None? then Some(st.segs)
    else if t.value.0.Unknown? then None
    else
      TokenShrinks(s);
      Scan(t.value.1, Act(st, t.value.0))
  }

  const START := Parser([], Sequence, true)

  /** aspath_str2aspath. */
  function FromText(s: string): Option<Path> {
    Scan(s, START)
  }

  // ----- Reading what was written -----

  /** Not the continuation of a number. */
  predicate Stops(s: string) { s == [] || !IsDigit(s[0]) }

  lemma {:induction false} TokenOfNumber(n: nat, rest: string)
    requires n < 0x1_0000_0000 && Stops(rest)
    ensures NextToken(Decimal(n) + rest) == Some((AsVal(n), rest))
  {
    var s := Decimal(n) + rest;
    assert SkipSeparators(s) == s;
    ReadDecimal(n, rest);
    assert Shifted(0, DigitValue(s[0])) == DigitValue(s[0]);
    assert ReadNumber(0, s) == ReadNumber(DigitValue(s[0]), s[1..]);
    assert ReadNumber(n, rest) == (n, rest);
  }

  lemma {:induction false} ScanSeparator(c: char, rest: string, st: Parser)
    requires Ready(st) && IsSeparator(c)
    ensures Scan([c] + rest, st) == Scan(rest, st)
  {
    assert ([c] + rest)[1..] == rest;
    assert SkipSeparators([c] + rest) == SkipSeparators(rest);
  }

  lemma {:induction false} ScanNumber(n: nat, rest: string, st: Parser)
    requires n < 0x1_0000_0000 && Stops(rest) && Ready(st)
    ensures Scan(Decimal(n) + rest, st) == Scan(rest, Act(st, AsVal(n)))
  {
    TokenOfNumber(n, rest);
    TokenShrinks(Decimal(n) + rest);
  }

  function AddAsns(p: Path, asns: seq<nat>): Path
    requires p != []
  {
    p[|p| - 1 := p[|p| - 1].(asns := p[|p| - 1].asns + asns)]
  }

  /** The text after the first AS number. */
  function LaterAsns(asns: seq<nat>, sep: char): string
    requires asns != []
  {
    if |asns| == 1 then "" else [sep] + AsnsText(asns[1..], sep)
  }

  lemma {:induction false} ScanFirst(asns: seq<nat>, sep: char, rest: string, st: Parser)
    requires asns != [] && Fits(asns, true) && Stops(rest) && (sep == ' ' || sep == ',') && Ready(st)
    ensures Scan(AsnsText(asns, sep) + rest, st) == Scan(LaterAsns(asns, sep) + rest, Act(st, AsVal(asns[0])))
  {
    var later := LaterAsns(asns, sep);
    assert AsnsText(asns, sep) + rest == Decimal(asns[0]) + (later + rest);
    assert Stops(later + rest);
    ScanNumber(asns[0], later + rest, st);
  }

  lemma {:induction false} ScanLater(asns: seq<nat>, sep: char, rest: string, st: Parser)
    requires |asns| > 1 && (sep == ' ' || sep == ',') && Ready(st)
    ensures Scan(LaterAsns(asns, sep) + rest, st) == Scan(AsnsText(asns[1..], sep) + rest, st)
  {
    assert LaterAsns(asns, sep) + rest == [sep] + (AsnsText(asns[1..], sep) + rest);
    ScanSeparator(sep, AsnsText(asns[1..], sep) + rest, st);
  }

  /** Inside a segment, AS numbers are added to it one by one. */
  lemma {:induction false} ScanAsns(asns: seq<nat>, sep: char, rest: string, st: Parser)
    requires Fits(asns, true) && Stops(rest) && !st.needType && st.segs != [] && (sep == ' ' || sep == ',')
    ensures Scan(AsnsText(asns, sep) + rest, st) == Scan(rest, st.(segs := AddAsns(st.segs, asns)))
    decreases |asns|
  {
    if asns == [] {
      assert AsnsText(asns, sep) + rest == rest;
      AddNone(st.segs, asns);
    } else {
      var st1 := Act(st, AsVal(asns[0]));
      ScanFirst(asns, sep, rest, st);
      if |asns| == 1 {
        assert LaterAsns(asns, sep) + rest == rest;
        AddOne(st.segs, asns);
      } else {
        var tail := asns[1..];
        ScanLater(asns, sep, rest, st1);
        assert forall i :: 0 <= i < |tail| ==> tail[i] == asns[i + 1];
        ScanAsns(tail, sep, rest, st1);
        AddedInTurn(st.segs, asns);
      }
    }
  }

  lemma {:induction false} AddNone(p: Path, asns: seq<nat>)
    requires p != [] && asns == []
    ensures AddAsns(p, asns) == p
  {
    assert p[|p| - 1].asns + asns == p[|p| - 1].asns;
    assert p[|p| - 1].(asns := p[|p| - 1].asns + asns) == p[|p| - 1];
  }

  lemma {:induction false} AddToNew(acc: Path, s: Segment)
    ensures AddAsns(acc + [Segment(s.kind, [])], s.asns) == acc + [s]
  {
    assert [] + s.asns == s.asns;
  }

  lemma {:induction false} AddOne(p: Path, asns: seq<nat>)
    requires p != [] && |asns| == 1
    ensures AddAsns(p, asns) == AddAsn(p, asns[0])
  {
    assert asns == [asns[0]];
  }

  lemma {:induction false} AddedInTurn(p: Path, asns: seq<nat>)
    requires p != [] && asns != []
    ensures AddAsns(AddAsn(p, asns[0]), asns[1..]) == AddAsns(p, asns)
  {
    var l := p[|p| - 1].asns;
    assert l + [asns[0]] + asns[1..] == l + asns;
  }

  /** How reading a segment's text extends the path read so far: an AS_SEQUENCE
      continues one that came just before, an empty one leaves no trace. */
  function Extend(acc: Path, s: Segment): Path {
    if s.kind == Sequence && s.asns == [] then acc
    else if s.kind == Sequence && acc != [] && acc[|acc| - 1].kind == Sequence then AddAsns(acc, s.asns)
    else acc + [s]
  }

  /** The parser after the text of some segments. */
  function Between(acc: Path): (st: Parser)
    ensures Ready(st)
  {
    Parser(acc, Sequence, acc == [] || acc[|acc| - 1].kind != Sequence)
  }

  lemma {:induction false} ScanRun(acc: Path, asns: seq<nat>, rest: string)
    requires asns != [] && Fits(asns, true) && Stops(rest)
    ensures Scan(AsnsText(asns, ' ') + rest, Between(acc)) == Scan(rest, Between(Extend(acc, Segment(Sequence, asns))))
  {
    var st := Between(acc);
    if !st.needType {
      ScanAsns(asns, ' ', rest, st);
    } else {
      var open := Parser(acc + [Segment(Sequence, [])], Sequence, false);
      ScanFirst(asns, ' ', rest, st);
      ScanFirst(asns, ' ', rest, open);
      ScanAsns(asns, ' ', rest, open);
      AddToNew(acc, Segment(Sequence, asns));
    }
  }

  lemma {:induction false} ScanBracket(k: Kind, rest: string, st: Parser)
    requires k != Sequence && Ready(st)
    ensures Scan(Opening(k) + rest, st) == Scan(rest, Act(st, Open(k)))
    ensures Scan(Closing(k) + rest, st) == Scan(rest, Act(st, Close))
  {
    var a, b := Opening(k) + rest, Closing(k) + rest;
    assert a[1..] == rest && b[1..] == rest;
    assert NextToken(a) == Some((Open(k), rest));
    assert NextToken(b) == Some((Close, rest));
  }

  lemma {:induction false} GroupText(s: Segment, rest: string)
    ensures SegmentText(s) + rest == Opening(s.kind) + (AsnsText(s.asns, Separator(s.kind)) + (Closing(s.kind) + rest))
  {}

  lemma {:induction false} ScanGroup(acc: Path, s: Segment, rest: string)
    requires s.kind != Sequence && Fits(s.asns, true)
    ensures Scan(SegmentText(s) + rest, Between(acc)) == Scan(rest, Between(Extend(acc, s)))
  {
    var k, sep := s.kind, Separator(s.kind);
    var body := AsnsText(s.asns, sep);
    var after := Closing(k) + rest;
    GroupText(s, rest);
    ScanBracket(k, body + after, Between(acc));
    assert Stops(after);
    ScanAsns(s.asns, sep, after, Parser(acc + [Segment(k, [])], k, false));
    AddToNew(acc, s);
    ScanClose(acc, s, rest);
  }

  lemma {:induction false} ScanClose(acc: Path, s: Segment, rest: string)
    requires s.kind != Sequence
    ensures Scan(Closing(s.kind) + rest, Parser(acc + [s], s.kind, false)) == Scan(rest, Between(Extend(acc, s)))
  {
    ScanBracket(s.kind, rest, Parser(acc + [s], s.kind, false));
  }

  lemma {:induction false} ScanSegment(acc: Path, s: Segment, rest: string)
    requires Fits(s.asns, true) && Stops(rest)
    ensures Scan(SegmentText(s) + rest, Between(acc)) == Scan(rest, Between(Extend(acc, s)))
  {
    if s.kind != Sequence {
      ScanGroup(acc, s, rest);
    } else if s.asns == [] {
      assert SegmentText(s) + rest == rest;
    } else {
      assert SegmentText(s) == AsnsText(s.asns, ' ');
      ScanRun(acc, s.asns, rest);
    }
  }

  function ExtendAll(acc: Path, p: Path): Path
    decreases |p|
  {
    if p == [] then acc else ExtendAll(Extend(acc, p[0]), p[1..])
  }

  predicate AllFit(p: Path) {
    forall i :: 0 <= i < |p| ==> Fits(p[i].asns, true)
  }

  lemma {:induction false} ScanText(acc: Path, p: Path)
    requires AllFit(p)
    ensures Scan(Text(p), Between(acc)) == Some(ExtendAll(acc, p))
    decreases |p|
  {
    if p == [] {
      assert NextToken("").None?;
    } else {
      var rest := p[1..];
      assert forall i :: 0 <= i < |rest| ==> rest[i] == p[i + 1];
      var acc1 := Extend(acc, p[0]);
      ScanText(acc1, rest);
      if |p| == 1 {
        assert rest == [];
        ScanSegment(acc, p[0], "");
      } else {
        ScanSegment(acc, p[0], " " + Text(rest));
        ScanSeparator(' ', Text(rest), Between(acc1));
      }
    }
  }

  // ----- What survives the text -----

  lemma {:induction false} MeaningSnoc(acc: Path, s: Segment)
    ensures Meaning(acc + [s]) == Meaning(acc) + SegmentMeaning(s)
  {
    MeaningJoined(acc, [s]);
    assert [s][1..] == [];
  }

  lemma {:induction false} ContinuedMeaning(front: Path, a: seq<nat>, b: seq<nat>)
    ensures Meaning(front + [Segment(Sequence, a + b)]) == Meaning(front + [Segment(Sequence, a)]) + Hops(b)
  {
    MeaningSnoc(front, Segment(Sequence, a));
    MeaningSnoc(front, Segment(Sequence, a + b));
    assert Hops(a + b) == Hops(a) + Hops(b);
    assert Meaning(front) + (Hops(a) + Hops(b)) == Meaning(front) + Hops(a) + Hops(b);
  }

  lemma {:induction false} ExtendMeaning(acc: Path, s: Segment)
    ensures Meaning(Extend(acc, s)) == Meaning(acc) + SegmentMeaning(s)
  {
    if s.kind == Sequence && s.asns == [] {
      assert Hops(s.asns) == [];
    } else if s.kind == Sequence && acc != [] && acc[|acc| - 1].kind == Sequence {
      var front, last := acc[..|acc| - 1], acc[|acc| - 1];
      ContinuedMeaning(front, last.asns, s.asns);
      assert acc == front + [Segment(Sequence, last.asns)];
      assert AddAsns(acc, s.asns) == front + [Segment(Sequence, last.asns + s.asns)];
    } else {
      MeaningSnoc(acc, s);
    }
  }

  lemma {:induction false} ExtendAllMeaning(acc: Path, p: Path)
    ensures Meaning(ExtendAll(acc, p)) == Meaning(acc) + Meaning(p)
    decreases |p|
  {
    if p != [] {
      ExtendMeaning(acc, p[0]);
      ExtendAllMeaning(Extend(acc, p[0]), p[1..]);
    }
  }

  /** No AS_SEQUENCE is empty or follows another. */
  predicate Apart(p: Path) {
    && NoEmptySequence(p)
    && forall i :: 0 <= i < |p| - 1 ==> p[i].kind != Sequence || p[i + 1].kind != Sequence
  }

  lemma {:induction false} ExtendAllShorter(acc: Path, p: Path)
    ensures |ExtendAll(acc, p)| <= |acc| + |p|
    decreases |p|
  {
    if p != [] {
      ExtendAllShorter(Extend(acc, p[0]), p[1..]);
    }
  }

  lemma {:induction false} ExtendAllExact(acc: Path, p: Path)
    requires Apart(acc)
    ensures ExtendAll(acc, p) == acc + p <==> Apart(acc + p)
    decreases |p|
  {
    if p == [] {
      assert acc + p == acc;
    } else {
      var s, acc1, all := p[0], Extend(acc, p[0]), acc + p;
      assert all[|acc|] == s;
      if acc1 == acc + [s] {
        assert all == acc1 + p[1..];
        assert |acc1| == |acc| + 1 && Apart(acc1);
        ExtendAllExact(acc1, p[1..]);
      } else {
        ExtendAllShorter(acc1, p[1..]);
        assert |acc1| == |acc|;
        assert s.kind == Sequence;
        assert s.asns == [] || all[|acc| - 1].kind == Sequence;
      }
    }
  }

  /** Text round trip: every path is read back as one that means the same, and
      as itself exactly when no AS_SEQUENCE of it is empty or follows another. */
  lemma {:induction false} TextRoundTrip(p: Path)
    requires AllFit(p)
    ensures FromText(Text(p)).Some? && Meaning(FromText(Text(p)).value) == Meaning(p)
    ensures FromText(Text(p)) == Some(p) <==> Apart(p)
    ensures Normal(p) && NoEmptySequence(p) ==> FromText(Text(p)) == Some(p)
  {
    ScanText([], p);
    ExtendAllMeaning([], p);
    ExtendAllExact([], p);
    assert [] + p == p;
  }

  // ----- The code -----

  const ASPATH_STR_DEFAULT_LEN: nat := 32
  const ASN_STR_LEN: nat := 11

  /** snprintf at the end of a string in a buffer of so many octets: what does
      not fit before the final NUL is cut off, but counted. */
  method Snprintf(buf: string, len: nat, size: nat, s: string) returns (buf': string, len': nat)
    ensures len' == len + |s|
    ensures |buf| == len && len + |s| < size ==> buf' == buf + s
  {
    len' := len + |s|;
    if len' < size {
      buf' := buf + s;
    } else if len < size {
      buf' := buf + s[..size - len - 1];
    } else {
      buf' := buf;
    }
  }

  lemma {:induction false} AsnsLength(asns: seq<nat>, sep: char)
    requires Fits(asns, true)
    ensures |AsnsText(asns, sep)| <= ASN_STR_LEN * |asns|
    decreases |asns|
  {
    if asns != [] {
      AsnLength(asns[0]);
      assert forall i :: 0 <= i < |asns[1..]| ==> asns[1..][i] == asns[i + 1];
      AsnsLength(asns[1..], sep);
    }
  }

  lemma {:induction false} AsnsTextStep(asns: seq<nat>, i: nat, sep: char)
    requires i < |asns|
    ensures AsnsText(asns[i..], sep)
         == Decimal(asns[i]) + (if i < |asns| - 1 then [sep] else "") + AsnsText(asns[i + 1..], sep)
  {
    assert asns[i..][1..] == asns[i + 1..];
  }

  /** The inner loop: the AS numbers of one segment with their separators. */
  method MakeAsns(buf: string, len: nat, size: nat, asns: seq<nat>, sep: char) returns (buf': string, len': nat)
    requires |buf| == len && len + |AsnsText(asns, sep)| < size
    ensures buf' == buf + AsnsText(asns, sep) && len' == |buf'|
  {
    buf', len' := buf, len;
    ghost var all := AsnsText(asns, sep);
    var i := 0;
    assert asns[0..] == asns;
    while i < |asns|
      invariant 0 <= i <= |asns| && len' == |buf'|
      invariant buf' + AsnsText(asns[i..], sep) == buf + all
    {
      AsnsTextStep(asns, i, sep);
      ghost var later := AsnsText(asns[i + 1..], sep);
      ghost var now, mid := buf', if i < |asns| - 1 then [sep] else "";
      assert now + (Decimal(asns[i]) + mid + later) == now + Decimal(asns[i]) + mid + later;
      assert |now + Decimal(asns[i]) + mid + later| == |buf| + |all|;
      buf', len' := Snprintf(buf', len', size, Decimal(asns[i]));
      if i < |asns| - 1 {
        buf', len' := Snprintf(buf', len', size, [sep]);
      }
      assert buf' == now + Decimal(asns[i]) + mid;
      i := i + 1;
    }
    assert buf' + [] == buf';
  }

  /** One segment, with the space after it when another follows: it fits in what
      SEGMENT_STR_LEN sets aside for it. */
  method MakeSegment(buf: string, len: nat, size: nat, s: Segment, more: bool) returns (buf': string, len': nat)
    requires |buf| == len && Fits(s.asns, true) && len + |s.asns| * ASN_STR_LEN + 4 <= size
    ensures buf' == buf + SegmentText(s) + (if more then " " else "") && len' == |buf'| < size
  {
    ghost var asns := AsnsText(s.asns, Separator(s.kind));
    AsnsLength(s.asns, Separator(s.kind));
    buf', len' := buf, len;
    if s.kind != Sequence {
      buf', len' := Snprintf(buf', len', size, Opening(s.kind));
    }
    assert buf' == buf + Opening(s.kind);
    buf', len' := MakeAsns(buf', len', size, s.asns, Separator(s.kind));
    if s.kind != Sequence {
      buf', len' := Snprintf(buf', len', size, Closing(s.kind));
    }
    assert buf' == buf + SegmentText(s);
    if more {
      buf', len' := Snprintf(buf', len', size, " ");
    }
  }

  /** aspath_make_str_count: the buffer is grown so that nothing is cut off, and
      the assertion at the end holds. */
  method MakeStr(p: Path) returns (str: string)
    requires AllFit(p)
    ensures str == Text(p)
  {
    if p == [] {
      return "";
    }
    var size := Total(p) * ASN_STR_LEN + 2 + 1;
    if size < ASPATH_STR_DEFAULT_LEN {
      size := ASPATH_STR_DEFAULT_LEN;
    }
    var len, i := 0, 0;
    str := "";
    assert p[0..] == p;
    while i < |p|
      invariant 0 <= i <= |p| && len == |str| < size
      invariant str + Text(p[i..]) == Text(p)
    {
      var need := len + |p[i].asns| * ASN_STR_LEN + 4;
      if need > size {
        size := need;
      }
      TextStep(p, i, str);
      str, len := MakeSegment(str, len, size, p[i], i + 1 < |p|);
      i := i + 1;
    }
    assert str + "" == str;
    assert len < size;
  }

  lemma {:induction false} TextStep(p: Path, i: nat, str: string)
    requires i < |p|
    ensures str + Text(p[i..]) == str + SegmentText(p[i]) + (if i + 1 < |p| then " " else "") + Text(p[i + 1..])
  {
    assert p[i..][1..] == p[i + 1..];
    if i + 1 < |p| {
      assert str + (SegmentText(p[i]) + (" " + Text(p[i + 1..]))) == str + SegmentText(p[i]) + " " + Text(p[i + 1..]);
    } else {
      assert p[i + 1..] == [];
    }
  }

  /** aspath_gettoken's two loops. */
  method GetToken(buf: string) returns (r: Option<(Token, string)>)
    ensures r == NextToken(buf)
  {
    var p := buf;
    while p != [] && IsSeparator(p[0])
      invariant SkipSeparators(p) == SkipSeparators(buf)
      decreases |p|
    {
      p := p[1..];
    }
    if p == [] || p[0] == '\0' {
      return None;
    }
    match p[0] {
      case '{' => return Some((Open(Set), p[1..]));
      case '}' => return Some((Close, p[1..]));
      case '(' => return Some((Open(ConfedSequence), p[1..]));
      case ')' => return Some((Close, p[1..]));
      case '[' => return Some((Open(ConfedSet), p[1..]));
      case ']' => return Some((Close, p[1..]));
      case _ =>
    }
    if !IsDigit(p[0]) {
      return Some((Unknown, p));
    }
    var value, q := GetNumber(DigitValue(p[0]), p[1..]);
    r := Some((AsVal(value), q));
  }

  method GetNumber(first: nat, s: string) returns (value: nat, q: string)
    ensures (value, q) == ReadNumber(first, s)
  {
    value, q := first, s;
    while q != [] && IsDigit(q[0])
      invariant ReadNumber(value, q) == ReadNumber(first, s)
      decreases |q|
    {
      value, q := Shifted(value, DigitValue(q[0])), q[1..];
    }
  }

  /** aspath_str2aspath's loop over the tokens. */
  method StrToPath(s: string) returns (r: Option<Path>)
    ensures r == FromText(s)
  {
    var str := s;
    var segs: Path, kind, needType := [], Sequence, true;
    var next := GetToken(str);
    while next.Some?
      invariant next == NextToken(str)
      invariant needType || segs != []
      invariant Scan(str, Parser(segs, kind, needType)) == FromText(s)
      decreases |str|
    {
      TokenShrinks(str);
      str := next.value.1;
      match next.value.0 {
        case AsVal(asn) =>
          if needType {
            segs, needType := segs + [Segment(kind, [])], false;
          }
          segs := AddAsn(segs, asn);
        case Open(k) =>
          segs, kind, needType := segs + [Segment(k, [])], k, false;
        case Close =>
          kind, needType := Sequence, true;
        case Unknown =>
          return None;
      }
      next := GetToken(str);
    }
    r := Some(segs);
  }
}
