/** Octets, network byte order and memcmp. */
module Bytes {
  type byte = b: int | 0 <= b < 256

  /** Octets past the end of what was received read as zero. */
  function At(s: seq<byte>, i: nat): byte {
    if i < |s| then s[i] else 0
  }

  function Slice(s: seq<byte>, i: nat, n: nat): (r: seq<byte>)
    ensures |r| == n
    ensures forall k :: 0 <= k < n ==> r[k] == At(s, i + k)
    ensures i + n <= |s| ==> r == s[i..i + n]
  {
    seq<byte>(n, k requires 0 <= k < n => At(s, i + k))
  }

  function Zeros(n: nat): (r: seq<byte>)
    ensures |r| == n && forall k :: 0 <= k < n ==> r[k] == 0
  {
    seq<byte>(n, _ => 0)
  }

  /** htons and htonl as the streams write them. */
  function Put16(v: nat): (r: seq<byte>)
    ensures |r| == 2
  {
    [v / 256 % 256, v % 256]
  }

  function Get16(s: seq<byte>, i: nat): (v: nat)
    ensures v < 0x10000
  {
    At(s, i) * 256 + At(s, i + 1)
  }

  function Put32(v: nat): (r: seq<byte>)
    ensures |r| == 4
  {
    [v / 0x1000000 % 256, v / 0x10000 % 256, v / 256 % 256, v % 256]
  }

  function Get32(s: seq<byte>, i: nat): (v: nat)
    ensures v < 0x1_0000_0000
  {
    At(s, i) * 0x1000000 + At(s, i + 1) * 0x10000 + At(s, i + 2) * 256 + At(s, i + 3)
  }

  lemma {:induction false} Put16Get(v: nat, s: seq<byte>, i: nat)
    requires v < 0x10000 && At(s, i) == Put16(v)[0] && At(s, i + 1) == Put16(v)[1]
    ensures Get16(s, i) == v
  {}

  lemma {:induction false} Put32Get(v: nat, s: seq<byte>, i: nat)
    requires v < 0x1_0000_0000 && forall k :: 0 <= k < 4 ==> At(s, i + k) == Put32(v)[k]
    ensures Get32(s, i) == v
  {
    assert At(s, i + 0) == Put32(v)[0] && At(s, i + 1) == Put32(v)[1] && At(s, i + 2) == Put32(v)[2]
           && At(s, i + 3) == Put32(v)[3];
    var a := v / 0x1000000;
    var b := v / 0x10000;
    var c := v / 256;
    assert c / 256 == b && b / 256 == a;
    assert v == c * 256 + v % 256 && c == b * 256 + c % 256 && b == a * 256 + b % 256;
  }

  /** memcmp over strings of equal length. */
  function Memcmp(a: seq<byte>, b: seq<byte>): int
    requires |a| == |b|
  {
    if a == [] then 0
    else if a[0] < b[0] then -1
    else if a[0] > b[0] then 1
    else Memcmp(a[1..], b[1..])
  }

  lemma {:induction false} MemcmpOrder(a: seq<byte>, b: seq<byte>)
    requires |a| == |b|
    ensures Memcmp(a, b) == 0 <==> a == b
    ensures Memcmp(b, a) == -Memcmp(a, b)
    decreases |a|
  {
    if a != [] {
      MemcmpOrder(a[1..], b[1..]);
      assert a == [a[0]] + a[1..] && b == [b[0]] + b[1..];
    }
  }

  lemma {:induction false} MemcmpTransitive(a: seq<byte>, b: seq<byte>, c: seq<byte>)
    requires |a| == |b| == |c|
    requires Memcmp(a, b) <= 0 && Memcmp(b, c) <= 0
    ensures Memcmp(a, c) <= 0
    ensures Memcmp(a, b) < 0 || Memcmp(b, c) < 0 ==> Memcmp(a, c) < 0
    decreases |a|
  {
    if a != [] && a[0] == b[0] == c[0] {
      MemcmpTransitive(a[1..], b[1..], c[1..]);
    }
  }
}
