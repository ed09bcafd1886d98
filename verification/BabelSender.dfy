/** The sending side of a babeld interface: the send buffer that updates are
    packed into, the caches that compress them, and the token bucket that may
    drop a packet. */
module BabelSender {
  import opened Wrappers
  import opened Bytes
  import opened BabelPrefix
  import opened BabelCodec

  const INFINITY := 0xFFFF
  const BUCKET_TOKENS_MAX := 200
  const BUCKET_TOKENS_PER_SEC := 40

  // ----- Token bucket -----

  datatype Bucket = Bucket(tokens: nat, time: int)

  function Min(a: int, b: int): int { if a < b then a else b }

  /** The refill of check_bucket: only an empty bucket is refilled. */
  function Refill(b: Bucket, now: int): Bucket {
    if b.tokens > 0 then b
    else Bucket(if now > b.time then Min(BUCKET_TOKENS_MAX, (now - b.time) * BUCKET_TOKENS_PER_SEC) else 0, now)
  }

  /** check_bucket. */
  function CheckBucket(b: Bucket, now: int): (Bucket, bool) {
    var r := Refill(b, now);
    if r.tokens > 0 then (r.(tokens := r.tokens - 1), true) else (r, false)
  }

  /** The bucket after calls at the given times, and how many were admitted. */
  function Admit(b: Bucket, calls: seq<int>): (Bucket, nat)
    decreases |calls|
  {
    if calls == [] then (b, 0)
    else
      var (b1, n) := Admit(b, calls[..|calls| - 1]);
      var (b2, ok) := CheckBucket(b1, calls[|calls| - 1]);
      (b2, if ok then n + 1 else n)
  }

  lemma {:induction false} AdmitNext(b: Bucket, calls: seq<int>, now: int)
    ensures var (b1, n) := Admit(b, calls);
            var (b2, ok) := CheckBucket(b1, now);
            Admit(b, calls + [now]) == (b2, if ok then n + 1 else n)
  {
    assert (calls + [now])[..|calls|] == calls;
  }

  /** The clock does not step back. */
  predicate Monotone(start: int, calls: seq<int>) {
    (forall i :: 0 <= i < |calls| ==> start <= calls[i]) &&
    (forall i, j :: 0 <= i < j < |calls| ==> calls[i] <= calls[j])
  }

  /** Tokens spent and tokens left are paid for by the initial fill and by time
      that has passed. */
  lemma {:induction false} AdmitPaid(b: Bucket, calls: seq<int>)
    requires Monotone(b.time, calls) && b.tokens <= BUCKET_TOKENS_MAX
    ensures var (b', n) := Admit(b, calls);
            && b'.tokens <= BUCKET_TOKENS_MAX
            && b.time <= b'.time && (calls != [] ==> b'.time <= calls[|calls| - 1])
            && n + b'.tokens <= b.tokens + BUCKET_TOKENS_PER_SEC * (b'.time - b.time)
    decreases |calls|
  {
    if calls != [] {
      AdmitPaid(b, calls[..|calls| - 1]);
    }
  }

  /** By any time, at most the initial 200 tokens and 40 for each second passed. */
  lemma {:induction false} AdmittedByTime(b: Bucket, calls: seq<int>, now: int)
    requires Monotone(b.time, calls) && b.tokens <= BUCKET_TOKENS_MAX
    requires b.time <= now && forall i :: 0 <= i < |calls| ==> calls[i] <= now
    ensures Admit(b, calls).1 <= BUCKET_TOKENS_MAX + BUCKET_TOKENS_PER_SEC * (now - b.time)
  {
    AdmitPaid(b, calls);
  }

  lemma {:induction false} AdmitSplits(b: Bucket, before: seq<int>, during: seq<int>)
    ensures var (b1, n1) := Admit(b, before);
            var (b2, n2) := Admit(b1, during);
            Admit(b, before + during) == (b2, n1 + n2)
    decreases |during|
  {
    if during == [] {
      assert before + during == before;
    } else {
      var k := |during| - 1;
      assert (before + during)[..|before + during| - 1] == before + during[..k];
      AdmitSplits(b, before, during[..k]);
    }
  }

  /** A bucket last refilled before the window starts grants at most one full
      bucket more than if it had been refilled at the start. */
  lemma {:induction false} AdmitFromStale(b: Bucket, calls: seq<int>, from: int)
    requires b.tokens <= BUCKET_TOKENS_MAX && b.time <= from && Monotone(from, calls)
    ensures var (b', n) := Admit(b, calls);
            && b'.tokens <= BUCKET_TOKENS_MAX
            && (b'.time == b.time || (calls != [] && from <= b'.time <= calls[|calls| - 1]))
            && (b'.time == b.time ==> n + b'.tokens <= b.tokens)
            && (b'.time > b.time ==>
                  n + b'.tokens <= b.tokens + BUCKET_TOKENS_MAX + BUCKET_TOKENS_PER_SEC * (b'.time - from))
    decreases |calls|
  {
    if calls != [] {
      AdmitFromStale(b, calls[..|calls| - 1], from);
    }
  }

  lemma {:induction false} MonotoneParts(start: int, before: seq<int>, during: seq<int>, from: int)
    requires Monotone(start, before + during) && forall i :: 0 <= i < |during| ==> from <= during[i]
    ensures Monotone(start, before) && Monotone(from, during)
  {
    var all := before + during;
    forall i, j | 0 <= i < j < |during| ensures during[i] <= during[j] {
      assert all[|before| + i] == during[i] && all[|before| + j] == during[j];
    }
    forall i | 0 <= i < |before| ensures start <= before[i] {
      assert all[i] == before[i];
    }
    forall i, j | 0 <= i < j < |before| ensures before[i] <= before[j] {
      assert all[i] == before[i] && all[j] == before[j];
    }
  }

  /** In any window of T seconds of any history, at most 400 + 40 T packets. */
  lemma {:induction false} AdmittedInWindow(b: Bucket, before: seq<int>, during: seq<int>, from: int, T: nat)
    requires b.tokens <= BUCKET_TOKENS_MAX && Monotone(b.time, before + during) && b.time <= from
    requires forall i :: 0 <= i < |before| ==> before[i] <= from
    requires forall i :: 0 <= i < |during| ==> from <= during[i] <= from + T
    ensures Admit(b, before + during).1 - Admit(b, before).1 <= 2 * BUCKET_TOKENS_MAX + BUCKET_TOKENS_PER_SEC * T
  {
    MonotoneParts(b.time, before, during, from);
    AdmitSplits(b, before, during);
    AdmitPaid(b, before);
    AdmitFromStale(Admit(b, before).0, during, from);
  }

  // ----- What the bucket does admit -----

  /** A call is refused exactly when no token is left and the clock has not moved on
      since the last refill. */
  lemma {:induction false} RefusedExactly(b: Bucket, now: int)
    ensures !CheckBucket(b, now).1 <==> b.tokens == 0 && now <= b.time
    ensures CheckBucket(b, now).0.time == if b.tokens == 0 then now else b.time
  {}

  /** Each at least a second after the one before. */
  predicate Spaced(calls: seq<int>) {
    forall i :: 0 < i < |calls| ==> calls[i - 1] + 1 <= calls[i]
  }

  /** Calls a second apart are all admitted, from whatever bucket the first is. */
  lemma {:induction false} SpacedAdmitted(b: Bucket, calls: seq<int>)
    requires Spaced(calls)
    requires calls != [] ==> b.time < calls[0] || (b.time == calls[0] && b.tokens > 0)
    ensures Admit(b, calls).1 == |calls|
    ensures calls != [] ==> Admit(b, calls).0.time <= calls[|calls| - 1]
    decreases |calls|
  {
    if calls != [] {
      var front := calls[..|calls| - 1];
      SpacedAdmitted(b, front);
      if front != [] {
        assert calls[|front| - 1] + 1 <= calls[|front|];
      }
    }
  }

  /** While there are tokens every call is admitted, whenever it is made. */
  lemma {:induction false} TokensAdmit(b: Bucket, calls: seq<int>)
    requires |calls| <= b.tokens
    ensures Admit(b, calls) == (Bucket(b.tokens - |calls|, b.time), |calls|)
    decreases |calls|
  {
    if calls != [] {
      TokensAdmit(b, calls[..|calls| - 1]);
    }
  }

  lemma {:induction false} EmptyRefuses(b: Bucket, calls: seq<int>)
    requires b.tokens == 0 && forall i :: 0 <= i < |calls| ==> calls[i] == b.time
    ensures Admit(b, calls) == (b, 0)
    decreases |calls|
  {
    if calls != [] {
      EmptyRefuses(b, calls[..|calls| - 1]);
    }
  }

  /** The first so many calls, each made at the same time. */
  function Repeated(now: int, n: nat): seq<int> {
    seq(n, _ => now)
  }

  /** Of calls made together some seconds after a bucket was last refilled and emptied,
      40 for each second are admitted, and 200 at most; no more and no fewer. */
  lemma {:induction false} BurstExactly(b: Bucket, now: int, n: nat)
    requires b.tokens == 0 && b.time < now
    ensures Admit(b, Repeated(now, n)).1
            == var paid := 40 * (now - b.time); Min(n, if paid < 200 then paid else 200)
  {
    if n > 0 {
      var full := Refill(b, now);
      var m := Min(n, full.tokens);
      SameBucket(b, full, now, m);
      TokensAdmit(full, Repeated(now, m));
      var left := Admit(full, Repeated(now, m)).0;
      assert Repeated(now, n) == Repeated(now, m) + Repeated(now, n - m);
      AdmitSplits(b, Repeated(now, m), Repeated(now, n - m));
      if n > m {
        EmptyRefuses(left, Repeated(now, n - m));
      } else {
        assert Repeated(now, 0) == [];
      }
    }
  }

  /** The first call refills the bucket. */
  lemma {:induction false} SameBucket(b: Bucket, full: Bucket, now: int, n: nat)
    requires full == Refill(b, now) && full.tokens > 0 && n > 0
    ensures Admit(b, Repeated(now, n)) == Admit(full, Repeated(now, n))
    decreases n
  {
    assert Repeated(now, n)[..n - 1] == Repeated(now, n - 1);
    if n > 1 {
      SameBucket(b, full, now, n - 1);
    } else {
      assert Repeated(now, 0) == [];
    }
  }

  // ----- The send buffer -----

  /** The contents of one flush, and whether the bucket let it out. */
  datatype Batch = Batch(items: seq<Item>, sent: bool)

  predicate SendableBatches(bs: seq<Batch>) {
    forall k :: 0 <= k < |bs| ==> SendableItems(bs[k].items) && |Body(bs[k].items)| < 0x10000
  }

  /** Everything the batches held, in order. */
  function Flatten(bs: seq<Batch>): seq<Item> {
    if bs == [] then [] else Flatten(bs[..|bs| - 1]) + bs[|bs| - 1].items
  }

  /** A packet as it goes out: the header, the length of the body, the body. */
  function Packet(items: seq<Item>): seq<byte>
    requires SendableItems(items)
  {
    [42, 2] + Put16(|Body(items)|) + Body(items)
  }

  function Packets(bs: seq<Batch>): seq<seq<byte>>
    requires SendableBatches(bs)
  {
    if bs == [] then []
    else Packets(bs[..|bs| - 1]) + (if bs[|bs| - 1].sent then [Packet(bs[|bs| - 1].items)] else [])
  }

  /** The bucket, the batches and the times it was asked after a flush: the bucket
      decides whether what was pending has been sent. */
  function Flushed(bucket: Bucket, batches: seq<Batch>, flushes: seq<int>, pending: seq<Item>, now: int)
    : (Bucket, seq<Batch>, seq<int>)
  {
    if pending == [] then (bucket, batches, flushes)
    else
      var r := CheckBucket(bucket, now);
      (r.0, batches + [Batch(pending, r.1)], flushes + [now])
  }

  /** What a flush adds to the packets: the pending items, unless no token is left and
      the clock has not moved on since the last refill. */
  lemma {:induction false} PendingPacket(bs: seq<Batch>, pending: seq<Item>, bucket: Bucket, now: int)
    requires SendableBatches(bs) && SendableItems(pending) && |Body(pending)| < 0x10000
    ensures var bs' := Flushed(bucket, bs, [], pending, now).1;
            var goes := pending != [] && (bucket.tokens > 0 || now > bucket.time);
            SendableBatches(bs') && Packets(bs') == Packets(bs) + (if goes then [Packet(pending)] else [])
  {
    RefusedExactly(bucket, now);
    BatchAdded(bs, pending, CheckBucket(bucket, now).1);
    assert Packets(bs) + [] == Packets(bs);
  }

  lemma {:induction false} BatchAdded(bs: seq<Batch>, items: seq<Item>, sent: bool)
    requires SendableBatches(bs) && SendableItems(items) && |Body(items)| < 0x10000
    ensures var bs' := bs + [Batch(items, sent)];
            && SendableBatches(bs')
            && Flatten(bs') + [] == Flatten(bs) + items
            && Packets(bs') == Packets(bs) + (if sent then [Packet(items)] else [])
  {
    var bs' := bs + [Batch(items, sent)];
    assert bs'[..|bs'| - 1] == bs;
  }

  /** An update TLV from the values really_send_update has computed. */
  function UpdateParts(a: Announcement, tx: Tx, omit: nat, flags: byte): seq<byte>
    requires Sendable(a) && omit <= Octets(a)
  {
    HeadParts(a, tx, omit, flags) + PrefixFrom(a, omit) + ChannelsTlv(a)
  }

  function HeadParts(a: Announcement, tx: Tx, omit: nat, flags: byte): seq<byte>
    requires Sendable(a) && omit <= Octets(a)
  {
    var head: seq<byte> := [MESSAGE_UPDATE, 10 + Octets(a) - omit + |ChannelsTlv(a)|];
    var kind: seq<byte> := [if IsV4(a) then 1 else 2, flags, RealPlen(a), omit];
    head + kind + (Put16((tx.interval + 5) / 10) + Put16(a.seqno) + Put16(a.metric))
  }

  /** The significant octets of the prefix that are not omitted. */
  function PrefixFrom(a: Announcement, omit: nat): seq<byte>
    requires Sendable(a) && omit <= Octets(a)
  {
    if IsV4(a) then a.prefix[12 + omit..12 + Octets(a)] else a.prefix[omit..Octets(a)]
  }

  lemma {:induction false} PartsAreTlv(c: Caches, a: Announcement, tx: Tx)
    requires Sendable(a)
    ensures Omitted(c, a) <= Octets(a)
    ensures UpdateParts(a, tx, Omitted(c, a), Flags(c, a)) == UpdateTlv(c, a, tx)
  {
    HeadIsTlv(c, a, tx);
    PrefixPart(c, a);
  }

  lemma {:induction false} HeadIsTlv(c: Caches, a: Announcement, tx: Tx)
    requires Sendable(a)
    ensures HeadParts(a, tx, Omitted(c, a), Flags(c, a)) == UpdateHead(c, a, tx)
  {
    var head: seq<byte> := [MESSAGE_UPDATE, 10 + Octets(a) - Omitted(c, a) + |ChannelsTlv(a)|];
    var kind: seq<byte> := [if IsV4(a) then 1 else 2, Flags(c, a), RealPlen(a), Omitted(c, a)];
    HeadGrouped(head, kind, Put16((tx.interval + 5) / 10), Put16(a.seqno), Put16(a.metric));
  }

  lemma {:induction false} PrefixPart(c: Caches, a: Announcement)
    requires Sendable(a)
    ensures PrefixFrom(a, Omitted(c, a)) == PrefixOctets(c, a)
  {}

  lemma {:induction false} HeadGrouped(head: seq<byte>, kind: seq<byte>, x: seq<byte>, y: seq<byte>, z: seq<byte>)
    requires |head| == 2 && |kind| == 4
    ensures head + kind + (x + y + z) == [head[0], head[1], kind[0], kind[1], kind[2], kind[3]] + x + y + z
  {}

  class Interface {
    const bufsize: nat
    const sendbuf: array<byte>
    var buffered: nat
    var caches: Caches
    var ipv4: Option<V4Addr>
    var interval: nat
    var bucket: Bucket
    /** What babel_send has been given. */
    var wire: seq<seq<byte>>
    /** What the buffer holds, and what earlier flushes held. */
    ghost var pending: seq<Item>
    ghost var batches: seq<Batch>
    /** When the interface came up, and when the bucket was asked since. */
    ghost const start: int
    ghost var flushes: seq<int>

    /** The buffer is exactly the encoding of the pending items, and the wire
        exactly the packets of the batches that were let out. */
    ghost predicate Valid()
      reads this, sendbuf
    {
      && 64 <= bufsize < 0x10000 && sendbuf.Length == bufsize && buffered <= bufsize
      && SendableItems(pending) && SendableBatches(batches)
      && sendbuf[..buffered] == Body(pending)
      && caches == CachesAfter(pending)
      && wire == Packets(batches)
    }

    /** As many packets are on the wire as the bucket has admitted. */
    ghost predicate Metered()
      reads `bucket, `wire, `flushes
    {
      Admit(Bucket(BUCKET_TOKENS_MAX, start), flushes) == (bucket, |wire|)
    }

    /** Every item ever accepted, in order. */
    ghost function Log(): seq<Item>
      reads this
    {
      Flatten(batches) + pending
    }

    constructor (mtu: nat, now: int)
      requires 128 <= mtu <= 0xFFFF
      ensures Valid() && Metered() && fresh(sendbuf) && Log() == [] && wire == [] && start == now && flushes == []
    {
      start := now;
      bufsize := mtu - 64;
      sendbuf := new byte[mtu - 64];
      buffered, caches, ipv4, interval, wire := 0, NO_CACHES, None, 0, [];
      bucket := Bucket(BUCKET_TOKENS_MAX, now);
      pending, batches, flushes := [], [], [];
    }

    /** The bucket's bounds reach the wire: by any time, while the clock does not
        step back, at most 200 packets and 40 for each second since the start. */
    lemma {:induction false} WireBounded(now: int)
      requires Metered() && Monotone(start, flushes) && start <= now
      requires forall i :: 0 <= i < |flushes| ==> flushes[i] <= now
      ensures |wire| <= BUCKET_TOKENS_MAX + BUCKET_TOKENS_PER_SEC * (now - start)
    {
      AdmittedByTime(Bucket(BUCKET_TOKENS_MAX, start), flushes, now);
    }

    /** flushbuf, once flushupdates has nothing left to send. */
    method FlushBuf(now: int)
      requires Valid()
      modifies `buffered, `caches, `pending, `bucket, `wire, `flushes, `batches
      ensures old(Metered()) ==> Metered()
      ensures Valid() && pending == [] && buffered == 0 && Log() == old(Log())
      ensures (bucket, batches, flushes) == Flushed(old(bucket), old(batches), old(flushes), old(pending), now)
      ensures var goes := old(pending) != [] && (old(bucket).tokens > 0 || now > old(bucket).time);
              wire == old(wire) + (if goes then [Packet(old(pending))] else [])
    {
      PendingPacket(batches, pending, bucket, now);
      Drain(now);
      Reset();
    }

    /** The buffer goes out, if there is anything in it. */
    method Drain(now: int)
      requires Valid()
      modifies `bucket, `wire, `flushes, `batches
      ensures old(Metered()) ==> Metered()
      ensures SendableBatches(batches) && wire == Packets(batches) && Flatten(batches) + [] == old(Log())
      ensures (bucket, batches, flushes) == Flushed(old(bucket), old(batches), old(flushes), pending, now)
    {
      if buffered > 0 {
        DrainAll(now);
      } else {
        EmptyBody(pending);
      }
    }

    /** The buffer and the caches start again. */
    method Reset()
      requires 64 <= bufsize < 0x10000 && sendbuf.Length == bufsize
      requires SendableBatches(batches) && wire == Packets(batches)
      modifies `buffered, `caches, `pending
      ensures Valid() && pending == [] && buffered == 0 && Log() == Flatten(batches) + []
    {
      buffered, caches := 0, NO_CACHES;
      pending := [];
    }

    /** It goes out, or is dropped. */
    method DrainAll(now: int)
      requires Valid() && buffered > 0
      modifies `bucket, `wire, `flushes, `batches
      ensures old(Metered()) ==> Metered()
      ensures SendableBatches(batches) && wire == Packets(batches) && Flatten(batches) + [] == old(Log())
      ensures (bucket, batches, flushes) == Flushed(old(bucket), old(batches), old(flushes), pending, now)
    {
      BatchAdded(batches, pending, CheckBucket(bucket, now).1);
      var sent := Emit(now);
      batches := batches + [Batch(pending, sent)];
    }

    /** The bucket is asked, and the packet sent or dropped. */
    method Emit(now: int) returns (sent: bool)
      requires buffered <= sendbuf.Length
      modifies `bucket, `wire, `flushes
      ensures old(Metered()) ==> Metered()
      ensures (bucket, sent) == CheckBucket(old(bucket), now) && flushes == old(flushes) + [now]
      ensures wire == old(wire) + if sent then [[42, 2] + Put16(buffered) + sendbuf[..buffered]] else []
    {
      AdmitNext(Bucket(BUCKET_TOKENS_MAX, start), flushes, now);
      var r := CheckBucket(bucket, now);
      bucket, sent := r.0, r.1;
      if sent {
        wire := wire + [[42, 2] + Put16(buffered) + sendbuf[..buffered]];
      }
      flushes := flushes + [now];
    }

    /** ensure_space. */
    method EnsureSpace(space: nat, now: int)
      requires Valid() && space <= bufsize
      modifies `buffered, `caches, `pending, `bucket, `wire, `flushes, `batches
      ensures old(Metered()) ==> Metered()
      ensures Valid() && bufsize - buffered >= space && Log() == old(Log())
    {
      if bufsize - buffered < space {
        FlushBuf(now);
      }
    }

    /** accumulate_bytes. */
    method Accumulate(value: seq<byte>)
      requires sendbuf.Length == bufsize && buffered + |value| <= bufsize
      modifies `buffered, sendbuf
      ensures buffered == old(buffered) + |value|
      ensures sendbuf[..buffered] == old(sendbuf[..buffered]) + value
    {
      var k := 0;
      while k < |value|
        invariant 0 <= k <= |value|
        invariant buffered == old(buffered)
        invariant sendbuf[..buffered + k] == old(sendbuf[..buffered]) + value[..k]
      {
        sendbuf[buffered + k] := value[k];
        k := k + 1;
      }
      assert value[..k] == value;
      buffered := buffered + |value|;
    }

    /** start_message: the flush it may make is for the case that the message
        would not fit. */
    method StartMessage(kind: byte, len: byte, now: int)
      requires sendbuf.Length == bufsize && buffered <= bufsize && len + 2 <= bufsize
      requires bufsize - buffered < len + 2 ==> Valid()
      modifies this, sendbuf
      ensures old(bufsize - buffered >= len + 2) ==>
                && buffered == old(buffered) + 2 && sendbuf[..buffered] == old(sendbuf[..buffered]) + [kind, len]
                && unchanged(`caches) && unchanged(`ipv4) && unchanged(`interval) && unchanged(`bucket)
                && unchanged(`wire) && unchanged(`flushes) && unchanged(`pending) && unchanged(`batches)
      ensures old(bufsize - buffered < len + 2) ==>
                && buffered == 2 && sendbuf[..2] == [kind, len] && caches == NO_CACHES
                && pending == [] && Log() == old(Log()) && SendableBatches(batches) && wire == Packets(batches)
    {
      if bufsize - buffered < len + 2 {
        FlushBuf(now);
      }
      Accumulate([kind, len]);
    }

    /** Octets of the prefix that the receiver already has. */
    method CountOmitted(a: Announcement) returns (omit: nat)
      requires Sendable(a)
      ensures omit == Omitted(caches, a)
    {
      omit := 0;
      if !IsV4(a) && caches.prefix.Some? {
        while omit < a.plen / 8 && caches.prefix.value[omit] == a.prefix[omit]
          invariant 0 <= omit <= a.plen / 8
          invariant CommonHead(caches.prefix.value, a.prefix, a.plen / 8, omit) == Omitted(caches, a)
        {
          omit := omit + 1;
        }
      }
    }

    method WriteNextHop(a: Announcement, tx: Tx, now: int)
      requires sendbuf.Length == bufsize && buffered + 8 <= bufsize
      modifies this, sendbuf
      ensures buffered <= old(buffered) + 8 && buffered <= bufsize
      ensures sendbuf[..buffered] == old(sendbuf[..buffered]) + NextHopTlv(old(caches), a, tx)
      ensures caches == old(caches).(nh := if IsV4(a) then Some(tx.ipv4) else old(caches).nh)
      ensures unchanged(`ipv4) && unchanged(`interval) && unchanged(`bucket)
      ensures unchanged(`wire) && unchanged(`flushes) && unchanged(`pending) && unchanged(`batches)
    {
      if IsV4(a) && caches.nh != Some(tx.ipv4) {
        StartMessage(MESSAGE_NH, 6, now);
        Accumulate([1]);
        Accumulate([0]);
        Accumulate(tx.ipv4);
        caches := caches.(nh := Some(tx.ipv4));
      }
    }

    /** The router-id, unless the prefix implies it; the result says so. */
    method WriteRouterId(a: Announcement, now: int) returns (implied: bool)
      requires sendbuf.Length == bufsize && buffered + 12 <= bufsize
      modifies this, sendbuf
      ensures buffered <= old(buffered) + 12 && buffered <= bufsize
      ensures sendbuf[..buffered] == old(sendbuf[..buffered]) + RouterIdTlv(old(caches), a)
      ensures implied == ImpliesId(old(caches), a) && caches == old(caches).(id := Some(a.id))
      ensures unchanged(`ipv4) && unchanged(`interval) && unchanged(`bucket)
      ensures unchanged(`wire) && unchanged(`flushes) && unchanged(`pending) && unchanged(`batches)
    {
      implied := false;
      if caches.id != Some(a.id) {
        if RealPlen(a) == 128 && a.prefix[8..] == a.id {
          implied := true;
        } else {
          StartMessage(MESSAGE_ROUTER_ID, 10, now);
          Accumulate(Put16(0));
          Accumulate(a.id);
        }
        caches := caches.(id := Some(a.id));
      }
    }

    /** A TLV written piece by piece. */
    method WriteParts(kind: byte, len: byte, p1: seq<byte>, p2: seq<byte>, p3: seq<byte>, p4: seq<byte>, now: int)
      requires sendbuf.Length == bufsize && len == |p1| + |p2| + |p3| + |p4| && buffered + len + 2 <= bufsize
      modifies this, sendbuf
      ensures buffered <= bufsize
      ensures sendbuf[..buffered] == old(sendbuf[..buffered]) + ([kind, len] + p1 + p2 + p3 + p4)
      ensures unchanged(`caches) && unchanged(`ipv4) && unchanged(`interval) && unchanged(`bucket)
      ensures unchanged(`wire) && unchanged(`flushes) && unchanged(`pending) && unchanged(`batches)
    {
      StartMessage(kind, len, now);
      Accumulate(p1);
      Accumulate(p2);
      Accumulate(p3);
      Accumulate(p4);
    }

    /** The update TLV. */
    method WriteUpdateTlv(a: Announcement, tx: Tx, omit: nat, flags: byte, now: int)
      requires Sendable(a) && sendbuf.Length == bufsize && buffered + 38 <= bufsize && omit <= Octets(a)
      modifies this, sendbuf
      ensures buffered <= bufsize
      ensures sendbuf[..buffered] == old(sendbuf[..buffered]) + UpdateParts(a, tx, omit, flags)
      ensures unchanged(`caches) && unchanged(`ipv4) && unchanged(`interval) && unchanged(`bucket)
      ensures unchanged(`wire) && unchanged(`flushes) && unchanged(`pending) && unchanged(`batches)
    {
      WriteParts(MESSAGE_UPDATE, 10 + Octets(a) - omit + |ChannelsTlv(a)|,
                 [if IsV4(a) then 1 else 2, flags, RealPlen(a), omit],
                 Put16((tx.interval + 5) / 10) + Put16(a.seqno) + Put16(a.metric),
                 if IsV4(a) then a.prefix[12 + omit..12 + Octets(a)] else a.prefix[omit..Octets(a)],
                 ChannelsTlv(a), now);
    }

    /** Records what has just been written as one more item. */
    ghost method Accept(item: Item)
      requires 64 <= bufsize < 0x10000 && sendbuf.Length == bufsize && buffered <= bufsize
      requires SendableItem(item) && SendableItems(pending) && SendableBatches(batches)
      requires sendbuf[..buffered] == Body(pending) + EncodeItem(CachesAfter(pending), item)
      requires caches == AfterItem(CachesAfter(pending), item) && wire == Packets(batches)
      modifies `pending
      ensures Valid() && Log() == old(Log()) + [item]
    {
      ItemAdded(pending, item);
      pending := pending + [item];
    }

    /** really_send_update.  An update that the filter, the link state or the
        lack of an IPv4 address does not stop is accepted: it becomes the last
        item of the log, and the buffer its encoding. */
    method ReallySendUpdate(a: Announcement, addMetric: nat, up: bool, now: int) returns (accepted: bool)
      requires Valid() && Sendable(a)
      modifies this, sendbuf
      ensures old(Metered()) ==> Metered()
      ensures Valid() && ipv4 == old(ipv4) && interval == old(interval)
      ensures accepted <==> up && addMetric < INFINITY && (IsV4(a) ==> ipv4.Some?)
      ensures var b := a.(metric := Min(a.metric + addMetric, INFINITY));
              var tx := Tx(if ipv4.Some? then ipv4.value else Zeros(4), interval);
              Log() == old(Log()) + (if accepted then [Up(b, tx)] else [])
    {
      accepted := false;
      if !up || addMetric >= INFINITY {
        return;
      }
      var b := a.(metric := Min(a.metric + addMetric, INFINITY));
      EnsureSpace(20 + 12 + 28, now);
      if IsV4(b) && ipv4.None? {
        return;
      }
      accepted := true;
      var tx := Tx(if ipv4.Some? then ipv4.value else Zeros(4), interval);
      WriteUpdate(b, tx, now);
      Accept(Up(b, tx));
    }

    method WriteUpdate(a: Announcement, tx: Tx, now: int)
      requires Sendable(a) && sendbuf.Length == bufsize && buffered + 58 <= bufsize
      modifies this, sendbuf
      ensures old(Metered()) ==> Metered()
      ensures buffered <= bufsize
      ensures sendbuf[..buffered] == old(sendbuf[..buffered]) + Encode(old(caches), a, tx)
      ensures caches == AfterEncode(old(caches), a, tx)
      ensures unchanged(`ipv4) && unchanged(`interval) && unchanged(`bucket)
      ensures unchanged(`wire) && unchanged(`flushes) && unchanged(`pending) && unchanged(`batches)
    {
      ghost var c, base := caches, sendbuf[..buffered];
      var omit := CountOmitted(a);
      var setsPrefix := !IsV4(a) && (caches.prefix.None? || a.plen >= 48);
      PartsAreTlv(c, a, tx);
      WriteNextHop(a, tx, now);
      var implied := WriteRouterId(a, now);
      WriteUpdateTlv(a, tx, omit, (if setsPrefix then 0x80 else 0) + (if implied then 0x40 else 0), now);
      Regroup3(base, NextHopTlv(c, a, tx), RouterIdTlv(c, a), UpdateTlv(c, a, tx));
      if setsPrefix {
        caches := caches.(prefix := Some(a.prefix));
      }
    }

    /** send_wildcard_retraction. */
    method SendWildcardRetraction(seqno: nat, now: int)
      requires Valid() && seqno < 0x10000
      modifies this, sendbuf
      ensures old(Metered()) ==> Metered()
      ensures Valid() && ipv4 == old(ipv4) && interval == old(interval)
      ensures Log() == old(Log()) + [Wildcard(seqno)]
    {
      EnsureSpace(12, now);
      WriteWildcard(seqno, now);
    }

    method WriteWildcard(seqno: nat, now: int)
      requires Valid() && seqno < 0x10000 && bufsize - buffered >= 12
      modifies this, sendbuf
      ensures Valid() && unchanged(`ipv4) && unchanged(`interval)
      ensures unchanged(`bucket) && unchanged(`wire) && unchanged(`flushes)
      ensures Log() == old(Log()) + [Wildcard(seqno)]
    {
      WildcardParts(seqno);
      WriteParts(MESSAGE_UPDATE, 10, [0, 0x40, 0, 0], Put16(0xFFFF), Put16(seqno), Put16(0xFFFF), now);
      caches := caches.(id := None);
      Accept(Wildcard(seqno));
    }
  }

  lemma {:induction false} WildcardParts(seqno: nat)
    ensures EncodeWildcard(seqno)
            == [MESSAGE_UPDATE, 10] + [0, 0x40, 0, 0] + Put16(0xFFFF) + Put16(seqno) + Put16(0xFFFF)
  {}

  lemma {:induction false} Regroup3(base: seq<byte>, a: seq<byte>, b: seq<byte>, c: seq<byte>)
    ensures base + a + b + c == base + (a + b + c)
  {}

  lemma {:induction false} ItemAdded(items: seq<Item>, i: Item)
    requires SendableItems(items) && SendableItem(i)
    ensures SendableItems(items + [i])
    ensures Body(items + [i]) == Body(items) + EncodeItem(CachesAfter(items), i)
    ensures CachesAfter(items + [i]) == AfterItem(CachesAfter(items), i)
  {
    assert (items + [i])[..|items|] == items;
  }

  lemma {:induction false} EmptyBody(items: seq<Item>)
    requires SendableItems(items) && |Body(items)| == 0
    ensures items == []
  {}

  // ----- What a neighbour makes of it -----

  function SentItems(bs: seq<Batch>): seq<Item> {
    if bs == [] then []
    else SentItems(bs[..|bs| - 1]) + (if bs[|bs| - 1].sent then bs[|bs| - 1].items else [])
  }

  /** What ParsePacket reports for the packets, one after the other. */
  function HearAll(packets: seq<seq<byte>>, rx: Rx): seq<Event> {
    if packets == [] then []
    else
      var p := packets[|packets| - 1];
      HearAll(packets[..|packets| - 1], rx)
      + (if |p| >= 4 && p[0] == 42 && p[1] == 2 && Get16(p, 2) + 4 <= |p|
         then Parse(p[4..4 + Get16(p, 2)], NO_DEFAULTS, rx).1 else [])
  }

  lemma {:induction false} PacketHeard(items: seq<Item>, rx: Rx)
    requires SendableItems(items) && |Body(items)| < 0x10000
    ensures var p := Packet(items);
            && |p| >= 4 && p[0] == 42 && p[1] == 2 && Get16(p, 2) + 4 == |p|
            && Parse(p[4..4 + Get16(p, 2)], NO_DEFAULTS, rx).1 == Meanings(items, rx)
  {
    HeaderRead(Body(items));
    PacketRoundTrip(items, rx);
  }

  lemma {:induction false} HeaderRead(body: seq<byte>)
    requires |body| < 0x10000
    ensures var p: seq<byte> := [42, 2] + Put16(|body|) + body;
            && |p| >= 4 && p[0] == 42 && p[1] == 2 && Get16(p, 2) + 4 == |p|
            && p[4..4 + Get16(p, 2)] == body
  {
    var p: seq<byte> := [42, 2] + Put16(|body|) + body;
    Put16Get(|body|, p, 2);
    assert p[4..] == body;
  }

  lemma {:induction false} MeaningsConcat(a: seq<Item>, b: seq<Item>, rx: Rx)
    ensures Meanings(a + b, rx) == Meanings(a, rx) + Meanings(b, rx)
    decreases |b|
  {
    if b == [] {
      assert a + b == a;
    } else {
      assert (a + b)[..|a + b| - 1] == a + b[..|b| - 1];
      MeaningsConcat(a, b[..|b| - 1], rx);
    }
  }

  lemma {:induction false} HearSnoc(packets: seq<seq<byte>>, items: seq<Item>, rx: Rx)
    requires SendableItems(items) && |Body(items)| < 0x10000
    ensures HearAll(packets + [Packet(items)], rx) == HearAll(packets, rx) + Meanings(items, rx)
  {
    var all := packets + [Packet(items)];
    assert all[..|all| - 1] == packets;
    PacketHeard(items, rx);
  }

  /** End to end: whatever was accepted and not dropped by the bucket, over any
      number of flushes, is what a neighbour hears, in order and unchanged. */
  lemma {:induction false} WireIsHeard(bs: seq<Batch>, rx: Rx)
    requires SendableBatches(bs)
    ensures HearAll(Packets(bs), rx) == Meanings(SentItems(bs), rx)
    decreases |bs|
  {
    if bs != [] {
      var n := |bs| - 1;
      WireIsHeard(bs[..n], rx);
      MeaningsConcat(SentItems(bs[..n]), if bs[n].sent then bs[n].items else [], rx);
      if bs[n].sent {
        HearSnoc(Packets(bs[..n]), bs[n].items, rx);
      } else {
        assert Packets(bs[..n]) + [] == Packets(bs[..n]);
      }
    }
  }
}
