/** flushupdates: buffered updates are sorted so that they compress well and so
    that repeated requests for the same prefix stand next to each other. */
module BabelFlush {
  import opened Wrappers
  import opened Bytes
  import opened BabelPrefix
  import opened BabelCodec

  const INFINITY := 0xFFFF

  /** struct buffered_update, after the router-ids have been filled in. */
  datatype Buffered = Buffered(id: Id, prefix: Addr, plen: nat)

  predicate V4(b: Buffered) {
    b.plen >= 96 && V4Mapped(b.prefix)
  }

  /** The prefix carries the router-id. */
  predicate ImpliesOwnId(b: Buffered) {
    !V4(b) && b.plen == 128 && b.prefix[8..] == b.id
  }

  function Bit(p: bool): int { if p then 1 else 0 }

  /** compare_buffered_updates: by router-id, IPv6 before IPv4, a prefix that
      implies the router-id first, longer prefixes first, then by prefix. */
  function Compare(a: Buffered, b: Buffered): int {
    Or(Memcmp(a.id, b.id),
       Or(CompareNat(Bit(V4(a)), Bit(V4(b))),
          Or(CompareNat(Bit(ImpliesOwnId(b)), Bit(ImpliesOwnId(a))),
             Or(CompareNat(b.plen, a.plen), Memcmp(a.prefix, b.prefix)))))
  }

  /** Ties are exactly equal entries, and swapping the arguments swaps the sign. */
  lemma {:induction false} CompareTies(a: Buffered, b: Buffered)
    ensures Compare(a, b) == 0 <==> a == b
    ensures Compare(b, a) == -Compare(a, b)
  {
    MemcmpOrder(a.id, b.id);
    MemcmpOrder(a.prefix, b.prefix);
  }

  lemma {:induction false} CompareTransitive(a: Buffered, b: Buffered, c: Buffered)
    requires Compare(a, b) <= 0 && Compare(b, c) <= 0
    ensures Compare(a, c) <= 0
  {
    MemcmpOrder(a.id, b.id);
    MemcmpOrder(b.id, c.id);
    if Memcmp(a.id, b.id) <= 0 && Memcmp(b.id, c.id) <= 0 {
      MemcmpTransitive(a.id, b.id, c.id);
    }
    MemcmpOrder(a.prefix, b.prefix);
    MemcmpOrder(b.prefix, c.prefix);
    if Memcmp(a.prefix, b.prefix) <= 0 && Memcmp(b.prefix, c.prefix) <= 0 {
      MemcmpTransitive(a.prefix, b.prefix, c.prefix);
    }
  }

  // ----- The loop -----

  function DestOf(b: Buffered): Dest { Dest(b.prefix, b.plen) }

  /** The installed route of a destination, as the interface announces it:
      `same` says that it goes out through that very interface. */
  datatype Chosen = Chosen(id: Id, seqno: nat, metric: nat, same: bool)

  /** What flushupdates looks up. */
  datatype Tables = Tables(
    myid: Id, myseqno: nat, kernelMetric: nat, splitHorizon: bool,
    xroutes: map<Dest, nat>, installed: map<Dest, Chosen>)

  /** One call of really_send_update. */
  datatype Call = Call(id: Id, dest: Dest, seqno: nat, metric: nat)

  /** The router-id an entry is sorted under. */
  function SortId(t: Tables, d: Dest): Id {
    if d in t.installed then t.installed[d].id else t.myid
  }

  predicate FromXroute(t: Tables, d: Dest) {
    d in t.xroutes && (d !in t.installed || t.xroutes[d] <= t.kernelMetric)
  }

  /** The installed route is withheld by split horizon. */
  predicate Withheld(t: Tables, d: Dest) {
    !FromXroute(t, d) && d in t.installed && t.splitHorizon && t.installed[d].same
  }

  /** A destination with something to announce. */
  predicate Announced(t: Tables, d: Dest) {
    FromXroute(t, d) || (d in t.installed && !Withheld(t, d))
  }

  function CallFor(t: Tables, d: Dest): Call {
    if FromXroute(t, d) then Call(t.myid, d, t.myseqno, t.xroutes[d])
    else if d in t.installed then Call(t.installed[d].id, d, t.installed[d].seqno, t.installed[d].metric)
    else Call(t.myid, d, t.myseqno, INFINITY)
  }

  /** An exported route is preferred where nothing is installed, or where its metric is
      at most kernel_metric; the update then carries the router's own id and seqno.  An
      installed route is announced under its own source, unless split horizon withholds
      it; where there is neither, the prefix is retracted. */
  lemma {:induction false} PrecedenceExactly(t: Tables, d: Dest)
    ensures var c := CallFor(t, d);
            var exported := d in t.xroutes && (d in t.installed ==> t.xroutes[d] <= t.kernelMetric);
            var withheld := d in t.installed && t.splitHorizon && t.installed[d].same && !exported;
            && c.dest == d
            && (exported ==> c.id == t.myid && c.seqno == t.myseqno && c.metric == t.xroutes[d])
            && (!exported && d in t.installed ==>
                  var r := t.installed[d];
                  c.id == r.id && c.seqno == r.seqno && c.metric == r.metric)
            && (d !in t.xroutes && d !in t.installed ==> c.id == t.myid && c.seqno == t.myseqno && c.metric == 0xFFFF)
            && (Withheld(t, d) <==> withheld)
            && (Announced(t, d) <==> (d in t.xroutes || d in t.installed) && !withheld)
  {}

  predicate SortedBy(t: Tables, b: seq<Buffered>) {
    && (forall i :: 0 <= i < |b| ==> b[i].id == SortId(t, DestOf(b[i])))
    && (forall i, j :: 0 <= i < j < |b| ==> Compare(b[i], b[j]) <= 0)
  }

  function Count(calls: seq<Call>, d: Dest): nat {
    if calls == [] then 0
    else Count(calls[..|calls| - 1], d) + (if calls[|calls| - 1].dest == d then 1 else 0)
  }

  function Wanted(b: seq<Buffered>, d: Dest): nat {
    if b == [] then 0 else Wanted(b[..|b| - 1], d) + (if DestOf(b[|b| - 1]) == d then 1 else 0)
  }

  /** How often a destination is announced by one flush. */
  function Expected(t: Tables, b: seq<Buffered>, d: Dest): nat {
    if Announced(t, d) then (if Wanted(b, d) > 0 then 1 else 0)
    else if Withheld(t, d) then 0
    else Wanted(b, d)
  }

  /** Sorting brings requests for the same destination together. */
  lemma {:induction false} Contiguous(t: Tables, b: seq<Buffered>, i: nat, j: nat, k: nat)
    requires SortedBy(t, b) && i <= j <= k < |b| && DestOf(b[i]) == DestOf(b[k])
    ensures b[j] == b[i]
  {
    if i < j < k {
      CompareTies(b[i], b[j]);
      CompareTies(b[j], b[k]);
      assert b[i] == b[k];
    }
  }

  /** Sorting puts updates with one router-id together, IPv6 before IPv4; among those of
      one router-id and family the one that implies the router-id comes first, then
      longer prefixes before shorter. */
  lemma {:induction false} Grouped(t: Tables, b: seq<Buffered>, i: nat, j: nat, k: nat)
    requires SortedBy(t, b) && i < j < k < |b|
    ensures b[i].id == b[k].id ==> b[j].id == b[i].id
    ensures b[i].id == b[j].id && V4(b[i]) ==> V4(b[j])
    ensures b[i].id == b[j].id && V4(b[i]) == V4(b[j]) && ImpliesOwnId(b[j]) ==> ImpliesOwnId(b[i])
    ensures b[i].id == b[j].id && V4(b[i]) == V4(b[j]) && ImpliesOwnId(b[i]) == ImpliesOwnId(b[j]) ==>
              b[i].plen >= b[j].plen
  {
    assert Compare(b[i], b[j]) <= 0 && Compare(b[j], b[k]) <= 0;
    MemcmpOrder(b[i].id, b[j].id);
    MemcmpOrder(b[j].id, b[k].id);
  }

  lemma {:induction false} WantedOccurs(b: seq<Buffered>, d: Dest)
    ensures Wanted(b, d) > 0 <==> exists i :: 0 <= i < |b| && DestOf(b[i]) == d
    decreases |b|
  {
    if b != [] {
      var n := |b| - 1;
      WantedOccurs(b[..n], d);
      if Wanted(b[..n], d) > 0 {
        var i :| 0 <= i < n && DestOf(b[..n][i]) == d;
        assert DestOf(b[i]) == d;
      }
      if exists i :: 0 <= i < |b| && DestOf(b[i]) == d {
        var i :| 0 <= i < |b| && DestOf(b[i]) == d;
        if i < n {
          assert DestOf(b[..n][i]) == d;
        }
      }
    }
  }

  /** A destination seen before, and announced, is the one just before. */
  lemma {:induction false} SeenIsLast(t: Tables, b: seq<Buffered>, i: nat)
    requires SortedBy(t, b) && i < |b| && Wanted(b[..i], DestOf(b[i])) > 0
    ensures i > 0 && DestOf(b[i - 1]) == DestOf(b[i])
  {
    WantedOccurs(b[..i], DestOf(b[i]));
    var j :| 0 <= j < i && DestOf(b[..i][j]) == DestOf(b[i]);
    Contiguous(t, b, j, i - 1, i);
  }

  lemma {:induction false} WantedConcat(a: seq<Buffered>, b: seq<Buffered>, d: Dest)
    ensures Wanted(a + b, d) == Wanted(a, d) + Wanted(b, d)
    decreases |b|
  {
    if b == [] {
      assert a + b == a;
    } else {
      assert (a + b)[..|a + b| - 1] == a + b[..|b| - 1];
      WantedConcat(a, b[..|b| - 1], d);
    }
  }

  /** Sorting does not change how often a destination is wanted. */
  lemma {:induction false} WantedPermuted(a: seq<Buffered>, b: seq<Buffered>, d: Dest)
    requires multiset(a) == multiset(b)
    ensures Wanted(a, d) == Wanted(b, d)
    decreases |a|
  {
    if a == [] {
      assert |multiset(b)| == 0;
    } else {
      var n := |a| - 1;
      assert a == a[..n] + [a[n]];
      assert a[n] in multiset(b);
      var j :| 0 <= j < |b| && b[j] == a[n];
      var rest := TakeOut(b, j, d);
      assert multiset(a) == multiset(a[..n]) + multiset{a[n]};
      assert multiset(a[..n]) == multiset(a) - multiset{a[n]} == multiset(b) - multiset{b[j]} == multiset(rest);
      WantedPermuted(a[..n], rest, d);
    }
  }

  lemma {:induction false} TakeOut(b: seq<Buffered>, j: nat, d: Dest) returns (rest: seq<Buffered>)
    requires j < |b|
    ensures multiset(b) == multiset(rest) + multiset{b[j]}
    ensures Wanted(b, d) == Wanted(rest, d) + (if DestOf(b[j]) == d then 1 else 0)
  {
    rest := b[..j] + b[j + 1..];
    assert b == b[..j] + ([b[j]] + b[j + 1..]);
    WantedConcat(b[..j], b[j + 1..], d);
    WantedConcat(b[..j], [b[j]] + b[j + 1..], d);
    WantedConcat([b[j]], b[j + 1..], d);
  }

  /** One turn of the loop: the calls made for an entry, and the destination last
      announced. */
  method FlushOne(t: Tables, d: Dest, last: Option<Dest>) returns (more: seq<Call>, next: Option<Dest>)
    ensures more == (if last == Some(d) || Withheld(t, d) then [] else [CallFor(t, d)])
    ensures next == (if Announced(t, d) then Some(d) else last)
  {
    more, next := [], last;
    if last == Some(d) {
    } else if FromXroute(t, d) {
      more, next := [Call(t.myid, d, t.myseqno, t.xroutes[d])], Some(d);
    } else if d in t.installed {
      if !(t.splitHorizon && t.installed[d].same) {
        var r := t.installed[d];
        more, next := [Call(r.id, d, r.seqno, r.metric)], Some(d);
      }
    } else {
      more := [Call(t.myid, d, t.myseqno, INFINITY)];
    }
  }

  /** flushupdates, from the point where qsort has sorted the entries: every
      call is the right one for its destination; a destination with an exported
      route or an announceable installed route is announced exactly once however
      often it was buffered; one withheld by split horizon never; one with no
      route at all is retracted once for every time it was buffered. */
  method FlushUpdates(t: Tables, b: seq<Buffered>, ghost buffer: seq<Buffered>) returns (calls: seq<Call>)
    requires SortedBy(t, b) && multiset(b) == multiset(buffer)
    ensures forall k :: 0 <= k < |calls| ==> calls[k] == CallFor(t, calls[k].dest)
    ensures forall d :: Count(calls, d) == Expected(t, buffer, d)
  {
    calls := [];
    var last: Option<Dest> := None;
    var i := 0;
    while i < |b|
      invariant 0 <= i <= |b|
      invariant forall k :: 0 <= k < |calls| ==> calls[k] == CallFor(t, calls[k].dest)
      invariant forall d :: Count(calls, d) == Expected(t, b[..i], d)
      invariant last.Some? ==> Announced(t, last.value) && Wanted(b[..i], last.value) > 0
      invariant i > 0 && Announced(t, DestOf(b[i - 1])) ==> last == Some(DestOf(b[i - 1]))
    {
      var more, next := FlushOne(t, DestOf(b[i]), last);
      StepCounts(t, b, i, calls, calls + more);
      calls, last, i := calls + more, next, i + 1;
    }
    assert b[..i] == b;
    forall d ensures Wanted(b, d) == Wanted(buffer, d) {
      WantedPermuted(b, buffer, d);
    }
  }

  lemma {:induction false} StepCounts(t: Tables, b: seq<Buffered>, i: nat, before: seq<Call>, after: seq<Call>)
    requires SortedBy(t, b) && i < |b|
    requires forall d :: Count(before, d) == Expected(t, b[..i], d)
    requires var d := DestOf(b[i]);
             if Announced(t, d)
             then (after == before && Wanted(b[..i], d) > 0)
                  || (after == before + [CallFor(t, d)] && (i > 0 ==> DestOf(b[i - 1]) != d))
             else if Withheld(t, d) then after == before
             else after == before + [CallFor(t, d)]
    ensures forall d :: Count(after, d) == Expected(t, b[..i + 1], d)
    ensures forall d :: Wanted(b[..i + 1], d) == Wanted(b[..i], d) + (if DestOf(b[i]) == d then 1 else 0)
  {
    assert b[..i + 1][..i] == b[..i];
    if Wanted(b[..i], DestOf(b[i])) > 0 {
      SeenIsLast(t, b, i);
    }
    if after != before {
      assert after[..|after| - 1] == before;
    }
  }
}
