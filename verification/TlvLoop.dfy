/** The loop of parse_packet over the TLVs of a packet's body, for any handler
    that carries a state from one TLV to the next and reports events. */
module TlvLoop {
  import opened Bytes

  const MESSAGE_PAD1: byte := 0

  /** A handler is given its state and the body from the TLV's type octet on. */
  type Handler<!D, !E> = (D, seq<byte>) -> (D, seq<E>)

  function Drop(s: seq<byte>, k: nat): seq<byte> {
    if k <= |s| then s[k..] else []
  }

  /** The body from one TLV boundary on. */
  function Run<D, E>(h: Handler<D, E>, body: seq<byte>, d: D): (D, seq<E>)
    decreases |body|
  {
    if body == [] then (d, [])
    else if body[0] == MESSAGE_PAD1 then Run(h, body[1..], d)
    else if At(body, 1) > |body| then (d, [])
    else
      var r := h(d, body);
      var next := Run(h, Drop(body, At(body, 1) + 2), r.0);
      (next.0, r.1 + next.1)
  }

  /** A well-formed TLV is handled and skipped whole. */
  lemma {:induction false} RunTlv<D, E>(h: Handler<D, E>, tlv: seq<byte>, rest: seq<byte>, d: D)
    requires |tlv| >= 2 && tlv[0] != MESSAGE_PAD1 && |tlv| - 2 == tlv[1]
    ensures var r := h(d, tlv + rest);
            var next := Run(h, rest, r.0);
            Run(h, tlv + rest, d) == (next.0, r.1 + next.1)
  {
    assert Drop(tlv + rest, |tlv|) == rest;
  }

  lemma {:induction false} RunUnfolds<D, E>(h: Handler<D, E>, m: seq<byte>, d: D)
    requires m != [] && m[0] != MESSAGE_PAD1 && At(m, 1) <= |m|
    ensures Run(h, m, d).1 == h(d, m).1 + Run(h, Drop(m, At(m, 1) + 2), h(d, m).0).1
  {}

  lemma {:induction false} Regroup<E>(a: seq<E>, b: seq<E>, c: seq<E>)
    ensures a + (b + c) == (a + b) + c
  {}

  lemma {:induction false} RunAt<D, E>(h: Handler<D, E>, body: seq<byte>, i: nat, len: nat, d: D, acc: seq<E>)
    requires i < |body| && body[i] != MESSAGE_PAD1 && len == At(body[i..], 1) <= |body| - i
    ensures var r := h(d, body[i..]);
            acc + Run(h, Drop(body, i), d).1 == (acc + r.1) + Run(h, Drop(body, i + len + 2), r.0).1
  {
    var m := body[i..];
    RunUnfolds(h, m, d);
    assert Drop(m, len + 2) == Drop(body, i + len + 2);
    Regroup(acc, h(d, m).1, Run(h, Drop(body, i + len + 2), h(d, m).0).1);
  }

  lemma {:induction false} RunAtPad<D, E>(h: Handler<D, E>, body: seq<byte>, i: nat, d: D)
    requires i < |body| && body[i] == MESSAGE_PAD1
    ensures Run(h, Drop(body, i), d) == Run(h, Drop(body, i + 1), d)
  {
    assert body[i..][1..] == Drop(body, i + 1);
  }

  /** The loop itself, over an index into the body. */
  method Loop<D, E>(h: Handler<D, E>, body: seq<byte>, start: D) returns (events: seq<E>)
    ensures events == Run(h, body, start).1
  {
    events := [];
    var i := 0;
    var d := start;
    ghost var all := Run(h, body, start).1;
    assert Drop(body, 0) == body;
    while i < |body|
      invariant 0 <= i
      invariant events + Run(h, Drop(body, i), d).1 == all
    {
      if body[i] == MESSAGE_PAD1 {
        RunAtPad(h, body, i, d);
        i := i + 1;
      } else {
        var len := At(body[i..], 1);
        if len > |body| - i {
          break;
        }
        var r := h(d, body[i..]);
        RunAt(h, body, i, len, d, events);
        d, events, i := r.0, events + r.1, i + len + 2;
      }
    }
  }
}
