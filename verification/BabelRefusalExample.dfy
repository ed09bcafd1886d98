/** A second way to a forwarding loop, without any retracted route being revived:
    the kernel refuses a change of metric, and update_route leaves the old metric
    beside the new seqno. */
module BabelRefusalExample {
  import opened BabelSeqno
  import opened BabelRoute
  import opened BabelNetwork
  import opened BabelLoopExample

  /** The kernel refuses a change of metric. */
  const REFUSING := Env(0, false, false, true)

  function Held(
    seqno: nat, neigh: RouterId, refmetric: nat, cost: nat, installed: bool, anchored: bool, heard: bool): Route
  {
    Route(0, seqno, refmetric, cost, 0, neigh, 0, 0, 15, installed, anchored, heard)
  }

  function Distance(seqno: nat, metric: nat, count: nat): Sources {
    map[0 := Source(seqno, metric, 0, count)]
  }

  const U3 := Msg(0, 0, 2, 0)
  const U4 := Msg(2, 0, 2, INFINITY)
  const U5 := Msg(1, 0, 2, 30)

  const P4 := Router(Distance(1, INFINITY, 1), [Held(1, 2, 10, 20, true, true, true)])
  const R4 := Three(P4, B3, {M1, M2})
  const R5 := Three(P4, B3, {M1, M2, U3})
  const Q6 := Router(Distance(1, 10, 1), [Held(2, 0, 0, 10, true, true, true)])
  const R6 := Three(P4, Q6, {M1, M2, U3})
  const Q7 := Router(Distance(1, 10, 1), [Held(2, 0, 0, INFINITY, true, true, true)])
  const R7 := Three(P4, Q7, {M1, M2, U3})
  const R8 := Three(P4, Q7, {M1, M2, U3, U4})
  const P9 := Router(Distance(1, INFINITY, 1), [Held(2, 2, 10, 20, true, false, false)])
  const R9 := Three(P9, Q7, {M1, M2, U3, U4})
  const P10 := Router(Distance(2, 30, 1), [Held(2, 2, 10, 20, true, false, false)])
  const R10 := Three(P10, Q7, {M1, M2, U3, U4, U5})
  const Q11 := Router(Distance(1, 10, 2),
    [Held(2, 1, 30, 10, true, true, true), Held(2, 0, 0, INFINITY, false, false, true)])
  const R11 := Three(P10, Q11, {M1, M2, U3, U4, U5})

  const T4 := Receive(1, M2, 0, 0, 20, 0, false, E)
  const T5 := Originate(0, 2, 0)
  const T6 := Receive(2, U3, 0, 0, 10, 0, false, E)
  const T7 := Refresh(2, 0, INFINITY, 0, E)
  const T8 := Announce(2, true, 0, 0, E)
  const T9 := Receive(1, U4, 0, 0, 20, 0, false, REFUSING)
  const T10 := Announce(1, true, 0, 0, E)
  const T11 := Receive(2, U5, 0, 0, 10, 0, false, E)

  /** No step of the run revives a retracted route. */
  predicate NeverRevives(net: Net, steps: seq<Step>)
    requires Runs(net, steps)
    decreases |steps|
  {
    steps == [] || (!RevivesRetracted(net, steps[0]) && NeverRevives(Apply(net, steps[0]), steps[1..]))
  }

  ghost predicate PlainlyReached(n: Net) {
    exists steps :: Runs(N0, steps) && Exec(N0, steps) == n && NeverRevives(N0, steps)
  }

  predicate PlainlyLeads(n: Net, s: Step, n': Net) {
    Leads(n, s, n') && !RevivesRetracted(n, s)
  }

  lemma {:induction false} StillNeverRevives(net: Net, steps: seq<Step>, s: Step)
    requires Runs(net, steps) && NeverRevives(net, steps)
    requires Proper(Exec(net, steps), s) && !RevivesRetracted(Exec(net, steps), s)
    ensures Runs(net, steps + [s]) && Exec(net, steps + [s]) == Apply(Exec(net, steps), s)
    ensures NeverRevives(net, steps + [s])
    decreases |steps|
  {
    RunExtends(net, steps, s);
    if steps == [] {
      assert [s][1..] == [];
    } else {
      StillNeverRevives(Apply(net, steps[0]), steps[1..], s);
      assert (steps + [s])[1..] == steps[1..] + [s];
    }
  }

  lemma {:induction false} Onward(n: Net, s: Step, n': Net)
    requires PlainlyReached(n) && PlainlyLeads(n, s, n')
    ensures PlainlyReached(n')
  {
    var steps :| Runs(N0, steps) && Exec(N0, steps) == n && NeverRevives(N0, steps);
    StillNeverRevives(N0, steps, s);
  }

  lemma {:induction false} FirstThree()
    ensures PlainlyReached(N3)
  {
    assert Runs(N0, []) && Exec(N0, []) == N0 && NeverRevives(N0, []);
    Step1();
    Onward(N0, S1, N1);
    Step2();
    Onward(N1, S2, N2);
    Step3();
    Onward(N2, S3, N3);
  }

  lemma {:induction false} Fourth()
    ensures PlainlyLeads(N3, T4, R4)
  {
    assert Moved(N3, T4) == P4;
    assert Apply(N3, T4).routers == R4.routers && Apply(N3, T4).sent == R4.sent;
  }

  lemma {:induction false} Fifth()
    ensures PlainlyLeads(R4, T5, R5)
  {
    assert Moved(R4, T5) == EMPTY;
    assert Apply(R4, T5).routers == R5.routers && Apply(R4, T5).sent == R5.sent;
  }

  lemma {:induction false} Sixth()
    ensures PlainlyLeads(R5, T6, R6)
  {
    assert Moved(R5, T6) == Q6;
    assert Apply(R5, T6).routers == R6.routers && Apply(R5, T6).sent == R6.sent;
  }

  lemma {:induction false} Seventh()
    ensures PlainlyLeads(R6, T7, R7)
  {
    assert Moved(R6, T7) == Q7;
    assert Apply(R6, T7).routers == R7.routers && Apply(R6, T7).sent == R7.sent;
  }

  lemma {:induction false} Eighth()
    ensures PlainlyLeads(R7, T8, R8)
  {
    assert Moved(R7, T8) == Q7;
    assert Apply(R7, T8).routers == R8.routers && Apply(R7, T8).sent == R8.sent;
  }

  lemma {:induction false} Ninth()
    ensures PlainlyLeads(R8, T9, R9)
  {
    assert Moved(R8, T9) == P9;
    assert Apply(R8, T9).routers == R9.routers && Apply(R8, T9).sent == R9.sent;
  }

  lemma {:induction false} Tenth()
    ensures PlainlyLeads(R9, T10, R10)
  {
    assert Moved(R9, T10) == P10;
    assert Apply(R9, T10).routers == R10.routers && Apply(R9, T10).sent == R10.sent;
  }

  lemma {:induction false} Eleventh()
    ensures PlainlyLeads(R10, T11, R11)
  {
    assert ConsiderRoute(Q7.slot + [Held(2, 1, 30, 10, false, false, true)], 1, Distance(1, 10, 1), E) == Q11.slot;
    assert Moved(R10, T11) == Q11;
    assert Apply(R10, T11).routers == R11.routers && Apply(R10, T11).sent == R11.sent;
  }

  /** The refused step is the other kind that loop-freedom excludes. */
  lemma {:induction false} NinthStepMislabels()
    ensures Enabled(R8, T9) && Mislabels(R8, T9)
  {}

  lemma {:induction false} Middle()
    requires PlainlyReached(N3)
    ensures PlainlyReached(R7)
  {
    Fourth();
    Onward(N3, T4, R4);
    Fifth();
    Onward(R4, T5, R5);
    Sixth();
    Onward(R5, T6, R6);
    Seventh();
    Onward(R6, T7, R7);
  }

  lemma {:induction false} End()
    requires PlainlyReached(R7)
    ensures PlainlyReached(R11)
  {
    Eighth();
    Onward(R7, T8, R8);
    Ninth();
    Onward(R8, T9, R9);
    Tenth();
    Onward(R9, T10, R10);
    Eleventh();
    Onward(R10, T11, R11);
  }

  lemma {:induction false} AllReached()
    ensures PlainlyReached(R11)
  {
    FirstThree();
    Middle();
    End();
  }

  lemma {:induction false} LoopInR11()
    ensures Loop(R11, 0, [1, 2, 1])
  {
    assert Forwards(R11.routers[1].slot[0], 0, 2) && Forwards(R11.routers[2].slot[0], 0, 1);
    assert Hop(R11, 0, 1, 2) && Hop(R11, 0, 2, 1);
  }

  /** A run from empty tables in which no retracted route is revived, and after
      which routers 1 and 2 forward the source's traffic to each other. */
  lemma {:induction false} RefusalLoopReachable()
    returns (steps: seq<Step>)
    ensures Initial(N0) && Runs(N0, steps) && NeverRevives(N0, steps) && Loop(Exec(N0, steps), 0, [1, 2, 1])
  {
    StartsEmpty();
    AllReached();
    LoopInR11();
    steps :| Runs(N0, steps) && Exec(N0, steps) == R11 && NeverRevives(N0, steps);
  }
}
