/** A run of the protocol in which a forwarding loop does appear: update_route
    stores an unfeasible distance into a route that consider_route installed
    while it was retracted. */
module BabelLoopExample {
  import opened BabelSeqno
  import opened BabelRoute
  import opened BabelNetwork

  const E := Env(0, false, true, true)

  // Router 0 exports the prefix; routers 1 and 2 also hear each other.

  function Via(neigh: RouterId, refmetric: nat, cost: nat, installed: bool, anchored: bool): Route {
    Route(0, 1, refmetric, cost, 0, neigh, 0, 0, 15, installed, anchored, true)
  }

  function Fd(metric: nat, count: nat): Sources {
    map[0 := Source(1, metric, 0, count)]
  }

  const EMPTY := Router(map[], [])

  function Three(a: Router, b: Router, sent: set<Msg>): Net {
    Net(map[0 := EMPTY, 1 := a, 2 := b], sent)
  }

  const M1 := Msg(0, 0, 1, 0)
  const M2 := Msg(2, 0, 1, 10)
  const M3 := Msg(1, 0, 1, 5)
  const M4 := Msg(2, 0, 1, INFINITY)
  const M5 := Msg(2, 0, 1, 15)

  const N0 := Three(EMPTY, EMPTY, {})
  const N1 := Three(EMPTY, EMPTY, {M1})
  const N2 := Three(EMPTY, Router(Fd(INFINITY, 1), [Via(0, 0, 10, true, true)]), {M1})
  const B3 := Router(Fd(10, 1), [Via(0, 0, 10, true, true)])
  const N3 := Three(EMPTY, B3, {M1, M2})
  const N4 := Three(Router(Fd(INFINITY, 1), [Via(2, 10, 200, true, true)]), B3, {M1, M2})
  const N5 := Three(Router(Fd(INFINITY, 2), [Via(0, 0, 5, true, true), Via(2, 10, 200, false, false)]), B3, {M1, M2})
  const A6 := Router(Fd(5, 2), [Via(0, 0, 5, true, true), Via(2, 10, 200, false, false)])
  const N6 := Three(A6, B3, {M1, M2, M3})
  const B7 := Router(Fd(10, 1), [Via(0, 0, INFINITY, true, true)])
  const N7 := Three(A6, B7, {M1, M2, M3})
  const N8 := Three(A6, B7, {M1, M2, M3, M4})
  const A9 := Router(Fd(5, 2), [Via(0, 0, 5, true, true), Via(2, INFINITY, 200, false, false)])
  const N9 := Three(A9, B7, {M1, M2, M3, M4})
  const B10 := Router(Fd(10, 2), [Via(1, 5, 10, true, true), Via(0, 0, INFINITY, false, false)])
  const N10 := Three(A9, B10, {M1, M2, M3, M4})
  const N11 := Three(A9, B10, {M1, M2, M3, M4, M5})
  const A12 := Router(Fd(5, 1), [Via(2, INFINITY, 200, true, false)])
  const N12 := Three(A12, B10, {M1, M2, M3, M4, M5})
  const A13 := Router(Fd(5, 1), [Via(2, 15, 200, true, false)])
  const N13 := Three(A13, B10, {M1, M2, M3, M4, M5})

  const S1 := Originate(0, 1, 0)
  const S2 := Receive(2, M1, 0, 0, 10, 0, false, E)
  const S3 := Announce(2, true, 0, 0, E)
  const S4 := Receive(1, M2, 0, 0, 200, 0, false, E)
  const S5 := Receive(1, M1, 0, 0, 5, 0, false, E)
  const S6 := Announce(1, true, 0, 0, E)
  const S7 := Refresh(2, 0, INFINITY, 0, E)
  const S8 := Announce(2, true, 0, 0, E)
  const S9 := Receive(1, M4, 0, 0, 200, 0, false, E)
  const S10 := Receive(2, M3, 0, 0, 10, 0, false, E)
  const S11 := Announce(2, true, 0, 0, E)
  const S12 := Flush(1, 0, E)
  const S13 := Receive(1, M5, 0, 0, 200, 0, false, E)

  predicate Leads(n: Net, s: Step, n': Net) {
    Proper(n, s) && Apply(n, s) == n'
  }

  ghost predicate Reached(n: Net) {
    exists steps :: Runs(N0, steps) && Exec(N0, steps) == n
  }

  lemma {:induction false} RunExtends(net: Net, steps: seq<Step>, s: Step)
    requires Runs(net, steps) && Proper(Exec(net, steps), s)
    ensures Runs(net, steps + [s]) && Exec(net, steps + [s]) == Apply(Exec(net, steps), s)
    decreases |steps|
  {
    if steps == [] {
      assert [s][1..] == [];
    } else {
      RunExtends(Apply(net, steps[0]), steps[1..], s);
      assert (steps + [s])[1..] == steps[1..] + [s];
    }
  }

  lemma {:induction false} Advance(n: Net, s: Step, n': Net)
    requires Reached(n) && Leads(n, s, n')
    ensures Reached(n')
  {
    var steps :| Runs(N0, steps) && Exec(N0, steps) == n;
    RunExtends(N0, steps, s);
  }

  lemma {:induction false} Start()
    ensures Reached(N0)
  {
    assert Runs(N0, []) && Exec(N0, []) == N0;
  }

  lemma {:induction false} Step1()
    ensures Leads(N0, S1, N1)
  {
    assert Moved(N0, S1) == EMPTY;
    assert Apply(N0, S1).routers == N1.routers && Apply(N0, S1).sent == N1.sent;
  }

  lemma {:induction false} Step2()
    ensures Leads(N1, S2, N2)
  {
    assert Moved(N1, S2) == Router(Fd(INFINITY, 1), [Via(0, 0, 10, true, true)]);
    assert Apply(N1, S2).routers == N2.routers && Apply(N1, S2).sent == N2.sent;
  }

  lemma {:induction false} Step3()
    ensures Leads(N2, S3, N3)
  {
    assert Moved(N2, S3) == B3;
    assert Apply(N2, S3).routers == N3.routers && Apply(N2, S3).sent == N3.sent;
  }

  lemma {:induction false} Step4()
    ensures Leads(N3, S4, N4)
  {
    assert Moved(N3, S4) == Router(Fd(INFINITY, 1), [Via(2, 10, 200, true, true)]);
    assert Apply(N3, S4).routers == N4.routers && Apply(N3, S4).sent == N4.sent;
  }

  lemma {:induction false} Step5()
    ensures Leads(N4, S5, N5)
  {
    assert ConsiderRoute([Via(2, 10, 200, true, true), Via(0, 0, 5, false, false)], 1, Fd(INFINITY, 1), E)
           == [Via(0, 0, 5, true, true), Via(2, 10, 200, false, false)];
    assert Moved(N4, S5) == Router(Fd(INFINITY, 2), [Via(0, 0, 5, true, true), Via(2, 10, 200, false, false)]);
    assert Apply(N4, S5).routers == N5.routers && Apply(N4, S5).sent == N5.sent;
  }

  lemma {:induction false} Step6()
    ensures Leads(N5, S6, N6)
  {
    assert Moved(N5, S6) == A6;
    assert Apply(N5, S6).routers == N6.routers && Apply(N5, S6).sent == N6.sent;
  }

  lemma {:induction false} Step7()
    ensures Leads(N6, S7, N7)
  {
    assert Moved(N6, S7) == B7;
    assert Apply(N6, S7).routers == N7.routers && Apply(N6, S7).sent == N7.sent;
  }

  lemma {:induction false} Step8()
    ensures Leads(N7, S8, N8)
  {
    assert Moved(N7, S8) == B7;
    assert Apply(N7, S8).routers == N8.routers && Apply(N7, S8).sent == N8.sent;
  }

  lemma {:induction false} Step9()
    ensures Leads(N8, S9, N9)
  {
    assert FindRoute(A6.slot, 2, 0) == 1;
    assert Moved(N8, S9) == A9;
    assert Apply(N8, S9).routers == N9.routers && Apply(N8, S9).sent == N9.sent;
  }

  lemma {:induction false} Step10()
    ensures Leads(N9, S10, N10)
  {
    assert ConsiderRoute([Via(0, 0, INFINITY, true, true), Via(1, 5, 10, false, false)], 1, Fd(10, 1), E) == B10.slot;
    assert Moved(N9, S10) == B10;
    assert Apply(N9, S10).routers == N10.routers && Apply(N9, S10).sent == N10.sent;
  }

  lemma {:induction false} Step11()
    ensures Leads(N10, S11, N11)
  {
    assert Moved(N10, S11) == B10;
    assert Apply(N10, S11).routers == N11.routers && Apply(N10, S11).sent == N11.sent;
  }

  lemma {:induction false} Step12()
    ensures Leads(N11, S12, N12)
  {
    assert Moved(N11, S12) == A12;
    assert Apply(N11, S12).routers == N12.routers && Apply(N11, S12).sent == N12.sent;
  }

  lemma {:induction false} Step13()
    ensures Leads(N12, S13, N13)
  {
    assert Moved(N12, S13) == A13;
    assert Apply(N12, S13).routers == N13.routers && Apply(N12, S13).sent == N13.sent;
  }

  /** The last step is the delivery that loop-freedom excludes. */
  lemma {:induction false} LastStepRevives()
    ensures Enabled(N12, S13) && RevivesRetracted(N12, S13)
  {}

  lemma {:induction false} LoopAtEnd()
    ensures Loop(N13, 0, [1, 2, 1])
  {
    assert Forwards(N13.routers[1].slot[0], 0, 2) && Forwards(N13.routers[2].slot[0], 0, 1);
    assert Hop(N13, 0, 1, 2) && Hop(N13, 0, 2, 1);
  }

  lemma {:induction false} Stage1()
    ensures Reached(N4)
  {
    Start();
    Step1();
    Advance(N0, S1, N1);
    Step2();
    Advance(N1, S2, N2);
    Step3();
    Advance(N2, S3, N3);
    Step4();
    Advance(N3, S4, N4);
  }

  lemma {:induction false} Stage2()
    requires Reached(N4)
    ensures Reached(N8)
  {
    Step5();
    Advance(N4, S5, N5);
    Step6();
    Advance(N5, S6, N6);
    Step7();
    Advance(N6, S7, N7);
    Step8();
    Advance(N7, S8, N8);
  }

  lemma {:induction false} Stage3()
    requires Reached(N8)
    ensures Reached(N13)
  {
    Step9();
    Advance(N8, S9, N9);
    Step10();
    Advance(N9, S10, N10);
    Step11();
    Advance(N10, S11, N11);
    Step12();
    Advance(N11, S12, N12);
    Step13();
    Advance(N12, S13, N13);
  }

  lemma {:induction false} AllStages()
    ensures Reached(N13)
  {
    Stage1();
    Stage2();
    Stage3();
  }

  lemma {:induction false} StartsEmpty()
    ensures Initial(N0)
  {}

  /** The code's own loop: a run from empty tables after which routers 1 and 2
      forward the source's traffic to each other. */
  lemma {:induction false} LoopReachable()
    returns (steps: seq<Step>)
    ensures Initial(N0) && Runs(N0, steps) && Loop(Exec(N0, steps), 0, [1, 2, 1])
  {
    StartsEmpty();
    AllStages();
    LoopAtEnd();
    steps :| Runs(N0, steps) && Exec(N0, steps) == N13;
  }
}
