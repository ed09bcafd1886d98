/** A run of the session machine in which a session is lost from the count. */
module BgpFsmLoss {
  import opened BgpFsm

  const PLAIN := Config(false, true, false, false, false, 180, 60)

  const SMOOTH := World(ConnectOk, true, false)

  /** A run that has got to that state with an empty queue. */
  predicate At(t: State, status: Status, established: nat) {
    t.status == status && t.config == PLAIN && t.events == [] && t.established == established && t.dropped == 0
  }

  lemma {:induction false} Extended(s: State, run: seq<Step>, step: Step)
    ensures After(s, run + [step]) == Apply(After(s, run), step)
  {
    assert (run + [step])[..|run|] == run;
  }

  /** Queueing an event and handling it. */
  lemma {:induction false} Posted(s: State, run: seq<Step>, e: Event) returns (longer: seq<Step>)
    requires After(s, run).status != Deleted && After(s, run).events == []
    ensures After(s, longer) == Dispatched(After(s, run), e, SMOOTH)
  {
    var t := After(s, run);
    Extended(s, run, Post(e));
    Extended(s, run + [Post(e)], Deliver(SMOOTH));
    longer := run + [Post(e)] + [Deliver(SMOOTH)];
    var u := Add(t, e);
    assert u.events == [e] && u.events[1..] == [];
    assert u.(events := []) == t;
  }

  lemma {:induction false} Connected(s: State) returns (run: seq<Step>)
    requires Initial(s) && s.config == PLAIN
    ensures At(After(s, run), OpenSent, 0) && After(s, run).fd
  {
    var a := Posted(s, [], BgpStart);
    var s1 := After(s, a);
    assert s1.status == Connect && s1.fd && s1.events == [TcpOpen];
    Extended(s, a, Deliver(SMOOTH));
    run := a + [Deliver(SMOOTH)];
    assert s1.events[1..] == [];
  }

  lemma {:induction false} Confirmed(s: State, run: seq<Step>) returns (longer: seq<Step>)
    requires At(After(s, run), OpenSent, 0)
    ensures At(After(s, longer), OpenConfirm, 0)
  {
    longer := Posted(s, run, ReceiveOpen);
  }

  lemma {:induction false} WentUp(s: State, run: seq<Step>) returns (longer: seq<Step>)
    requires At(After(s, run), OpenConfirm, 0)
    ensures At(After(s, longer), Established, 1)
  {
    longer := Posted(s, run, ReceiveKeepalive);
  }

  lemma {:induction false} IgnoredInEstablished(up: State)
    requires At(up, Established, 1)
    ensures At(Dispatched(up, ClearingCompleted, SMOOTH), Idle, 1)
  {}

  /** A Clearing_Completed handled in Established takes the peer to Idle without
      counting the session as dropped. */
  lemma {:induction false} LossReachable(s: State) returns (steps: seq<Step>)
    requires Initial(s) && s.config == PLAIN
    ensures Losses(s, steps) == 1 && At(After(s, steps), Idle, 1)
  {
    var a := Connected(s);
    var b := Confirmed(s, a);
    var c := WentUp(s, b);
    steps := Posted(s, c, ClearingCompleted);
    var up := After(s, c);
    IgnoredInEstablished(up);
    SessionsBalance(s, steps);
  }
}
