/** What a session can still reach: no packet is ever beyond repair. */
module Recovery {
  import opened Scheduler
  import opened SchedulerSteps
  import WireOrder
  import opened LinkReceiver
  import opened Session

  function Run(x: Session, es: seq<Event>): (y: Session)
    requires Sound(x)
    ensures Sound(y)
    decreases |es|
  {
    if es == [] then x
    else
      StepKeepsSound(x, es[0]);
      Run(Step(x, es[0]), es[1..])
  }

  lemma {:induction false} RunAppend(x: Session, es: seq<Event>, fs: seq<Event>)
    requires Sound(x)
    ensures Run(x, es + fs) == Run(Run(x, es), fs)
    decreases |es|
  {
    hide Sound, Step;
    if es == [] {
      assert es + fs == fs;
    } else {
      StepKeepsSound(x, es[0]);
      assert (es + fs)[1..] == es[1..] + fs;
      RunAppend(Step(x, es[0]), es[1..], fs);
    }
  }

  /** The frames with these positions in the sender's log come in. */
  function Arrivals(ks: seq<nat>): (es: seq<Event>)
    ensures |es| == |ks| && forall i :: 0 <= i < |ks| ==> es[i] == DataArrives(ks[i])
  {
    seq(|ks|, i requires 0 <= i < |ks| => DataArrives(ks[i]))
  }

  const TIMEOUT := Local(WireOrder.TimeoutEvent)

  lemma {:induction false} ArrivalsAreTaken(x: Session, ks: seq<nat>)
    requires Sound(x)
    ensures var y := Run(x, Arrivals(ks));
      && y.snd == x.snd
      && (forall i :: 0 <= i < |ks| && ks[i] < |x.snd.link.log| ==>
            Has(y.rcv, x.snd.link.log[ks[i]]) && x.snd.link.log[ks[i]] in y.acks)
      && (forall id: nat :: Has(x.rcv, id) ==> Has(y.rcv, id))
      && x.acks <= y.acks
    decreases |ks|
  {
    if ks != [] {
      StepKeepsSound(x, DataArrives(ks[0]));
      var x' := Step(x, DataArrives(ks[0]));
      ArrivalIsTaken(x, ks[0]);
      hide Sound, Step;
      assert Arrivals(ks)[1..] == Arrivals(ks[1..]);
      ArrivalsAreTaken(x', ks[1..]);
      var y := Run(x', Arrivals(ks[1..]));
      forall i | 0 <= i < |ks| && ks[i] < |x.snd.link.log|
        ensures Has(y.rcv, x.snd.link.log[ks[i]]) && x.snd.link.log[ks[i]] in y.acks
      {
        if i > 0 { assert ks[i] == ks[1..][i - 1]; }
      }
    }
  }

  lemma ArrivalIsTaken(x: Session, k: nat)
    requires Sound(x)
    ensures var y := Step(x, DataArrives(k));
      && y.snd == x.snd
      && (k < |x.snd.link.log| ==> Has(y.rcv, x.snd.link.log[k]) && x.snd.link.log[k] in y.acks)
      && (forall id: nat :: Has(x.rcv, id) ==> Has(y.rcv, id))
      && x.acks <= y.acks
  {
    var a := x.snd.link;
    if k < |a.log| {
      assert a.log[k] in a.log;
      AcceptKeepsGenuine(x.rcv, a, a.log[k]);
    }
  }

  /** The arrivals `ks` include, in any order and any number, each packet the timeout sends again. */
  ghost predicate EveryResendArrives(a: Link, ks: seq<nat>) {
    forall id <- a.inflight :: exists i :: 0 <= i < |ks| && ks[i] < |Timeout(a).log| && Timeout(a).log[ks[i]] == id
  }

  /**
   From every reachable state one timeout whose frames all arrive repairs the stream: the reorder
   buffer is empty, and every packet that ever left the sender's list has been handed on.
   */
  lemma OneGoodRoundRepairs(x: Session, ks: seq<nat>)
    requires Sound(x) && EveryResendArrives(x.snd.link, ks)
    ensures var y := Run(x, [TIMEOUT] + Arrivals(ks));
      && y.rcv.early == map[]
      && y.rcv.next == x.snd.link.popped
      && (forall id <- x.snd.link.inflight :: id in y.acks)
  {
    StepKeepsSound(x, TIMEOUT);
    var t := Step(x, TIMEOUT);
    assert ([TIMEOUT] + Arrivals(ks))[1..] == Arrivals(ks);
    ArrivalsAreTaken(t, ks);
    var y := Run(t, Arrivals(ks));
    forall id | 0 <= id < x.snd.link.popped
      ensures Has(y.rcv, id)
    {
      if id in x.snd.link.inflight {
        var i :| 0 <= i < |ks| && ks[i] < |t.snd.link.log| && t.snd.link.log[ks[i]] == id;
      }
    }
    AllHandedOn(y);
  }

  lemma AllHandedOn(y: Session)
    requires Sound(y) && forall id :: 0 <= id < y.snd.link.popped ==> Has(y.rcv, id)
    ensures y.rcv.early == map[] && y.rcv.next == y.snd.link.popped
  {
    assert !Has(y.rcv, y.rcv.next);
  }

  // ---------------------------------------------------------------------------------------------
  // Everything can be delivered
  // ---------------------------------------------------------------------------------------------

  /** Packets that are queued, held back or unacknowledged. */
  function Backlog(a: Link): int { |a.inflight| - a.popped + Total(a) }

  lemma AckShrinksBacklog(a: Link, id: nat)
    requires Shape(a) && id in a.inflight
    ensures Backlog(Ack(a, id)) == Backlog(a) - 1
  {
    AckKeepsTotal(a, id);
  }

  /** The first unacknowledged packet is sent again, arrives, and its acknowledgement arrives. */
  function RoundTrip(a: Link): seq<Event>
    requires a.inflight != []
  {
    [TIMEOUT, DataArrives(|a.log|), AckArrives(a.inflight[0])]
  }

  ghost predicate SameQueues(x: Session, y: Session) {
    forall s: Stream :: WireOrder.Queued(y.snd.sched, s) == WireOrder.Queued(x.snd.sched, s)
  }

  lemma ResendArrives(x: Session)
    requires Sound(x) && x.snd.link.inflight != []
    ensures Sound(Step(x, TIMEOUT))
    ensures var u := Step(Step(x, TIMEOUT), DataArrives(|x.snd.link.log|));
      && Sound(u)
      && u.snd == WireOrder.State(Timeout(x.snd.link), x.snd.sched)
      && x.snd.link.inflight[0] in u.acks
  {
    var a := x.snd.link;
    StepKeepsSound(x, TIMEOUT);
    var t := Step(x, TIMEOUT);
    assert t.snd == WireOrder.State(Timeout(a), x.snd.sched);
    assert Timeout(a).log[|a.log|] == a.inflight[0];
    hide Sound, Step;
    ArrivalIsTaken(t, |a.log|);
    StepKeepsSound(t, DataArrives(|a.log|));
  }

  lemma AckArrivesToo(u: Session, id: nat)
    requires Sound(u) && id in u.acks && id in u.snd.link.inflight
    ensures var y := Step(u, AckArrives(id));
      Backlog(u.snd.link) == Backlog(y.snd.link) + 1 && SameQueues(u, y)
  {
    hide Sound, Quiescent, Backlog, WireOrder.Queued, WireOrder.Step, Ack, AckMessage;
    SoundIsQuiescent(u);
    AckStep(u, id);
    AckShrinksBacklog(u.snd.link, id);
    forall s: Stream
      ensures WireOrder.Queued(WireOrder.Step(u.snd, WireOrder.AckEvent(id)).sched, s) ==
        WireOrder.Queued(u.snd.sched, s)
    {
      WireOrder.QueuedAfterStep(u.snd, WireOrder.AckEvent(id), s);
    }
  }

  lemma RoundTripWorks(x: Session)
    requires Sound(x) && x.snd.link.inflight != []
    ensures var y := Run(x, RoundTrip(x.snd.link));
      Backlog(y.snd.link) < Backlog(x.snd.link) && SameQueues(x, y)
  {
    hide Sound, Quiescent, Step, Run;
    var a := x.snd.link;
    ResendArrives(x);
    var u := Step(Step(x, TIMEOUT), DataArrives(|a.log|));
    AckArrivesToo(u, a.inflight[0]);
    ThreeSteps(x, TIMEOUT, DataArrives(|a.log|), AckArrives(a.inflight[0]));
  }

  lemma BacklogIsNatural(x: Session)
    requires Sound(x)
    ensures Backlog(x.snd.link) >= 0
  {
  }

  lemma OneStep(x: Session, e: Event, rest: seq<Event>)
    requires Sound(x)
    ensures Sound(Step(x, e)) && Run(x, [e] + rest) == Run(Step(x, e), rest)
  {
    hide Sound, Step;
    StepKeepsSound(x, e);
    assert ([e] + rest)[1..] == rest;
  }

  lemma ThreeSteps(x: Session, e: Event, f: Event, g: Event)
    requires Sound(x)
    ensures Sound(Step(x, e)) && Sound(Step(Step(x, e), f))
    ensures Run(x, [e, f, g]) == Step(Step(Step(x, e), f), g)
  {
    hide Sound, Step;
    OneStep(x, e, [f, g]);
    OneStep(Step(x, e), f, [g]);
    OneStep(Step(Step(x, e), f), g, []);
    assert [e, f, g] == [e] + [f, g] && [f, g] == [f] + [g] && [g] == [g] + [];
  }

  /** Nothing new is put or flushed. */
  ghost predicate OnlyRepairs(es: seq<Event>) {
    forall e <- es :: e == TIMEOUT || e.DataArrives? || e.AckArrives?
  }

  lemma RoundTripRepairs(a: Link)
    requires a.inflight != []
    ensures OnlyRepairs(RoundTrip(a))
  {
  }

  ghost predicate AllDone(x: Session) {
    && x.rcv.next == |x.snd.link.line| && x.rcv.early == map[]
    && x.snd.link.inflight == []
    && forall s :: Ordinary(s) && s in x.snd.link.held ==> x.snd.link.held[s] == []
  }

  /** With nothing unacknowledged, nothing is left to do. */
  lemma IdleIsDone(x: Session)
    requires Sound(x) && x.snd.link.inflight == []
    ensures AllDone(x)
  {
    AllHandedOn(x);
    assert forall s :: Ordinary(s) ==> x.snd.sched.held[s] == [];
  }

  /**
   No stall: from every reachable state a session can run on, with timeouts and arrivals only, until
   every message accepted on every stream has been handed on and acknowledged.
   */
  lemma {:induction false} EverythingCanBeDelivered(x: Session) returns (es: seq<Event>)
    requires Sound(x)
    ensures OnlyRepairs(es) && AllDone(Run(x, es)) && SameQueues(x, Run(x, es))
    decreases Backlog(x.snd.link)
  {
    hide Sound, Quiescent, Step, AllDone, RoundTrip;
    if x.snd.link.inflight == [] {
      es := [];
      IdleIsDone(x);
    } else {
      var round := RoundTrip(x.snd.link);
      RoundTripRepairs(x.snd.link);
      RoundTripWorks(x);
      BacklogIsNatural(x);
      var rest := EverythingCanBeDelivered(Run(x, round));
      es := round + rest;
      RunAppend(x, round, rest);
    }
  }
}
