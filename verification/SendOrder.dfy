/** What is sent again, and in what order: ppqSent is at all times in the order of last transmission. */
module SendOrder {
  import opened Bytes
  import opened Scheduler
  import opened SchedulerSteps
  import WireOrder

  /** When `id` was last handed to TransmitPacket, counted in frames. */
  function LastSent(log: seq<nat>, id: nat): int {
    if log == [] then -1 else if log[|log| - 1] == id then |log| - 1 else LastSent(log[..|log| - 1], id)
  }

  ghost predicate InOrder(log: seq<nat>, ids: seq<nat>) {
    forall i, j :: 0 <= i < j < |ids| ==> LastSent(log, ids[i]) < LastSent(log, ids[j])
  }

  ghost predicate Distinct(ids: seq<nat>) { forall i, j :: 0 <= i < j < |ids| ==> ids[i] != ids[j] }

  lemma {:induction false} LastSentIs(log: seq<nat>, id: nat)
    ensures LastSent(log, id) < |log|
    ensures LastSent(log, id) >= 0 ==> log[LastSent(log, id)] == id
  {
    if log != [] { LastSentIs(log[..|log| - 1], id); }
  }

  /** Frames that are added, each of another packet. */
  lemma {:induction false} LastSentAfter(log: seq<nat>, more: seq<nat>, id: nat)
    requires Distinct(more)
    ensures id !in more ==> LastSent(log + more, id) == LastSent(log, id)
    ensures forall i :: 0 <= i < |more| && more[i] == id ==> LastSent(log + more, id) == |log| + i
    decreases |more|
  {
    if more == [] {
      assert log + more == log;
    } else {
      var front, last := more[..|more| - 1], more[|more| - 1];
      LastSentAfter(log, front, id);
      assert (log + more)[..|log + more| - 1] == log + front;
      assert forall i :: 0 <= i < |front| ==> more[i] == front[i];
    }
  }

  lemma SentAgainInOrder(log: seq<nat>, ids: seq<nat>)
    requires Distinct(ids)
    ensures InOrder(log + ids, ids)
  {
    hide LastSent;
    forall i, j | 0 <= i < j < |ids|
      ensures LastSent(log + ids, ids[i]) < LastSent(log + ids, ids[j])
    {
      LastSentAfter(log, ids, ids[i]);
      LastSentAfter(log, ids, ids[j]);
    }
  }

  /** Some of the packets are sent again: they go behind the others. */
  lemma SomeSentAgain(log: seq<nat>, others: seq<nat>, again: seq<nat>)
    requires Distinct(others + again) && InOrder(log, others)
    ensures InOrder(log + again, others + again)
  {
    hide LastSent;
    var ids := others + again;
    assert Distinct(again) by {
      forall i, j | 0 <= i < j < |again| ensures again[i] != again[j] {
        assert ids[|others| + i] != ids[|others| + j];
      }
    }
    forall i, j | 0 <= i < j < |ids|
      ensures LastSent(log + again, ids[i]) < LastSent(log + again, ids[j])
    {
      LastSentAfter(log, again, ids[i]);
      LastSentAfter(log, again, ids[j]);
      LastSentIs(log, ids[i]);
      if i < |others| {
        assert ids[i] !in again by { forall k | 0 <= k < |again| ensures again[k] != ids[i] { assert ids[|others| + k] != ids[i]; } }
        if j < |others| {
          assert ids[j] !in again by { forall k | 0 <= k < |again| ensures again[k] != ids[j] { assert ids[|others| + k] != ids[j]; } }
          assert others[i] == ids[i] && others[j] == ids[j];
        } else {
          assert again[j - |others|] == ids[j];
        }
      } else {
        assert again[i - |others|] == ids[i] && again[j - |others|] == ids[j];
      }
    }
  }

  ghost predicate Ordered(a: Link) { InOrder(a.log, a.inflight) }

  lemma PopKeepsOrder(a: Link)
    requires Shape(a) && a.popped < |a.line| && Logged(a) && Ordered(a)
    ensures Ordered(Pop(a))
  {
    hide LastSent;
    SomeSentAgain(a.log, a.inflight, [a.popped]);
  }

  lemma FreeKeepsOrder(a: Link, k: nat)
    requires Shape(a) && k < |a.inflight| && Logged(a) && Ordered(a)
    ensures Ordered(Free(a, k))
  {
    hide LastSent;
    var others, again := a.inflight[k + 1..], a.inflight[..k];
    var ids := others + again;
    forall i, j | 0 <= i < j < |ids| ensures ids[i] != ids[j] {
      assert ids[i] == a.inflight[if i < |others| then k + 1 + i else i - |others|];
      assert ids[j] == a.inflight[if j < |others| then k + 1 + j else j - |others|];
    }
    SomeSentAgain(a.log, others, again);
  }

  lemma {:induction false} PutAllKeepsOrder(a: Link, ps: seq<Packet>)
    requires Shape(a) && Logged(a) && Ordered(a)
    ensures Ordered(PutAll(a, ps))
    decreases |ps|
  {
    if ps != [] {
      hide Ordered;
      PutPacketKeepsOrder(a, ps[0]);
      PutAllKeepsOrder(PutPacket(a, ps[0]), ps[1..]);
    }
  }

  lemma PutPacketKeepsOrder(a: Link, p: Packet)
    requires Shape(a) && Logged(a) && Ordered(a)
    ensures Ordered(PutPacket(a, p)) && Logged(PutPacket(a, p))
  {
    hide InOrder;
    if GoesAtOnce(a, p) {
      PopKeepsOrder(Enqueue(a, p));
      PopKeepsLogged(Enqueue(a, p));
    }
  }

  /**
   An acknowledgement.  The packets sent before the one that is acknowledged, and not acknowledged
   themselves, are sent again, each once and in their order; then the next one waiting, if there is one.
   */
  lemma SkippedAreSentAgain(a: Link, id: nat, k: nat)
    requires Shape(a) && Logged(a) && k < |a.inflight| && a.inflight[k] == id
    ensures var b := Ack(a, id); var next: seq<nat> := if a.popped < |a.line| then [a.popped] else [];
      && b.log == a.log + a.inflight[..k] + next
      && b.inflight == a.inflight[k + 1..] + a.inflight[..k] + next
      && b.popped == a.popped + |next|
  {
    var j := Find(a.inflight, id);
    assert a.inflight[j] == a.inflight[k];
  }

  /** One that nobody waits for changes nothing. */
  lemma StrangersChangeNothing(a: Link, id: nat)
    requires Shape(a) && id !in a.inflight
    ensures Ack(a, id) == a
  {
  }

  lemma StepKeepsOrder(x: WireOrder.State, e: WireOrder.Event)
    requires Quiescent(x.link, x.sched) && Ordered(x.link)
    ensures Ordered(WireOrder.Step(x, e).link)
  {
    hide LastSent;
    var a := x.link;
    match e
    case PutEvent(m) => PutAllKeepsOrder(a, Packets(m));
    case AckEvent(id) =>
      var k := Find(a.inflight, id);
      if k < |a.inflight| {
        FreeKeepsOrder(a, k);
        FreeKeepsLogged(a, k);
        if a.popped < |a.line| { PopKeepsOrder(Free(a, k)); }
      }
    case TimeoutEvent => SentAgainInOrder(a.log, a.inflight);
    case _ =>
  }

  /**
   In every run: no more than eight packets are unacknowledged, all of them different, and exactly eight
   while any wait; and they stand in the order in which they were last sent.
   */
  lemma {:induction false} WindowIsInOrder(es: seq<WireOrder.Event>)
    ensures var a := WireOrder.After(es).link;
      && |a.inflight| <= 8 && (a.popped < |a.line| ==> |a.inflight| == 8)
      && Distinct(a.inflight) && (forall id <- a.inflight :: id in a.log && id < a.popped)
      && Ordered(a)
  {
    if es != [] {
      hide Ordered, Quiescent, WireOrder.Step;
      WindowIsInOrder(es[..|es| - 1]);
      StepKeepsOrder(WireOrder.After(es[..|es| - 1]), es[|es| - 1]);
    }
    WindowIs(WireOrder.After(es));
  }

  lemma WindowIs(x: WireOrder.State)
    requires Quiescent(x.link, x.sched)
    ensures var a := x.link;
      && |a.inflight| <= 8 && (a.popped < |a.line| ==> |a.inflight| == 8)
      && Distinct(a.inflight) && (forall id <- a.inflight :: id in a.log && id < a.popped)
  {
  }
}
