/** One direction of a session: a sender, a receiver, and a line that loses, repeats and reorders. */
module Session {
  import opened Bytes
  import opened Scheduler
  import opened SchedulerSteps
  import WireOrder
  import opened LinkReceiver
  import opened Reassembly

  /**
   The data frames on the line are those the sender's log lists, each as often as it is listed or
   more; `acks` are the ids the receiver has ever acknowledged.  A frame garbled on the line fails its
   checksum and is as good as lost.
   */
  datatype Session = Session(snd: WireOrder.State, rcv: Inbox, acks: set<nat>)

  datatype Event =
    | Local(e: WireOrder.Event)          // put, flush or timeout at the sender
    | DataArrives(k: nat)                // the k-th frame the sender ever transmitted comes in
    | AckArrives(id: nat)                // some acknowledgement the receiver ever sent comes in

  const START := Session(WireOrder.START, EMPTY, {})

  /** ProcessData: every good data frame is acknowledged, whether it is new or not. */
  function Take(x: Session, id: nat): Session
    requires id < |x.snd.link.line|
  {
    x.(rcv := Accept(x.rcv, id, x.snd.link.line[id].data), acks := x.acks + {id})
  }

  ghost predicate Sound(x: Session) {
    && Quiescent(x.snd.link, x.snd.sched)
    && Genuine(x.rcv, x.snd.link)
    && NoneForgotten(x)
  }

  /** The receiver has only what was sent, handed on exactly the first packets of the line, and waits for one. */
  ghost predicate Genuine(r: Inbox, a: Link) { Drainable(r, a) && r.next !in r.early }

  /** The same before draining: the next packet may be there. */
  ghost predicate Drainable(r: Inbox, a: Link) {
    && |r.delivered| == r.next <= a.popped <= |a.line|
    && (forall i :: 0 <= i < r.next ==> r.delivered[i] == a.line[i].data)
    && (forall id :: id in r.early ==> r.next <= id < a.popped && r.early[id] == a.line[id].data)
  }

  /** A packet that left the list is still being sent or has arrived; only arrivals are acknowledged. */
  ghost predicate NoneForgotten(x: Session) {
    && (forall id :: 0 <= id < x.snd.link.popped ==> id in x.snd.link.inflight || Has(x.rcv, id))
    && (forall id :: id in x.acks ==> Has(x.rcv, id))
  }

  function Step(x: Session, e: Event): Session
    requires Sound(x)
  {
    match e
    case Local(e) => if e.AckEvent? then x else x.(snd := WireOrder.Step(x.snd, e))
    case DataArrives(k) =>
      var a := x.snd.link;
      if k < |a.log| then (assert a.log[k] in a.log; Take(x, a.log[k])) else x
    case AckArrives(id) => if id in x.acks then x.(snd := WireOrder.Step(x.snd, WireOrder.AckEvent(id))) else x
  }

  // ---------------------------------------------------------------------------------------------
  // Every step keeps the invariant
  // ---------------------------------------------------------------------------------------------

  /** The line only grows, and a packet leaves ppqSent only if it is acknowledged. */
  ghost predicate Extends(a: Link, b: Link) {
    && a.line <= b.line && a.popped <= b.popped
    && (forall id :: a.popped <= id < b.popped ==> id in b.inflight)
  }

  lemma {:induction false} PutAllExtends(a: Link, ps: seq<Packet>)
    requires Shape(a)
    ensures Extends(a, PutAll(a, ps)) && (forall id <- a.inflight :: id in PutAll(a, ps).inflight)
    decreases |ps|
  {
    if ps != [] {
      PutPacketExtends(a, ps[0]);
      PutAllExtends(PutPacket(a, ps[0]), ps[1..]);
    }
  }

  lemma PutPacketExtends(a: Link, p: Packet)
    requires Shape(a)
    ensures Extends(a, PutPacket(a, p)) && (forall id <- a.inflight :: id in PutPacket(a, p).inflight)
  {
    if GoesAtOnce(a, p) { PopExtends(Enqueue(a, p)); }
  }

  lemma PopExtends(a: Link)
    requires Shape(a) && a.popped < |a.line|
    ensures Extends(a, Pop(a)) && (forall id <- a.inflight :: id in Pop(a).inflight)
  {
    assert Pop(a).inflight[|a.inflight|] == a.popped;
    forall id | id in a.inflight
      ensures id in Pop(a).inflight
    {
      var i :| 0 <= i < |a.inflight| && a.inflight[i] == id;
      assert Pop(a).inflight[i] == id;
    }
  }

  lemma FreeKeepsOthers(a: Link, k: nat)
    requires Shape(a) && k < |a.inflight|
    ensures forall id <- a.inflight :: id == a.inflight[k] || id in Free(a, k).inflight
  {
    forall id | id in a.inflight && id != a.inflight[k]
      ensures id in Free(a, k).inflight
    {
      var i :| 0 <= i < |a.inflight| && a.inflight[i] == id;
      assert Free(a, k).inflight[if i > k then i - k - 1 else |a.inflight| - k - 1 + i] == id;
    }
  }

  lemma AckExtends(a: Link, id: nat)
    requires Shape(a)
    ensures Extends(a, Ack(a, id))
    ensures forall other <- a.inflight :: other == id || other in Ack(a, id).inflight
  {
    var k := Find(a.inflight, id);
    if k < |a.inflight| {
      FreeKeepsOthers(a, k);
      if a.popped < |a.line| { PopExtends(Free(a, k)); }
    }
  }

  lemma SenderStepKeepsSound(x: Session, e: WireOrder.Event)
    requires Sound(x) && (e.AckEvent? ==> Has(x.rcv, e.id))
    ensures Sound(x.(snd := WireOrder.Step(x.snd, e)))
  {
    WireOrder.StepKeepsQuiescent(x.snd, e);
    match e
    case PutEvent(m) => PutAllExtends(x.snd.link, Packets(m));
    case AckEvent(id) => AckExtends(x.snd.link, id);
    case _ =>
  }

  lemma AcceptKeepsGenuine(r: Inbox, a: Link, id: nat)
    requires Genuine(r, a) && id < a.popped
    ensures var d := Accept(r, id, a.line[id].data);
      Genuine(d, a) && Has(d, id) && (forall i: nat :: Has(r, i) ==> Has(d, i))
  {
    if !(id < r.next || id in r.early) {
      DrainsToGap(r.(early := r.early[id := a.line[id].data]));
      DrainedIsGenuine(r.(early := r.early[id := a.line[id].data]), a);
    }
  }

  lemma DrainedData(r: Inbox, a: Link, i: nat)
    requires Drainable(r, a) && i < Drain(r).next
    ensures i < |Drain(r).delivered| && i < a.popped && Drain(r).delivered[i] == a.line[i].data
  {
    hide Drain;
    DrainsToGap(r);
    if i >= r.next {
      assert i in r.early && Drain(r).delivered[|r.delivered| + i - r.next] == r.early[i];
    } else {
      assert Drain(r).delivered[i] == r.delivered[i];
    }
  }

  lemma DrainedIsGenuine(r: Inbox, a: Link)
    requires Drainable(r, a)
    ensures Genuine(Drain(r), a)
  {
    hide Drain;
    DrainsToGap(r);
    var d := Drain(r);
    if d.next > r.next { assert d.next - 1 in r.early; }
    forall i | 0 <= i < d.next
      ensures d.delivered[i] == a.line[i].data
    {
      DrainedData(r, a, i);
    }
  }

  lemma StepKeepsSound(x: Session, e: Event)
    requires Sound(x)
    ensures Sound(Step(x, e))
  {
    match e
    case Local(e) => if !e.AckEvent? { SenderStepKeepsSound(x, e); }
    case AckArrives(id) => if id in x.acks { SenderStepKeepsSound(x, WireOrder.AckEvent(id)); }
    case DataArrives(k) =>
      var a := x.snd.link;
      if k < |a.log| {
        assert a.log[k] in a.log;
        AcceptKeepsGenuine(x.rcv, a, a.log[k]);
      }
  }

  /** The session after any run: what is put, flushed, lost, repeated and reordered is arbitrary. */
  function After(es: seq<Event>): (x: Session)
    ensures Sound(x)
  {
    if es == [] then (StartsQuiescent(); START)
    else
      StepKeepsSound(After(es[..|es| - 1]), es[|es| - 1]);
      Step(After(es[..|es| - 1]), es[|es| - 1])
  }

  lemma AckStep(x: Session, id: nat)
    requires Sound(x) && id in x.acks
    ensures Shape(x.snd.link)
    ensures Step(x, AckArrives(id)) == x.(snd := WireOrder.Step(x.snd, WireOrder.AckEvent(id)))
    ensures WireOrder.Step(x.snd, WireOrder.AckEvent(id)).link == Ack(x.snd.link, id)
  {
  }

  // ---------------------------------------------------------------------------------------------
  // End to end
  // ---------------------------------------------------------------------------------------------

  /** The bytes that each element holds. */
  function Each<T>(s: seq<T>, f: T -> bytes): (r: seq<bytes>)
    ensures |r| == |s| && forall i :: 0 <= i < |r| ==> r[i] == f(s[i])
  {
    seq(|s|, i requires 0 <= i < |s| => f(s[i]))
  }

  function Payloads(ps: seq<Packet>): seq<bytes> { Each(ps, (p: Packet) => p.data) }

  function Datas(ms: seq<Message>): seq<bytes> { Each(ms, (m: Message) => m.data) }

  lemma {:induction false} PacketsCarryData(s: Stream, data: bytes, leader: bool)
    ensures Concat(Payloads(Packetise(s, data, leader))) == data
    decreases |data|
  {
    if |data| > PACKET_MAX {
      var rest := Packetise(s, data[PACKET_MAX..], false);
      PacketsCarryData(s, data[PACKET_MAX..], false);
      assert Payloads(Packetise(s, data, leader))[1..] == Payloads(rest);
      assert data == data[..PACKET_MAX] + data[PACKET_MAX..];
    } else {
      assert Payloads(Packetise(s, data, leader)) == [data];
      assert Concat([data]) == data + Concat([]);
    }
  }

  lemma {:induction false} LineCarriesMessages(ms: seq<Message>)
    ensures Concat(Payloads(Flatten(ms))) == Concat(Datas(ms))
    decreases |ms|
  {
    if ms != [] {
      var p, rest := Packets(ms[0]), Flatten(ms[1..]);
      LineCarriesMessages(ms[1..]);
      PacketsCarryData(ms[0].stream, ms[0].data, true);
      assert Payloads(p + rest) == Payloads(p) + Payloads(rest);
      ConcatAppend(Payloads(p), Payloads(rest));
      assert Datas(ms)[1..] == Datas(ms[1..]);
    }
  }

  /** Every message put is one that the receiving program can cut out again. */
  ghost predicate WellFormedPuts(es: seq<Event>) {
    forall i :: 0 <= i < |es| && es[i].Local? && es[i].e.PutEvent? ==> WellFormed(es[i].e.m.data)
  }

  ghost predicate WellFormedMessages(c: Schedule) {
    && (forall i :: 0 <= i < |c.msgs| ==> WellFormed(c.msgs[i].data))
    && (forall s, i :: Ordinary(s) && s in c.held && 0 <= i < |c.held[s]| ==> WellFormed(c.held[s][i].data))
  }

  lemma {:induction false} MessagesStayWellFormed(es: seq<Event>)
    requires WellFormedPuts(es)
    ensures WellFormedMessages(After(es).snd.sched)
  {
    if es != [] {
      hide Sound, Quiescent, WireOrder.Step, WellFormedMessages;
      var before, e := After(es[..|es| - 1]), es[|es| - 1];
      MessagesStayWellFormed(es[..|es| - 1]);
      SoundIsQuiescent(before);
      match e
      case Local(f) => StepStaysWellFormed(before.snd, f);
      case AckArrives(id) => StepStaysWellFormed(before.snd, WireOrder.AckEvent(id));
      case _ =>
    } else {
      hide After;
      NothingIsWellFormed(es);
    }
  }

  lemma NothingIsWellFormed(es: seq<Event>)
    requires es == []
    ensures WellFormedMessages(After(es).snd.sched)
  {
  }

  lemma SoundIsQuiescent(x: Session)
    requires Sound(x)
    ensures Quiescent(x.snd.link, x.snd.sched)
  {
  }

  lemma StepStaysWellFormed(x: WireOrder.State, e: WireOrder.Event)
    requires Quiescent(x.link, x.sched) && WellFormedMessages(x.sched)
    requires e.PutEvent? ==> WellFormed(e.m.data)
    ensures WellFormedMessages(WireOrder.Step(x, e).sched)
  {
    hide WellFormed, Put, Ack;
  }

  /**
   End-to-end safety, for every run.  The bytes handed to DataReceived are the first `k` messages of
   the wire order and part of the next one, and the requests cut out of them, in as many calls as
   there were packets, are these `k` messages: each once, complete and in order.
   */
  lemma EndToEnd(es: seq<Event>) returns (k: nat)
    requires WellFormedPuts(es)
    ensures var x := After(es); var ms := Datas(x.snd.sched.msgs);
      && k <= |ms|
      && Clean([] + Concat(x.rcv.delivered))
      && Feed([], x.rcv.delivered).requests == ms[..k]
      && (k < |ms| ==> Concat(x.rcv.delivered) < Concat(ms[..k]) + ms[k])
      && (k == |ms| ==> Concat(x.rcv.delivered) == Concat(ms))
  {
    hide Sound, Requests, Clean, WellFormed, Feed;
    var x := After(es);
    var ms, b := Datas(x.snd.sched.msgs), Concat(x.rcv.delivered);
    MessagesStayWellFormed(es);
    DeliveredIsPrefix(x);
    k := CutsPrefix(ms, b);
    assert [] + b == b;
    FeedIsRequests([], x.rcv.delivered);
    if k == |ms| { assert ms[..k] == ms; }
  }

  /** The bytes handed on are a prefix of the messages in wire order. */
  lemma DeliveredIsPrefix(x: Session)
    requires Sound(x)
    ensures Concat(x.rcv.delivered) <= Concat(Datas(x.snd.sched.msgs))
  {
    hide Sound, Flatten, Concat, Payloads, Datas;
    var a, r := x.snd.link, x.rcv;
    DeliveredFromLine(x);
    LineCarriesMessages(x.snd.sched.msgs);
    ConcatAppend(r.delivered, Payloads(a.line[r.next..]));
  }

  lemma DeliveredFromLine(x: Session)
    requires Sound(x)
    ensures var a, r := x.snd.link, x.rcv;
      && a.line == Flatten(x.snd.sched.msgs) && r.next <= |a.line|
      && Payloads(a.line) == r.delivered + Payloads(a.line[r.next..])
  {
    hide Flatten, Window, OneEach, BusyMeansUnfinished, NoneForgotten;
  }
}
