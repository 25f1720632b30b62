/** The layers put together, for data of one session and acknowledgements of the other at once. */
module Stack {
  import opened Bytes
  import opened Frames
  import opened Scheduler
  import opened SchedulerSteps
  import WireOrder
  import opened LinkReceiver
  import opened LinkEndpoint
  import opened Session
  import opened Reception

  // ---------------------------------------------------------------------------------------------
  // Every frame fits
  // ---------------------------------------------------------------------------------------------

  lemma {:induction false} PacketsAreSmall(ms: seq<Message>)
    ensures forall i :: 0 <= i < |Flatten(ms)| ==> |Flatten(ms)[i].data| <= DATA_MAX
  {
    if ms != [] {
      var p, rest := Packets(ms[0]), Flatten(ms[1..]);
      PacketiseRun(ms[0].stream, ms[0].data, true);
      PacketsAreSmall(ms[1..]);
      var all: seq<Packet> := p + rest;
      forall i | 0 <= i < |all| ensures |all[i].data| <= DATA_MAX {
        if i < |p| { assert p[i] in p; } else { assert all[i] == rest[i - |p|]; }
      }
    }
  }

  /** A session of at most 32768 packets: each frame it transmits has a good id and is not too long. */
  ghost predicate Short(x: Session) { Sound(x) && |x.snd.link.line| <= 0x8000 }

  lemma DataFits(x: Session, k: nat)
    requires Short(x) && k < |x.snd.link.log|
    ensures var a := x.snd.link; a.log[k] < |a.line| && a.log[k] < 0x8000 && |a.line[a.log[k]].data| <= DATA_MAX
  {
    assert x.snd.link.log[k] in x.snd.link.log;
    PacketsAreSmall(x.snd.sched.msgs);
  }

  lemma AckFits(x: Session, id: nat)
    requires Short(x) && id in x.acks
    ensures id < 0x8000
  {
    assert Has(x.rcv, id);
  }

  // ---------------------------------------------------------------------------------------------
  // One end of two sessions
  // ---------------------------------------------------------------------------------------------

  /** What comes in: a data frame of the incoming session, or an acknowledgement of the outgoing one. */
  datatype Item = Data(k: nat) | Acknowledgement(id: nat)

  /** The frame was transmitted at some time. */
  predicate Transmitted(x: Session, y: Session, i: Item) {
    match i
    case Data(k) => k < |x.snd.link.log|
    case Acknowledgement(id) => id in y.acks
  }

  predicate AllTransmitted(x: Session, y: Session, items: seq<Item>) {
    items != [] ==> Transmitted(x, y, items[0]) && AllTransmitted(x, y, items[1..])
  }

  /** The frame has a good id and is not too long. */
  predicate Fitting(x: Session, i: Item) {
    match i
    case Data(k) =>
      var a := x.snd.link;
      k < |a.log| && a.log[k] < |a.line| && a.log[k] < 0x8000 && |a.line[a.log[k]].data| <= DATA_MAX
    case Acknowledgement(id) => id < 0x8000
  }

  predicate AllFitting(x: Session, items: seq<Item>) {
    items != [] ==> Fitting(x, items[0]) && AllFitting(x, items[1..])
  }

  function FrameOf(x: Session, i: Item): (f: Frame)
    requires Fitting(x, i)
    ensures Sealed(f)
  {
    match i
    case Data(k) => DataFrame(x.snd.link.log[k], x.snd.link.line[x.snd.link.log[k]].data)
    case Acknowledgement(id) => AckFrame(id)
  }

  ghost function FramesOf(x: Session, items: seq<Item>): (fs: seq<Frame>)
    requires AllFitting(x, items)
    ensures AllSealed(fs)
  {
    if items == [] then []
    else
      var f, fs := FrameOf(x, items[0]), FramesOf(x, items[1..]);
      SealedInFront(f, fs);
      [f] + fs
  }

  lemma SealedInFront(f: Frame, fs: seq<Frame>)
    requires Sealed(f) && AllSealed(fs)
    ensures AllSealed([f] + fs)
  {
  }

  /** In short sessions everything that is transmitted fits. */
  lemma {:induction false} TransmittedFits(x: Session, y: Session, items: seq<Item>)
    requires Short(x) && Short(y) && AllTransmitted(x, y, items)
    ensures AllFitting(x, items)
  {
    if items != [] {
      hide Short;
      match items[0] {
        case Data(k) => DataFits(x, k);
        case Acknowledgement(id) => AckFits(y, id);
      }
      TransmittedFits(x, y, items[1..]);
    }
  }

  /** The sessions once the frame has come in. */
  function Arrived(x: Session, y: Session, i: Item): (Session, Session)
    requires Sound(x) && Sound(y)
  {
    match i
    case Data(k) => (Step(x, DataArrives(k)), y)
    case Acknowledgement(id) => (x, Step(y, AckArrives(id)))
  }

  function AllArrived(x: Session, y: Session, items: seq<Item>): (r: (Session, Session))
    requires Sound(x) && Sound(y)
    ensures Sound(r.0) && Sound(r.1)
    decreases |items|
  {
    if items == [] then (x, y)
    else
      ArrivalKeepsSound(x, y, items[0]);
      var r := Arrived(x, y, items[0]);
      AllArrived(r.0, r.1, items[1..])
  }

  lemma ArrivalKeepsSound(x: Session, y: Session, i: Item)
    requires Sound(x) && Sound(y)
    ensures Sound(Arrived(x, y, i).0) && Sound(Arrived(x, y, i).1)
  {
    hide Sound, Step;
    match i
    case Data(k) => StepKeepsSound(x, DataArrives(k));
    case Acknowledgement(id) => StepKeepsSound(y, AckArrives(id));
  }

  /** `h` receives in session `x` and sends in session `y`. */
  ghost predicate Stands(h: Host, x: Session, y: Session) {
    && h.rcv == x.rcv && h.snd == y.snd && !h.down && Quiescent(h.snd.link, h.snd.sched)
    && forall id :: id in x.acks <==> id in h.acked
  }

  /**
   From the sessions' logs to the endpoint: any frames that were ever transmitted to it, data and
   acknowledgements mixed, in any order and any number, encoded, cut up anyhow on the way in, decoded
   piece by piece, parsed chunk by chunk and dispatched, do in the endpoint what their arrivals do in
   the two sessions, and leave nothing behind.
   */
  lemma LineCarriesBothSessions(h: Host, x: Session, y: Session, items: seq<Item>,
                                c: Coding, e: Ear, pieces: seq<bytes>)
    requires Short(x) && Short(y) && AllTransmitted(x, y, items) && Stands(h, x, y)
    requires Works(c) && Ready(c, e)
    ensures Quiescent(h.snd.link, h.snd.sched) && AllFitting(x, items)
    ensures Concat(pieces) == OnLine(c, FramesOf(x, items)) ==>
      var r := AllArrived(x, y, items); Stands(DispatchAll(h, FoundInAll(c, e, Coming(pieces))), r.0, r.1)
    ensures Concat(pieces) == OnLine(c, FramesOf(x, items)) ==>
      Ready(c, HearAll(c, e, Coming(pieces)))
  {
    hide Sound, Quiescent, Stands, Works, Ready, OnLine, FoundInAll, HearAll, DispatchAll, AllArrived;
    StillUp(h, x, y);
    TransmittedFits(x, y, items);
    if Concat(pieces) == OnLine(c, FramesOf(x, items)) {
      GoodFramesAreFound(c, e, FramesOf(x, items), pieces);
      DispatchesAreArrivals(h, x, y, items);
    }
  }

  lemma {:induction false} DispatchesAreArrivals(h: Host, x: Session, y: Session, items: seq<Item>)
    requires Sound(x) && Sound(y) && AllTransmitted(x, y, items) && AllFitting(x, items) && Stands(h, x, y)
    ensures var r := AllArrived(x, y, items); Stands(DispatchAll(h, FramesOf(x, items)), r.0, r.1)
    decreases |items|
  {
    if items != [] {
      hide Sound, Quiescent, Dispatch, Arrived, Transmitted, Fitting, FrameOf, Stands;
      DispatchIsArrival(h, x, y, items[0]);
      ArrivalIsOneSided(x, y, items[0]);
      var r := Arrived(x, y, items[0]);
      SameFrames(x, y, r.0, r.1, items[1..]);
      var h' := Dispatch(h, FrameOf(x, items[0]));
      DispatchesAreArrivals(h', r.0, r.1, items[1..]);
      DispatchFirst(h, FrameOf(x, items[0]), FramesOf(x, items[1..]));
      StillUp(h, x, y);
    }
  }

  /** Dispatching the frame is its arrival. */
  lemma DispatchIsArrival(h: Host, x: Session, y: Session, i: Item)
    requires Sound(x) && Sound(y) && Transmitted(x, y, i) && Fitting(x, i) && Stands(h, x, y)
    ensures var r := Arrived(x, y, i); Stands(Dispatch(h, FrameOf(x, i)), r.0, r.1)
  {
    hide Sound, Quiescent, Accept, Seal, WireOrder.Step;
    match i
    case Data(k) => DataStep(x, k);
    case Acknowledgement(id) =>
      AckStep(y, id);
      WireOrder.StepKeepsQuiescent(y.snd, WireOrder.AckEvent(id));
  }

  lemma DataStep(x: Session, k: nat)
    requires Sound(x) && k < |x.snd.link.log|
    ensures x.snd.link.log[k] < |x.snd.link.line|
    ensures Step(x, DataArrives(k)) == Take(x, x.snd.link.log[k])
  {
    assert x.snd.link.log[k] in x.snd.link.log;
  }

  /** An arrival changes neither what the incoming session has sent nor what the outgoing one has acknowledged. */
  lemma ArrivalIsOneSided(x: Session, y: Session, i: Item)
    requires Sound(x) && Sound(y) && Transmitted(x, y, i)
    ensures var r := Arrived(x, y, i); Sound(r.0) && Sound(r.1) && r.0.snd == x.snd && r.1.rcv == y.rcv && r.1.acks == y.acks
  {
    hide Sound, Accept, WireOrder.Step, Quiescent;
    ArrivalKeepsSound(x, y, i);
    match i
    case Data(k) => DataStep(x, k);
    case Acknowledgement(id) => AckStep(y, id);
  }

  lemma {:induction false} SameFrames(x: Session, y: Session, x': Session, y': Session, items: seq<Item>)
    requires x'.snd == x.snd && y'.acks == y.acks && AllTransmitted(x, y, items) && AllFitting(x, items)
    ensures AllTransmitted(x', y', items) && AllFitting(x', items) && FramesOf(x', items) == FramesOf(x, items)
    decreases |items|
  {
    if items != [] {
      hide Seal;
      SameFrames(x, y, x', y', items[1..]);
    }
  }

  lemma DispatchFirst(h: Host, f: Frame, fs: seq<Frame>)
    requires Quiescent(h.snd.link, h.snd.sched) && !h.down
    requires Quiescent(Dispatch(h, f).snd.link, Dispatch(h, f).snd.sched)
    ensures DispatchAll(h, [f] + fs) == DispatchAll(Dispatch(h, f), fs)
  {
    hide Quiescent, Dispatch;
    assert ([f] + fs)[1..] == fs;
  }

  lemma StillUp(h: Host, x: Session, y: Session)
    requires Stands(h, x, y)
    ensures !h.down && Quiescent(h.snd.link, h.snd.sched)
  {
  }
}
