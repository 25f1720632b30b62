/**
 One end of the link as packet.c and tshost.c run it: characters from the line go through the decoder
 and the frame parser, and every good frame is dispatched to the sender or the receiver.  Three timers
 send again what is unacknowledged, forget part of a frame, and end the flushing of the input; every
 method keeps them running exactly while they are needed.
 */
module LinkEndpoint {
  import opened Bytes
  import Crc
  import opened Frames
  import opened Scheduler
  import opened SchedulerSteps
  import opened LinkSender
  import opened LinkReceiver
  import opened Timers
  import opened Reception
  import opened LineReader
  import WireOrder

  const PT_NAK := 2
  const PT_SHUTDOWN := 3

  /** An endpoint's state on values; `acked` lists the ids of the acknowledgements it transmitted. */
  datatype Host = Host(snd: WireOrder.State, rcv: Inbox, acked: seq<nat>, down: bool)

  /** What ProcessData does with one good frame. */
  function Dispatch(h: Host, f: Frame): Host
    requires Quiescent(h.snd.link, h.snd.sched)
  {
    if f.kind == PT_DATA then h.(rcv := Accept(h.rcv, f.id, f.data), acked := h.acked + [f.id])
    else if f.kind == PT_ACK then h.(snd := WireOrder.Step(h.snd, WireOrder.AckEvent(f.id)))
    else if f.kind == PT_SHUTDOWN then h.(down := true)
    else h
  }

  /** The frames one after the other; after a shutdown frame the host exits. */
  function DispatchAll(h: Host, fs: seq<Frame>): (r: Host)
    requires Quiescent(h.snd.link, h.snd.sched)
    ensures Quiescent(r.snd.link, r.snd.sched)
    decreases |fs|
  {
    if fs == [] || h.down then h
    else
      if fs[0].kind == PT_ACK then
        WireOrder.StepKeepsQuiescent(h.snd, WireOrder.AckEvent(fs[0].id));
        DispatchAll(Dispatch(h, fs[0]), fs[1..])
      else DispatchAll(Dispatch(h, fs[0]), fs[1..])
  }

  /**
   A shutdown frame, of type 3, ends the program where it stands among the others: those before it are
   dispatched, those behind it are not.  No other frame does.
   */
  lemma {:induction false} ShutdownEndsIt(h: Host, fs: seq<Frame>, f: Frame, more: seq<Frame>)
    requires Quiescent(h.snd.link, h.snd.sched) && !h.down && forall g <- fs :: g.kind != 3
    ensures !DispatchAll(h, fs).down
    ensures f.kind == 3 ==> DispatchAll(h, fs + [f] + more) == DispatchAll(h, fs).(down := true)
    decreases |fs|
  {
    hide Quiescent, WireOrder.Step, Accept;
    if fs == [] {
      assert fs + [f] + more == [f] + more && ([f] + more)[1..] == more;
    } else {
      var h' := Dispatch(h, fs[0]);
      if fs[0].kind == PT_ACK { WireOrder.StepKeepsQuiescent(h.snd, WireOrder.AckEvent(fs[0].id)); }
      assert (fs + [f] + more)[1..] == fs[1..] + [f] + more;
      ShutdownEndsIt(h', fs[1..], f, more);
    }
  }

  class Endpoint {
    const timers: HostTimers
    const sender: Sender
    const receiver: Receiver
    const parser: FrameParser
    const reader: Reader
    /** The acknowledgements handed to TransmitData. */
    var acks: seq<Frame>
    /** bFlushing: what comes in is thrown away. */
    var flushing: bool
    var down: bool
    ghost var acked: seq<nat>

    ghost function Abs(): Host
      reads this, sender, receiver
    {
      Host(WireOrder.State(sender.Abs(), sender.sched), receiver.Abs(), acked, down)
    }

    /** What module Reception knows of the endpoint. */
    ghost function Listens(): Ear
      reads this, parser, reader, reader.rotating, reader.escapes
      requires reader.Valid()
    {
      Ear(reader.Partial(), reader.Escaping(), parser.pkt, flushing)
    }

    /** What holds in the middle of ProcessData too. */
    ghost predicate Sound()
      reads this, sender, receiver, parser, timers, timers.expiry
    {
      && sender.timers == timers && timers.Valid()
      && sender.Valid() && receiver.Valid() && parser.Valid()
      && Total(sender.Abs()) < 0x8000
      && |acks| == |acked|
      && forall i :: 0 <= i < |acks| ==> acked[i] < 0x8000 && acks[i] == AckFrame(acked[i])
    }

    /** The receive timer runs while part of a frame has come in, the flush timer while input is thrown away. */
    ghost predicate Timed()
      reads this, parser, timers
    {
      && (timers.Runs(TIMER_ID_RECEIVE) <==> parser.pkt != [])
      && (timers.Runs(TIMER_ID_FLUSH) <==> flushing)
      && (flushing ==> parser.pkt == [])
    }

    /**
     Each timer runs exactly while it is needed: the send timer, by sender.Valid(), while something is
     unacknowledged, the other two as in Timed().
     */
    ghost predicate Valid()
      reads this, sender, receiver, parser, timers, timers.expiry, reader, reader.rotating, reader.escapes
    {
      Sound() && Timed() && reader.Valid() && Possible(Listens())
    }

    constructor (c: Coding)
      ensures Valid() && fresh(sender) && fresh(receiver) && fresh(parser) && fresh(timers) && fresh(timers.expiry)
      ensures reader.coding == c && reader.CtlX() == 0
      ensures Abs() == Host(WireOrder.START, EMPTY, [], false) && Listens() == IDLE
    {
      hide Sender.Valid, Receiver.Valid, FrameParser.Valid, HostTimers.Valid, HostTimers.Runs, Reader.Valid,
           Total, AckFrame, Incomplete;
      var clockwork := new HostTimers();
      timers := clockwork;
      sender := new Sender(clockwork);
      receiver := new Receiver();
      parser := new FrameParser();
      reader := new Reader(c);
      acks, acked, flushing, down := [], [], false, false;
      new;
      NothingYetTotal();
    }

    method TransmitAck(id: nat)
      requires id < 0x8000 && Sound()
      modifies `acks, `acked
      ensures Sound() && acked == old(acked) + [id]
    {
      hide Quiescent, Seal, Total;
      var pkt := Frame(id, 0, PT_ACK, []);
      pkt := pkt.(crc := Crc.Checksum(Encode(pkt)));
      AckIsSealed(id, pkt);
      acks := acks + [pkt];
      acked := acked + [id];
    }

    /** The switch of ProcessData. */
    method DispatchFrame(f: Frame)
      requires Sound() && f.id < 0x8000
      modifies this, sender, receiver, timers, timers.expiry
      ensures Sound() && flushing == old(flushing) && timers.Others() == old(timers.Others())
      ensures Abs() == Dispatch(old(Abs()), f)
    {
      hide Sender.Valid, Receiver.Valid, FrameParser.Valid, HostTimers.Valid, HostTimers.Others,
           Quiescent, Shape, Total, AckFrame, Ids, WireOrder.Step;
      sender.IsQuiescent();
      AckKeepsTotal(sender.Abs(), f.id);
      StepIs(WireOrder.State(sender.Abs(), sender.sched), WireOrder.AckEvent(f.id));
      if f.kind == PT_DATA {
        TransmitAck(f.id);
        if receiver.nInSeq - f.id <= 0 {
          receiver.InsertIntoIncoming(f.id, f.data);
        }
      } else if f.kind == PT_NAK {
        // With a packet in the list the window is full, and TransmitHead does nothing.
        sender.NakReceived(f.id);
      } else if f.kind == PT_ACK {
        sender.AckReceived(f.id);
      } else if f.kind == PT_SHUTDOWN {
        down := true;
      }
    }

    method DispatchFrames(all: seq<Frame>)
      requires Sound() && forall f <- all :: f.id < 0x8000
      modifies this, sender, receiver, timers, timers.expiry
      ensures Sound() && flushing == old(flushing) && timers.Others() == old(timers.Others())
      ensures Quiescent(old(Abs()).snd.link, old(Abs()).snd.sched) && Abs() == DispatchAll(old(Abs()), all)
    {
      hide Sender.Valid, Receiver.Valid, FrameParser.Valid, HostTimers.Valid, HostTimers.Others,
           Quiescent, Total, AckFrame, Dispatch;
      sender.IsQuiescent();
      var frames := all;
      while frames != [] && !down
        invariant Sound() && flushing == old(flushing) && timers.Others() == old(timers.Others())
        invariant forall f <- frames :: f.id < 0x8000
        invariant Quiescent(sender.Abs(), sender.sched)
        invariant DispatchAll(Abs(), frames) == DispatchAll(old(Abs()), all)
        decreases |frames|
      {
        DispatchFrame(frames[0]);
        sender.IsQuiescent();
        frames := frames[1..];
      }
    }

    /** The sender does not mind what happens to the other two timers. */
    method KillTimer(id: nat)
      requires Sound() && (id == TIMER_ID_RECEIVE || id == TIMER_ID_FLUSH)
      modifies timers
      ensures Sound()
      ensures forall i: nat :: i < TIMERS ==> (timers.Runs(i) <==> i != id && old(timers.Runs(i)))
    {
      hide Sender.Settled, Sender.Valid, HostTimers.Valid, HostTimers.Runs, Total, AckFrame;
      sender.ValidIs();
      timers.KillTimer(id);
      sender.ValidIs();
    }

    /** Both are set for a second and a half. */
    method SetTimer(id: nat)
      requires Sound() && (id == TIMER_ID_RECEIVE || id == TIMER_ID_FLUSH)
      modifies timers, timers.expiry
      ensures Sound() && timers.Sane() && DueIn1500(id)
      ensures forall i: nat :: i < TIMERS ==> (timers.Runs(i) <==> i == id || old(timers.Runs(i)))
      ensures forall i: nat :: i < TIMERS && i != id ==> timers.expiry[i] == old(timers.expiry[i])
      ensures |timers.readings| == old(|timers.readings|) + 1
      ensures forall i: nat :: i < TIMERS && i != id ==> timers.since[i] == old(timers.since[i])
    {
      hide Sender.Settled, Sender.Valid, HostTimers.Valid, HostTimers.Runs, Total, AckFrame;
      sender.ValidIs();
      timers.IsSane();
      var now := timers.GetTimeOfDay();
      timers.SetTimer(id, 1500, now);
      sender.ValidIs();
    }

    /** Counted from when the clock was last read. */
    ghost predicate DueIn1500(id: nat)
      requires id < timers.expiry.Length && timers.readings != []
      reads timers, timers.expiry
    {
      Micros(timers.expiry[id]) == Micros(timers.Shown()) + 1_500_000
    }

    /** The timer that waits for more input has just been set. */
    ghost predicate Waits()
      requires timers.Sane()
      reads this, parser, timers, timers.expiry
    {
      (flushing ==> DueIn1500(TIMER_ID_FLUSH)) && (parser.pkt != [] ==> DueIn1500(TIMER_ID_RECEIVE))
    }

    /** What comes in is thrown away until nothing has come in for a while. */
    method FlushInput()
      requires Sound()
      modifies `flushing, timers, timers.expiry
      ensures Sound() && flushing && timers.Runs(TIMER_ID_FLUSH) && timers.Sane() && DueIn1500(TIMER_ID_FLUSH)
      ensures timers.Runs(TIMER_ID_RECEIVE) == old(timers.Runs(TIMER_ID_RECEIVE))
      ensures |timers.readings| == old(|timers.readings|) + 1
      ensures timers.since[TIMER_ID_SEND] == old(timers.since[TIMER_ID_SEND])
    {
      hide Sender.Valid, HostTimers.Valid, HostTimers.Runs, Total, AckFrame;
      timers.IsSane();
      flushing := true;
      SetTimer(TIMER_ID_FLUSH);
    }

    /**
     ProcessData, once PacketReceiveData has stopped the receive timer and decoded the input.  Every
     frame in it is dispatched; the receive timer is set if part of one is left, and a bad frame starts
     the flushing of the input and, just before, the send timer anew if packets wait.
     */
    method ProcessData(data: bytes)
      requires Sound() && !flushing && !timers.Runs(TIMER_ID_RECEIVE) && !timers.Runs(TIMER_ID_FLUSH)
      requires forall f <- Parse(parser.pkt + data).frames :: f.id < 0x8000
      modifies this, sender, receiver, parser, timers, timers.expiry
      ensures Sound() && Timed()
      ensures var p := Parse(old(parser.pkt) + data);
        && Quiescent(old(Abs()).snd.link, old(Abs()).snd.sched)
        && Abs() == DispatchAll(old(Abs()), p.frames) && parser.pkt == p.rest && flushing == p.flushed
      ensures timers.Sane() && Waits()
      ensures flushing && sender.ppqList != [] ==> timers.since[TIMER_ID_SEND] == |timers.readings| - 2
    {
      hide Sender.Valid, Receiver.Valid, HostTimers.Valid, HostTimers.Runs,
           Quiescent, Total, AckFrame, Dispatch, Parse, Incomplete;
      var frames, flushed := parser.ProcessData(data);
      DispatchFrames(frames);
      if flushed {
        sender.RestartTimer();
        FlushInput();
        BadLeavesNothing(old(parser.pkt) + data);
      } else if |parser.pkt| > 0 {
        SetTimer(TIMER_ID_RECEIVE);
      }
      timers.IsSane();
    }

    /** Good frames have a good id. */
    ghost predicate FewFrames(data: bytes)
      reads this, parser, reader, reader.rotating, reader.escapes
      requires reader.Valid() && Possible(Listens())
    {
      forall f <- Found(reader.coding, Listens(), Comes(data)) :: f.id < 0x8000
    }

    /**
     PacketReceiveData.  Five CANs in a row, now or counting the last ones before, end the program;
     otherwise the frames are those that Reception finds, and what is pending is what it says.
     */
    method PacketReceiveData(data: bytes)
      requires Valid() && !flushing && FewFrames(data)
      modifies this, sender, receiver, parser, timers, timers.expiry, reader.rotating, reader.escapes
      ensures Valid() && Quiescent(old(Abs()).snd.link, old(Abs()).snd.sched)
      ensures reader.CtlX() == CountAll(Cans(old(reader.CtlX()), false), data).run
      ensures if CountAll(Cans(old(reader.CtlX()), false), data).five then Abs() == old(Abs()).(down := true)
        else
          && Abs() == DispatchAll(old(Abs()), Found(reader.coding, old(Listens()), Comes(data)))
          && Listens() == Hear(reader.coding, old(Listens()), Comes(data))
          && timers.Sane() && Waits()
    {
      hide Sender.Valid, Receiver.Valid, FrameParser.Valid, HostTimers.Valid, HostTimers.Runs, Reader.Valid,
           Quiescent, Total, AckFrame, Dispatch, Parse, Incomplete, Decoded, AfterDecoding, Count, CountAll;
      sender.IsQuiescent();
      // The receive timer is stopped before decoding; where the program ends it does not matter any more.
      var decoded, exits := reader.PacketReceiveData(data, Listens());
      if exits {
        down := true;
      } else {
        KillTimer(TIMER_ID_RECEIVE);
        ProcessData(decoded);
        timers.IsSane();
      }
    }

    /** The host's main loop, when something has come in. */
    method InputArrives(data: bytes)
      requires Valid() && FewFrames(data)
      modifies this, sender, receiver, parser, timers, timers.expiry, reader.rotating, reader.escapes
      ensures Valid() && Quiescent(old(Abs()).snd.link, old(Abs()).snd.sched)
      ensures if !old(flushing) && CountAll(Cans(old(reader.CtlX()), false), data).five then
          Abs() == old(Abs()).(down := true)
        else
          && Abs() == DispatchAll(old(Abs()), Found(reader.coding, old(Listens()), Comes(data)))
          && Listens() == Hear(reader.coding, old(Listens()), Comes(data))
          && timers.Sane() && Waits()
    {
      hide Sender.Valid, Receiver.Valid, FrameParser.Valid, HostTimers.Valid, HostTimers.Runs, Reader.Valid,
           Quiescent, Total, AckFrame, Dispatch, Parse, Incomplete, CountAll;
      sender.IsQuiescent();
      if flushing {
        FlushInput();
        timers.IsSane();
      } else {
        PacketReceiveData(data);
      }
    }

    /** KillTimer and FireTimer for one timer that is due. */
    method FireTimer(id: nat)
      requires Valid() && id < TIMERS && timers.Runs(id)
      modifies this, sender, parser, timers, timers.expiry, reader.rotating, reader.escapes
      ensures Valid() && Quiescent(old(Abs()).snd.link, old(Abs()).snd.sched)
      ensures Abs() == if id == TIMER_ID_SEND then TimedOut(old(Abs())) else old(Abs())
      ensures Listens() == Fired(reader.coding, old(Listens()), id)
      ensures forall i: nat :: i < TIMERS && i != id ==>
        timers.Runs(i) == old(timers.Runs(i)) && timers.expiry[i] == old(timers.expiry[i])
    {
      hide Sender.Valid, Receiver.Valid, FrameParser.Valid, HostTimers.Valid, HostTimers.Runs, Reader.Valid,
           Quiescent, Total, AckFrame, Incomplete, Parse, Decoded, AfterDecoding;
      sender.IsQuiescent();
      if id == TIMER_ID_SEND {
        TimeoutKeepsTotal(sender.Abs());
        sender.SendTimerFires();
      } else {
        KillTimer(id);
        if id == TIMER_ID_RECEIVE {
          parser.ReceiveTimeout();
          reader.ReceiveTimeout();
        } else {
          flushing := false;
        }
      }
    }

    /** It is less than ten seconds since the send timer was set, and less than 1500 ms for the other two. */
    ghost predicate Early(now: Time)
      requires timers.Sane()
      reads timers, timers.expiry
    {
      forall i: nat :: i < TIMERS && timers.Runs(i) ==>
        Micros(now) < Micros(timers.readings[timers.since[i]]) + if i == TIMER_ID_SEND then 10_000_000 else 1_500_000
    }

    lemma NothingDue(now: Time)
      requires timers.Valid() && OnClock(now)
      ensures Early(now) ==> forall i: nat :: i < TIMERS ==> !timers.Due(i, now)
    {
      timers.DueWhen(now);
    }

    /**
     CheckTimers.  The timers that are due stop and fire, in order, and no others: what is unacknowledged
     is sent again, a partial frame is forgotten, the flushing of the input ends.
     */
    method CheckTimers(now: Time) returns (fired: seq<nat>)
      requires Valid() && OnClock(now)
      modifies this, sender, parser, timers, timers.expiry, reader.rotating, reader.escapes
      ensures Valid() && Quiescent(old(Abs()).snd.link, old(Abs()).snd.sched)
      ensures forall i: nat :: i in fired <==> i < TIMERS && old(timers.Due(i, now))
      ensures forall i: nat :: i in fired ==> old(timers.Runs(i)) && old(Micros(timers.expiry[i])) <= Micros(now)
      ensures forall i: nat :: i < TIMERS && old(timers.Runs(i)) && old(Micros(timers.expiry[i])) < Micros(now) ==>
        i in fired
      ensures forall i: nat :: i < TIMERS && i !in fired ==>
        timers.Runs(i) == old(timers.Runs(i)) && timers.expiry[i] == old(timers.expiry[i])
      ensures old(Early(now)) ==> fired == [] && Abs() == old(Abs()) && Listens() == old(Listens())
      ensures Abs() == if TIMER_ID_SEND in fired then TimedOut(old(Abs())) else old(Abs())
      ensures Listens() == AllFired(reader.coding, old(Listens()), fired)
      ensures old((timers.Runs(TIMER_ID_RECEIVE) ==> timers.Due(TIMER_ID_RECEIVE, now))
                  && (timers.Runs(TIMER_ID_FLUSH) ==> timers.Due(TIMER_ID_FLUSH, now))) ==>
        Listens() == Quiet(reader.coding, old(Listens()))
    {
      hide Sender.Valid, Receiver.Valid, HostTimers.Valid, HostTimers.Runs, Reader.Valid,
           Quiescent, Sound, Timed, TimedOut, Before, Hear, Possible, AllFired, Quiet;
      fired := [];
      IsSound();
      ghost var e := Listens();
      NoneFired(reader.coding, e);
      timers.IsSane();
      timers.DueWhen(now);
      NothingDue(now);
      for i := 0 to TIMERS
        invariant Valid() && timers.expiry.Length == TIMERS
        invariant forall j: nat :: j < i && j !in fired ==>
          timers.Runs(j) == old(timers.Runs(j)) && timers.expiry[j] == old(timers.expiry[j])
        invariant forall j: nat :: j in fired <==> j < i && old(timers.Due(j, now))
        invariant Abs() == if TIMER_ID_SEND in fired then TimedOut(old(Abs())) else old(Abs())
        invariant Listens() == AllFired(reader.coding, old(Listens()), fired)
        invariant forall j: nat :: i <= j < TIMERS ==>
          timers.Runs(j) == old(timers.Runs(j)) && timers.expiry[j] == old(timers.expiry[j])
      {
        if timers.Due(i, now) {
          FireTimer(i);
          FiredNext(reader.coding, e, fired, i);
          fired := fired + [i];
        }
      }
      AllFiredIs(reader.coding, e, fired);
      assert fired != [] ==> fired[0] in fired;
    }

    /** No stall, and no timer that runs for nothing. */
    lemma TimersRunExactlyWhileNeeded()
      requires Valid()
      ensures timers.Runs(TIMER_ID_SEND) <==> sender.ppqSent != []
      ensures timers.Runs(TIMER_ID_RECEIVE) <==> parser.pkt != []
      ensures timers.Runs(TIMER_ID_FLUSH) <==> flushing
      ensures !(timers.Runs(TIMER_ID_RECEIVE) && timers.Runs(TIMER_ID_FLUSH))
    {
      sender.ValidIs();
    }

    /** A message from the host's programs. */
    method PacketTransmitData(data: bytes, s: Stream)
      requires Valid() && Total(sender.Abs()) + Pieces(data) < 0x8000
      modifies sender, timers, timers.expiry
      ensures Valid() && Quiescent(old(Abs()).snd.link, old(Abs()).snd.sched)
      ensures Abs() == old(Abs()).(snd := WireOrder.Step(old(Abs()).snd, WireOrder.PutEvent(Message(s, data))))
    {
      hide Sender.Valid, Receiver.Valid, FrameParser.Valid, HostTimers.Valid, Quiescent, Total, AckFrame, Put, Ids;
      sender.IsQuiescent();
      PutTotal(sender.Abs(), Message(s, data));
      StepIs(WireOrder.State(sender.Abs(), sender.sched), WireOrder.PutEvent(Message(s, data)));
      sender.PacketTransmitData(data, s);
    }

    /** The held messages of a stream that is closed are dropped. */
    method FlushStream(s: int)
      requires Valid() && Ordinary(s)
      modifies sender
      ensures Valid() && Quiescent(old(Abs()).snd.link, old(Abs()).snd.sched)
      ensures Abs() == old(Abs()).(snd := WireOrder.Step(old(Abs()).snd, WireOrder.FlushEvent(s)))
    {
      hide Sender.Valid, Receiver.Valid, FrameParser.Valid, HostTimers.Valid, Quiescent, Total, AckFrame, Flush;
      sender.IsQuiescent();
      FlushShrinksTotal(sender.Abs(), s);
      StepIs(WireOrder.State(sender.Abs(), sender.sched), WireOrder.FlushEvent(s));
      sender.FlushStream(s);
    }

    lemma IsSound()
      requires Valid()
      ensures Quiescent(Abs().snd.link, Abs().snd.sched) && timers.Valid() && timers.expiry.Length == TIMERS
      ensures timers.Runs(TIMER_ID_RECEIVE) <==> Listens().rest != []
      ensures timers.Runs(TIMER_ID_FLUSH) <==> Listens().flushing
    {
      sender.IsQuiescent();
    }
  }

  /** What the send timer's handler does to the host. */
  function TimedOut(h: Host): Host
    requires Quiescent(h.snd.link, h.snd.sched)
  {
    h.(snd := WireOrder.Step(h.snd, WireOrder.TimeoutEvent))
  }

  /** What a timer's handler does to what is being received. */
  function Fired(c: Coding, e: Ear, id: nat): (e': Ear)
    requires Possible(e)
    ensures Possible(e')
  {
    if id == TIMER_ID_RECEIVE then Hear(c, e, ReceiveTimer)
    else if id == TIMER_ID_FLUSH then Hear(c, e, FlushTimer)
    else e
  }

  function AllFired(c: Coding, e: Ear, ids: seq<nat>): (e': Ear)
    requires Possible(e)
    ensures Possible(e')
  {
    if ids == [] then e else Fired(c, AllFired(c, e, ids[..|ids| - 1]), ids[|ids| - 1])
  }

  lemma FiredNext(c: Coding, e: Ear, ids: seq<nat>, id: nat)
    requires Possible(e)
    ensures AllFired(c, e, ids + [id]) == Fired(c, AllFired(c, e, ids), id)
  {
    assert (ids + [id])[..|ids|] == ids;
  }

  lemma NoneFired(c: Coding, e: Ear)
    requires Possible(e)
    ensures AllFired(c, e, []) == e
  {
  }

  /** The order is no matter, and if every timer that runs fires all is quiet. */
  lemma {:induction false} AllFiredIs(c: Coding, e: Ear, ids: seq<nat>)
    requires Possible(e)
    ensures AllFired(c, e, ids) ==
      if TIMER_ID_RECEIVE in ids && e.rest != [] then IDLE
      else if TIMER_ID_FLUSH in ids then e.(flushing := false) else e
    ensures (e.rest != [] ==> TIMER_ID_RECEIVE in ids) && (e.flushing ==> TIMER_ID_FLUSH in ids) ==>
      AllFired(c, e, ids) == Quiet(c, e)
  {
    if ids != [] {
      hide Parse, Decoded, AfterDecoding, Incomplete;
      AllFiredIs(c, e, ids[..|ids| - 1]);
      assert ids == ids[..|ids| - 1] + [ids[|ids| - 1]];
    }
  }

  lemma TimeoutKeepsTotal(a: Link)
    ensures Total(Timeout(a)) == Total(a)
  {
  }

  lemma FlushShrinksTotal(a: Link, s: int)
    requires Shape(a) && Ordinary(s)
    ensures Total(Flush(a, s)) <= Total(a)
  {
    HeldAfterUpdate(a.held, s, [], 254);
  }

  /** What the sender's steps are. */
  lemma StepIs(x: WireOrder.State, e: WireOrder.Event)
    requires Quiescent(x.link, x.sched)
    ensures Shape(x.link) && forall s :: Ordinary(s) ==> s in x.sched.held
    ensures WireOrder.Step(x, e) ==
      match e
      case PutEvent(m) => WireOrder.State(Put(x.link, m), PutMessage(x.link, x.sched, m))
      case AckEvent(id) => WireOrder.State(Ack(x.link, id), AckMessage(x.link, x.sched, id))
      case TimeoutEvent => WireOrder.State(Timeout(x.link), x.sched)
      case FlushEvent(s) =>
        if Ordinary(s) then WireOrder.State(Flush(x.link, s), FlushMessages(x.sched, s)) else x
  {
  }

  lemma NothingYetTotal()
    ensures Total(INITIAL) == 0
  {
    NothingHeld(254);
  }

  lemma {:induction false} NothingHeld(s: int)
    requires s <= 254
    ensures HeldUpTo(INITIAL.held, s) == 0
    decreases s + 1
  {
    if s >= -1 { NothingHeld(s - 1); }
  }

  lemma AckIsSealed(id: nat, pkt: Frame)
    requires id < 0x8000
    requires pkt == Frame(id, Crc.Checksum(Encode(Frame(id, 0, PT_ACK, []))), PT_ACK, [])
    ensures pkt == AckFrame(id)
  {
  }
}
