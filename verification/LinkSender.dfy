/**
 The sending half of packet.c as it is written: linked queues, counters and stream bits updated in
 place by mutually recursive procedures.  Every method is proved to do what module Scheduler says.
 A queue is a sequence of entries here, head first; InitHead gives the head of ppqList its id, and a
 packet moves from the streams' queues to ppqList and from there to ppqSent, where it stays until it
 is acknowledged.
 */
module LinkSender {
  import opened Bytes
  import opened Frames
  import opened Scheduler
  import opened SchedulerSteps
  import opened Timers

  /** struct packet_queue.  The id and the packet's id field mean nothing before InitHead. */
  datatype Entry = Entry(idPacket: int, stream: Stream, leader: bool, trailer: bool, pkt: Frame)

  function Content(e: Entry): Packet { Packet(e.stream, e.leader, e.trailer, e.pkt.data) }

  /** An entry as SendPacket leaves it: the checksum field is still zero. */
  ghost predicate Fresh(e: Entry, p: Packet) {
    Content(e) == p && e.pkt.crc == 0 && e.pkt.kind == PT_DATA && |e.pkt.data| <= PACKET_MAX
  }

  /** An entry after InitHead ran on it, exactly once. */
  ghost predicate Ready(e: Entry, p: Packet, id: nat) {
    id < 0x8000 && |p.data| <= DATA_MAX && Content(e) == p && e.idPacket == id && e.pkt == DataFrame(id, p.data)
  }

  ghost predicate AllFresh(es: seq<Entry>, ps: seq<Packet>) {
    |es| == |ps| && forall i :: 0 <= i < |es| ==> Fresh(es[i], ps[i])
  }

  class Sender {
    const timers: HostTimers
    var ppqList: seq<Entry>
    var ppqSent: seq<Entry>
    var nSent: int
    var nOutSeq: int
    var appqStreams: map<int, seq<Entry>>
    var aiStreams: set<int>
    /** Every frame handed to TransmitData. */
    var wire: seq<Frame>

    // The state of module Scheduler that the queues stand for.
    ghost var line: seq<Packet>
    ghost var popped: nat
    ghost var inflight: seq<nat>
    ghost var held: map<int, seq<Packet>>
    ghost var log: seq<nat>
    ghost var sched: Schedule

    ghost function Abs(): Link
      reads `line, `popped, `inflight, `held, `aiStreams, `log
    {
      Link(line, popped, inflight, held, aiStreams, log)
    }

    /** The list and the hold-back queues; `inited` tells whether InitHead ran on the list's head. */
    ghost predicate Queues(inited: bool)
      reads `ppqList, `nOutSeq, `appqStreams, `line, `popped, `held
    {
      && popped <= |line|
      && |ppqList| == |line| - popped
      && (inited ==> ppqList != [] && Ready(ppqList[0], line[popped], popped))
      && (forall i :: (if inited then 1 else 0) <= i < |ppqList| ==> Fresh(ppqList[i], line[popped + i]))
      && nOutSeq == popped + (if inited then 1 else 0)
      && (forall s :: Ordinary(s) ==> s in held && s in appqStreams && AllFresh(appqStreams[s], held[s]))
    }

    ghost predicate Sent()
      reads `ppqSent, `nSent, `line, `inflight
    {
      && nSent == |ppqSent| == |inflight|
      && forall i :: 0 <= i < |ppqSent| ==> inflight[i] < |line| && Ready(ppqSent[i], line[inflight[i]], inflight[i])
    }

    ghost predicate Wire()
      reads `wire, `line, `log
    {
      && |wire| == |log|
      && forall i :: 0 <= i < |wire| ==>
           && log[i] < |line| && log[i] < 0x8000 && |line[log[i]].data| <= DATA_MAX
           && wire[i] == DataFrame(log[i], line[log[i]].data)
    }

    /** Holds between any two packets; the send timer runs exactly while something is unacknowledged. */
    ghost predicate Steady()
      reads `ppqList, `ppqSent, `nSent, `nOutSeq, `appqStreams, `aiStreams, `wire
      reads `line, `popped, `inflight, `held, `log, timers, timers.expiry
    {
      && Queues(ppqList != [])
      && Sent()
      && Wire()
      && Window(Abs())
      && timers.Valid() && (Armed() <==> ppqSent != [])
    }

    predicate Armed()
      reads timers
    {
      timers.Runs(TIMER_ID_SEND)
    }

    /** The send timer was set when the clock was last read, to ten seconds. */
    ghost predicate JustSet()
      requires timers.Sane()
      reads timers, timers.expiry
    {
      && timers.since[TIMER_ID_SEND] == |timers.readings| - 1
      && Micros(timers.expiry[TIMER_ID_SEND]) == Micros(timers.Shown()) + 10_000_000
    }

    /** Holds between any two messages. */
    ghost predicate Valid()
      reads this, timers, timers.expiry
    {
      Steady() && Quiescent(Abs(), sched)
    }

    /** All of it but the timer. */
    ghost predicate Settled()
      reads this
    {
      Queues(ppqList != []) && Sent() && Wire() && Window(Abs()) && Quiescent(Abs(), sched)
    }

    lemma ValidIs()
      ensures Valid() <==> Settled() && timers.Valid() && (Armed() <==> ppqSent != [])
    {
    }

    constructor (timers: HostTimers)
      requires timers.Valid() && !timers.Runs(TIMER_ID_SEND)
      ensures Valid() && this.timers == timers
      ensures Abs() == INITIAL && sched == NOTHING && wire == []
    {
      hide Quiescent, Window, Fresh, Ready, DataFrame;
      this.timers := timers;
      ppqList, ppqSent, nSent, nOutSeq := [], [], 0, 0;
      appqStreams := map s: int | -1 <= s <= 254 && Ordinary(s) :: [];
      aiStreams, wire := {}, [];
      line, popped, inflight, held, log := [], 0, [], INITIAL.held, [];
      sched := NOTHING;
      new;
      StartsQuiescent();
      StartsEmpty();
    }

    lemma Counts()
      requires Queues(ppqList != []) && Sent()
      ensures Shape(Abs()) && nSent == |ppqSent| == |inflight| && (ppqList != [] <==> Listed(Abs()))
    {
    }

    lemma IsQuiescent()
      requires Valid()
      ensures Quiescent(Abs(), sched) && Shape(Abs()) && Ids(Abs()) <= Total(Abs())
    {
    }

    lemma CountsIds()
      requires Queues(ppqList != [])
      ensures nOutSeq == Ids(Abs())
    {
    }

    /** The frame of packet `id` goes to TransmitData and the send timer is started afresh. */
    method TransmitPacket(e: Entry, ghost id: nat)
      requires Wire() && id < |line| && Ready(e, line[id], id) && timers.Valid()
      modifies `wire, `log, timers, timers.expiry
      ensures Wire() && Armed() && log == old(log) + [id]
      ensures timers.Valid() && timers.Others() == old(timers.Others())
      ensures timers.Sane() && JustSet()
    {
      hide HostTimers.Valid, HostTimers.Others, HostTimers.Runs;
      wire := wire + [e.pkt];
      log := log + [id];
      timers.SetTransmitTimeout();
      timers.IsSane();
    }

    method InitHead()
      requires Queues(false) && ppqList != [] && nOutSeq < 0x8000
      modifies `ppqList, `nOutSeq
      ensures Queues(true)
    {
      var head := ppqList[0];
      var pkt := head.pkt.(id := nOutSeq);
      pkt := pkt.(crc := Crc.Checksum(Encode(pkt)));
      ppqList := ppqList[0 := head.(idPacket := nOutSeq, pkt := pkt)];
      nOutSeq := nOutSeq + 1;
    }

    /** The head of ppqList becomes the tail of ppqSent. */
    method MoveHead() returns (ppq: Entry)
      requires Queues(true) && Sent()
      modifies `ppqList, `ppqSent, `nSent, `popped, `inflight
      ensures Queues(false) && Sent()
      ensures popped == old(popped) + 1 && inflight == old(inflight) + [old(popped)]
      ensures Ready(ppq, line[old(popped)], old(popped)) && Content(ppq) == line[old(popped)]
      ensures nSent == old(nSent) + 1
    {
      nSent := nSent + 1;
      ppq := ppqList[0];
      ppqList := ppqList[1..];
      ppqSent := ppqSent + [ppq];
      popped, inflight := popped + 1, inflight + [popped];
    }

    /**
     Sends the head if the window is open.  In every state the callers can reach, the recursion
     through PoppedPacket stops at once: either the window is full again or the list is empty.
     */
    method TransmitHead()
      requires Queues(true) && Sent() && Wire()
      requires nSent < WINDOW_SIZE ==> LastSlot(Abs()) && (Listed(Pop(Abs())) ==> nOutSeq < 0x8000)
      requires timers.Valid()
      modifies this, timers, timers.expiry
      ensures Queues(ppqList != []) && Sent() && Wire() && sched == old(sched)
      ensures Abs() == (if old(nSent) < WINDOW_SIZE then Pop(old(Abs())) else old(Abs()))
      ensures Armed() == (old(Armed()) || old(nSent) < WINDOW_SIZE)
      ensures old(nSent) >= WINDOW_SIZE ==> wire == old(wire) && ppqSent == old(ppqSent)
      ensures timers.Valid() && timers.Others() == old(timers.Others())
      decreases WINDOW_SIZE - nSent, 0
    {
      hide Ready, Fresh, AllFresh, HostTimers.Valid, HostTimers.Others, HostTimers.Runs;
      if nSent < WINDOW_SIZE {
        ghost var a := Abs();
        var ppq := MoveHead();
        ghost var b := Abs();
        PoppedPacket(ppq);
        assert Abs() == Settle(b, a.line[a.popped]);
        TransmitPacket(ppq, a.popped);
      }
    }

    /** After a trailer the next message of its stream is moved to the list, or the stream is free. */
    method PoppedPacket(ppqPopped: Entry)
      requires Queues(false) && Sent() && Wire()
      requires Releasable(Abs(), Content(ppqPopped))
      requires Listed(Settle(Abs(), Content(ppqPopped))) ==> nSent == WINDOW_SIZE && nOutSeq < 0x8000
      requires timers.Valid()
      modifies this, timers, timers.expiry
      ensures Queues(ppqList != []) && Sent() && Wire() && sched == old(sched)
      ensures Abs() == Settle(old(Abs()), Content(ppqPopped))
      ensures Armed() == old(Armed()) && wire == old(wire) && ppqSent == old(ppqSent) && nSent == old(nSent)
      ensures timers.Valid() && timers.Others() == old(timers.Others())
      decreases WINDOW_SIZE - nSent, 2
    {
      hide Ready, Fresh, HostTimers.Valid, HostTimers.Others, HostTimers.Runs;
      var s := ppqPopped.stream;
      if s != URGENT && ppqPopped.trailer {
        if appqStreams[s] != [] {
          ReleaseMessage(s);
        } else {
          aiStreams := aiStreams - {s};
        }
      }
      if ppqList != [] {
        StartHead();
      }
    }

    /** A packet has come to the head of ppqList: InitHead and TransmitHead are called together. */
    method StartHead()
      requires Queues(false) && Sent() && Wire() && Listed(Abs()) && nOutSeq < 0x8000
      requires nSent < WINDOW_SIZE ==> LastSlot(Abs()) && !Listed(Pop(Abs()))
      requires timers.Valid()
      modifies this, timers, timers.expiry
      ensures Queues(ppqList != []) && Sent() && Wire() && sched == old(sched)
      ensures Abs() == (if old(nSent) < WINDOW_SIZE then Pop(old(Abs())) else old(Abs()))
      ensures Armed() == (old(Armed()) || old(nSent) < WINDOW_SIZE)
      ensures old(nSent) >= WINDOW_SIZE ==> wire == old(wire) && ppqSent == old(ppqSent)
      ensures timers.Valid() && timers.Others() == old(timers.Others())
      decreases WINDOW_SIZE - nSent, 1
    {
      hide Ready, Fresh, AllFresh, HostTimers.Valid, HostTimers.Others, HostTimers.Runs;
      InitHead();
      TransmitHead();
    }

    /** PoppedPacket's inner loop: packets move from the hold-back queue to the list, up to a trailer. */
    method ReleaseMessage(s: Stream)
      requires Queues(false) && Sent() && Wire() && Ordinary(s) && HasTrailer(held[s])
      modifies `ppqList, `appqStreams, `line, `held
      ensures Queues(false) && Sent() && Wire()
      ensures var q := old(held[s]); var n := FirstLength(q);
        line == old(line) + q[..n] && held == old(held)[s := q[n..]]
    {
      hide Ready, Fresh, AllFresh;
      ghost var n, q := 0, held[s];
      var more := true;
      while more
        invariant Queues(false) && Sent() && Wire()
        invariant n <= |q| && line == old(line) + q[..n] && held == old(held)[s := q[n..]]
        invariant forall i :: 0 <= i < n - 1 ==> !q[i].trailer
        invariant more <==> n == 0 || !q[n - 1].trailer
        decreases |q| - n
      {
        var ppqPop := MoveHeld(s);
        more := !ppqPop.trailer;
        n := n + 1;
      }
      FirstTrailer(q, n);
    }

    /** The head of a hold-back queue goes to the end of ppqList. */
    method MoveHeld(s: Stream) returns (ppqPop: Entry)
      requires Queues(false) && Sent() && Wire() && Ordinary(s) && held[s] != []
      modifies `ppqList, `appqStreams, `line, `held
      ensures Queues(false) && Sent() && Wire()
      ensures Content(ppqPop) == old(held[s])[0]
      ensures line == old(line) + [old(held[s])[0]] && held == old(held)[s := old(held[s])[1..]]
    {
      ppqPop := appqStreams[s][0];
      appqStreams := appqStreams[s := appqStreams[s][1..]];
      ppqList := ppqList + [ppqPop];
      line, held := line + [held[s][0]], held[s := held[s][1..]];
    }

    /** InsertInQueue on the hold-back queue of `s`. */
    method Hold(ppq: Entry, s: Stream)
      requires Queues(ppqList != []) && Ordinary(s) && Fresh(ppq, Content(ppq))
      modifies `appqStreams, `held
      ensures Queues(ppqList != [])
      ensures held == old(held)[s := old(held[s]) + [Content(ppq)]]
    {
      appqStreams := appqStreams[s := appqStreams[s] + [ppq]];
      held := held[s := held[s] + [Content(ppq)]];
    }

    /** InsertInQueue on ppqList. */
    method Append(ppq: Entry)
      requires Queues(ppqList != []) && Sent() && Wire() && Fresh(ppq, Content(ppq))
      modifies `ppqList, `line
      ensures Queues(old(ppqList) != []) && Sent() && Wire()
      ensures ppqList == old(ppqList) + [ppq] && line == old(line) + [Content(ppq)]
    {
      hide Ready, Fresh, AllFresh;
      ppqList := ppqList + [ppq];
      line := line + [Content(ppq)];
    }

    /** The test at the top of PutInQueue. */
    predicate KeepsBack(ppq: Entry, s: Stream)
      requires Queues(ppqList != []) && ppq.stream == s
      reads `ppqList, `nOutSeq, `appqStreams, `aiStreams, `line, `popped, `held, `inflight, `log
      ensures KeepsBack(ppq, s) <==> Holds(Abs(), Content(ppq))
    {
      s != URGENT && s in aiStreams && (appqStreams[s] != [] || ppq.leader)
    }

    method PutInQueue(ppq: Entry, s: Stream)
      requires Steady() && nOutSeq < 0x8000
      requires Fresh(ppq, Content(ppq)) && ppq.stream == s
      requires Holds(Abs(), Content(ppq)) || Admits(Abs(), s, ppq.leader)
      modifies this, timers, timers.expiry
      ensures Steady() && sched == old(sched)
      ensures Abs() == PutPacket(old(Abs()), Content(ppq))
      ensures timers.Valid() && timers.Others() == old(timers.Others())
    {
      hide HostTimers.Valid, HostTimers.Others, HostTimers.Runs;
      if KeepsBack(ppq, s) {
        HoldKeepsWindow(Abs(), Content(ppq));
        Hold(ppq, s);
      } else {
        PutOnLine(ppq, s);
      }
    }

    /** PutInQueue for a packet that is not kept back. */
    method PutOnLine(ppq: Entry, s: Stream)
      requires Steady() && nOutSeq < 0x8000
      requires Fresh(ppq, Content(ppq)) && ppq.stream == s && Admits(Abs(), s, ppq.leader)
      modifies this, timers, timers.expiry
      ensures Steady() && sched == old(sched)
      ensures Abs() == PutPacket(old(Abs()), Content(ppq))
      ensures timers.Valid() && timers.Others() == old(timers.Others())
    {
      hide Queues, Sent, Wire, Window, LastSlot, Pop, PutPacket, Admits, Fresh,
           HostTimers.Valid, HostTimers.Others, HostTimers.Runs;
      ghost var a, p := Abs(), Content(ppq);
      Counts();
      PutGoesOnce(a, p);
      if s != URGENT {
        aiStreams := aiStreams + {s};
      }
      Append(ppq);
      if |ppqList| == 1 {
        StartHead();
      }
      Counts();
      assert Abs() == PutPacket(a, p);
    }

    method SendPacket(data: bytes, s: Stream, leader: bool, trailer: bool)
      requires Steady() && nOutSeq < 0x8000 && |data| <= PACKET_MAX
      requires Holds(Abs(), Packet(s, leader, trailer, data)) || Admits(Abs(), s, leader)
      modifies this, timers, timers.expiry
      ensures Steady() && sched == old(sched)
      ensures Abs() == PutPacket(old(Abs()), Packet(s, leader, trailer, data))
      ensures timers.Valid() && timers.Others() == old(timers.Others())
    {
      // Until InitHead runs, the id fields hold whatever malloc left there.
      var idPacket: int, id: nat := *, *;
      PutInQueue(Entry(idPacket, s, leader, trailer, Frame(id, 0, PT_DATA, data)), s);
    }

    method PacketTransmitData(data: bytes, s: Stream)
      requires Valid() && Ids(Abs()) + Pieces(data) <= 0x8000
      modifies this, timers, timers.expiry
      ensures Valid()
      ensures Abs() == Put(old(Abs()), Message(s, data))
      ensures sched == PutMessage(old(Abs()), old(sched), Message(s, data))
      ensures timers.Valid() && timers.Others() == old(timers.Others())
    {
      hide HostTimers.Valid, HostTimers.Others, HostTimers.Runs;
      StartsMessage(Abs(), sched, s);
      PutKeepsQuiescent(Abs(), sched, Message(s, data));
      sched := PutMessage(Abs(), sched, Message(s, data));
      PutPieces(data, s);
    }

    /** The loop of PacketTransmitData. */
    method PutPieces(data: bytes, s: Stream)
      requires Steady() && Ids(Abs()) + Pieces(data) <= 0x8000 && Continues(Abs(), s, true)
      modifies this, timers, timers.expiry
      ensures Steady() && sched == old(sched)
      ensures Abs() == Put(old(Abs()), Message(s, data))
      ensures timers.Valid() && timers.Others() == old(timers.Others())
    {
      hide Queues, Sent, Wire, Window, PutPacket, PutAll, Holds, Admits, Continues,
           HostTimers.Valid, HostTimers.Others, HostTimers.Runs;
      Counts();
      var rest, leader := data, true;
      while |rest| > PACKET_MAX
        invariant Steady() && Shape(Abs()) && sched == old(sched) && timers.Others() == old(timers.Others())
        invariant PutAll(Abs(), Packetise(s, rest, leader)) == Put(old(Abs()), Message(s, data))
        invariant Continues(Abs(), s, leader)
        invariant Ids(Abs()) + Pieces(rest) <= 0x8000
        decreases |rest|
      {
        assert rest == rest[..PACKET_MAX] + rest[PACKET_MAX..];
        Counts();
        CountsIds();
        PutContinues(Abs(), Packet(s, leader, false, rest[..PACKET_MAX]), rest[PACKET_MAX..]);
        SendPacket(rest[..PACKET_MAX], s, leader, false);
        Counts();
        rest := rest[PACKET_MAX..];
        leader := false;
      }
      Counts();
      CountsIds();
      PutLast(Abs(), Packet(s, leader, true, rest));
      SendPacket(rest, s, leader, true);
    }

    /** The head of ppqSent is sent again and moves to the back. */
    method Rotate()
      requires Sent() && Wire() && ppqSent != []
      requires timers.Valid()
      modifies `ppqSent, `wire, `inflight, `log, timers, timers.expiry
      ensures Sent() && Wire() && Armed()
      ensures inflight == old(inflight)[1..] + [old(inflight)[0]] && log == old(log) + [old(inflight)[0]]
      ensures timers.Valid() && timers.Others() == old(timers.Others())
    {
      hide Ready, Fresh, AllFresh, HostTimers.Valid, HostTimers.Others, HostTimers.Runs;
      ghost var id := inflight[0];
      var ppqTemp := ppqSent[0];
      ppqSent := ppqSent[1..] + [ppqTemp];
      inflight := inflight[1..] + [id];
      TransmitPacket(ppqTemp, id);
    }

    function HeadId(): (id: int)
      requires Sent() && ppqSent != []
      reads `ppqSent, `nSent, `line, `inflight
      ensures id == inflight[0]
    {
      ppqSent[0].idPacket
    }

    /** The second loop of AckReceived, for an id that is in ppqSent. */
    method FreePacket(id: nat, ghost k: nat)
      requires Sent() && Wire()
      requires k == Find(inflight, id) < |inflight|
      requires timers.Valid()
      modifies `ppqSent, `nSent, `wire, `inflight, `log, timers, timers.expiry
      ensures Sent() && Wire() && nSent == old(nSent) - 1
      ensures inflight == old(inflight[k + 1..] + inflight[..k]) && log == old(log + inflight[..k])
      ensures Armed() == (old(Armed()) || k > 0)
      ensures timers.Valid() && timers.Others() == old(timers.Others())
    {
      hide Ready, Find, DataFrame, HostTimers.Valid, HostTimers.Others, HostTimers.Runs;
      FindIs(inflight, id, k);
      ghost var ids, j := inflight, 0;
      while HeadId() != id
        invariant j <= k && Sent() && Wire()
        invariant inflight == ids[j..] + ids[..j] && log == old(log) + ids[..j]
        invariant Armed() == (old(Armed()) || j > 0)
        invariant timers.Valid() && timers.Others() == old(timers.Others())
        decreases k - j
      {
        assert inflight[0] == ids[j] && ids[k] == id;
        RotateOnce(ids, old(log), j);
        Rotate();
        j := j + 1;
      }
      assert j == k by {
        assert ids[j] == inflight[0] == id;
      }
      DropRotated(ids, k);
      ppqSent := ppqSent[1..];
      nSent := nSent - 1;
      inflight := inflight[1..];
    }

    /** The first loop of AckReceived. */
    method FindSent(id: nat) returns (k: nat)
      requires Sent()
      ensures k == Find(inflight, id)
    {
      hide Fresh;
      k := 0;
      while k < |ppqSent| && ppqSent[k].idPacket != id
        invariant k <= |ppqSent| && forall i :: 0 <= i < k ==> inflight[i] != id
      {
        k := k + 1;
      }
      FindIs(inflight, id, k);
    }

    /** The PT_Nak branch of ProcessData: it never finds room in the window. */
    method NakReceived(id: nat)
      requires Valid()
      modifies this, timers, timers.expiry
      ensures Valid() && Abs() == old(Abs()) && sched == old(sched) && wire == old(wire)
      ensures timers.Valid() && timers.Others() == old(timers.Others())
    {
      hide Queues, Sent, Wire, Quiescent, HostTimers.Valid, HostTimers.Others, HostTimers.Runs;
      Counts();
      if ppqList != [] && id == ppqList[0].idPacket {
        TransmitHead();
      }
    }

    method AckReceived(id: nat)
      requires Valid() && Ids(Abs()) < 0x8000
      modifies this, timers, timers.expiry
      ensures Valid()
      ensures Abs() == Ack(old(Abs()), id) && sched == AckMessage(old(Abs()), old(sched), id)
      ensures timers.Valid() && timers.Others() == old(timers.Others())
    {
      hide Queues, Sent, Wire, Window, Find, Quiescent, Ack, AckMessage,
           HostTimers.Valid, HostTimers.Others, HostTimers.Runs;
      Counts();
      CountsIds();
      var k := FindSent(id);
      AckReady(Abs(), sched, id, k);
      sched := AckMessage(Abs(), sched, id);
      if k < |ppqSent| {
        AckSent(id, k);
      }
    }

    /** AckReceived for an id that is in ppqSent. */
    method AckSent(id: nat, ghost k: nat)
      requires Queues(ppqList != []) && Sent() && Wire() && Armed() && nOutSeq < 0x8000
      requires k == Find(inflight, id) < |inflight|
      requires Listed(Abs()) ==> |inflight| == WINDOW_SIZE && LastSlot(Free(Abs(), k))
      requires timers.Valid()
      modifies this, timers, timers.expiry
      ensures Queues(ppqList != []) && Sent() && Wire() && (Armed() <==> ppqSent != []) && sched == old(sched)
      ensures Abs() == Ack(old(Abs()), id)
      ensures timers.Valid() && timers.Others() == old(timers.Others())
    {
      hide Queues, Sent, Wire, LastSlot, Pop, Find, HostTimers.Valid, HostTimers.Others, HostTimers.Runs;
      Counts();
      FreePacket(id, k);
      if ppqList != [] {
        TransmitHead();
      }
      if ppqSent == [] {
        timers.KillTransmitTimeout();
      }
    }

    method TimeoutReceived()
      requires Sent() && Wire()
      requires timers.Valid()
      modifies `wire, `log, timers, timers.expiry
      ensures Sent() && Wire()
      ensures log == old(log) + inflight
      ensures Armed() == (old(Armed()) || ppqSent != [])
      ensures timers.Valid() && timers.Others() == old(timers.Others())
    {
      hide Ready, Fresh, AllFresh, HostTimers.Valid, HostTimers.Others, HostTimers.Runs;
      var i := 0;
      while i < |ppqSent|
        invariant i <= |ppqSent| && Sent() && Wire()
        invariant log == old(log) + inflight[..i]
        invariant Armed() == (old(Armed()) || i > 0)
        invariant timers.Valid() && timers.Others() == old(timers.Others())
      {
        TransmitPacket(ppqSent[i], inflight[i]);
        i := i + 1;
      }
      assert inflight[..i] == inflight;
    }

    /** CheckTimers and FireTimer, when the send timer has expired. */
    method SendTimerFires()
      requires Valid()
      modifies this, timers, timers.expiry
      ensures Valid()
      ensures Abs() == Timeout(old(Abs())) && sched == old(sched)
      ensures timers.Valid() && timers.Others() == old(timers.Others())
    {
      hide Queues, Sent, Wire, Window, HostTimers.Valid, HostTimers.Others, HostTimers.Runs;
      TimeoutKeepsQuiescent(Abs(), sched);
      timers.KillTransmitTimeout();
      TimeoutReceived();
    }

    /** What ProcessData does to the send timer around FlushInput when it has read a bad frame. */
    method RestartTimer()
      requires Valid()
      modifies timers, timers.expiry
      ensures Valid()
      ensures timers.Valid() && timers.Others() == old(timers.Others())
      ensures ppqList != [] ==> timers.Sane() && JustSet()
    {
      hide Queues, Sent, Wire, HostTimers.Valid, HostTimers.Others, HostTimers.Runs;
      Counts();
      if ppqList != [] {
        timers.KillTransmitTimeout();
      }
      // FlushInput
      if ppqList != [] {
        timers.SetTransmitTimeout();
        timers.IsSane();
      }
    }

    method FlushStream(s: int)
      requires Valid() && Ordinary(s)
      modifies this
      ensures Valid()
      ensures Abs() == Flush(old(Abs()), s) && sched == FlushMessages(old(sched), s)
    {
      hide Queues, Sent, Wire, Window;
      FlushKeepsQuiescent(Abs(), sched, s);
      FlushQueue(s);
      sched := FlushMessages(sched, s);
    }

    method FlushQueue(s: int)
      requires Queues(ppqList != []) && Ordinary(s)
      modifies `appqStreams, `held
      ensures Queues(ppqList != []) && held == old(held)[s := []]
    {
      hide Fresh, Ready;
      appqStreams := appqStreams[s := []];
      held := held[s := []];
    }
  }

  lemma StartsEmpty()
    ensures Window(INITIAL)
    ensures forall s :: Ordinary(s) ==> s in INITIAL.held && INITIAL.held[s] == []
  {
  }

  lemma RotateOnce(ids: seq<nat>, log: seq<nat>, j: nat)
    requires j < |ids|
    ensures (ids[j..] + ids[..j])[1..] + [ids[j]] == ids[j + 1..] + ids[..j + 1]
    ensures (log + ids[..j]) + [ids[j]] == log + ids[..j + 1]
  {
  }

  lemma DropRotated(ids: seq<nat>, k: nat)
    requires k < |ids|
    ensures (ids[k..] + ids[..k])[1..] == ids[k + 1..] + ids[..k]
  {
  }

  lemma {:induction false} FindIs(ids: seq<nat>, id: nat, k: nat)
    requires k <= |ids| && (k < |ids| ==> ids[k] == id) && forall i :: 0 <= i < k ==> ids[i] != id
    ensures Find(ids, id) == k
  {
    if k > 0 { FindIs(ids[1..], id, k - 1); }
  }

  /** Once a packet is freed, the head of the list may go. */
  lemma AckReady(a: Link, c: Schedule, id: nat, k: nat)
    requires Quiescent(a, c) && k == Find(a.inflight, id)
    ensures Shape(a) && Quiescent(Ack(a, id), AckMessage(a, c, id)) && Window(Ack(a, id))
    ensures Listed(a) ==> |a.inflight| == WINDOW_SIZE
    ensures forall s :: Ordinary(s) ==> s in c.held
    ensures k < |a.inflight| && Listed(a) ==> LastSlot(Free(a, k))
    ensures Ack(a, id) ==
      if k == |a.inflight| then a else if Listed(a) then Pop(Free(a, k)) else Free(a, k)
  {
    AckKeepsQuiescent(a, c, id);
    if k < |a.inflight| && Listed(a) {
      var s := a.line[a.popped].stream;
      if s != URGENT && c.held[s] != [] {
        var m := c.held[s][0];
        PacketiseRun(m.stream, m.data, true);
        assert a.held[s][|Packets(m)| - 1].trailer;
      }
    }
  }

  /** How many packets a message is cut into. */
  function Pieces(data: bytes): nat
    decreases |data|
  {
    if |data| > PACKET_MAX then 1 + Pieces(data[PACKET_MAX..]) else 1
  }

  lemma {:induction false} PiecesOf(s: Stream, data: bytes, leader: bool)
    ensures |Packetise(s, data, leader)| == Pieces(data)
    decreases |data|
  {
    if |data| > PACKET_MAX { PiecesOf(s, data[PACKET_MAX..], false); }
  }

  /** A message adds so many packets, on the line or held back. */
  lemma PutTotal(a: Link, m: Message)
    requires Shape(a)
    ensures Total(Put(a, m)) == Total(a) + Pieces(m.data)
  {
    PutAllTotal(a, Packets(m));
    PiecesOf(m.stream, m.data, true);
  }

  /** How many ids have been given out: the packets that left ppqList, and its head. */
  function Ids(a: Link): nat { if a.popped < |a.line| then a.popped + 1 else a.popped }

  /** A stream may go on with its message: either all of it is kept back or none. */
  ghost predicate Continues(a: Link, s: Stream, leader: bool)
    requires Shape(a)
  {
    (s != URGENT && s in a.busy && (a.held[s] != [] || leader)) || Admits(a, s, leader)
  }

  lemma StartsMessage(a: Link, c: Schedule, s: Stream)
    requires Quiescent(a, c)
    ensures Continues(a, s, true)
  {
  }

  lemma PutContinues(a: Link, p: Packet, rest: bytes)
    requires Shape(a) && Continues(a, p.stream, p.leader) && !p.trailer && |p.data| == PACKET_MAX && rest != []
    ensures Holds(a, p) || Admits(a, p.stream, p.leader)
    ensures Continues(PutPacket(a, p), p.stream, false) && Ids(PutPacket(a, p)) <= Ids(a) + 1
    ensures PutAll(a, Packetise(p.stream, p.data + rest, p.leader)) ==
            PutAll(PutPacket(a, p), Packetise(p.stream, rest, false))
  {
    if Admits(a, p.stream, p.leader) { PutOne(a, p); }
    assert (p.data + rest)[..PACKET_MAX] == p.data && (p.data + rest)[PACKET_MAX..] == rest;
  }

  lemma PutLast(a: Link, p: Packet)
    requires Shape(a) && Continues(a, p.stream, p.leader) && p.trailer && |p.data| <= PACKET_MAX
    ensures Holds(a, p) || Admits(a, p.stream, p.leader)
    ensures PutAll(a, Packetise(p.stream, p.data, p.leader)) == PutPacket(a, p)
  {
    assert Packetise(p.stream, p.data, p.leader) == [p];
  }

  /** A packet put on the line leaves at once or not at all, and nothing leaves after it. */
  lemma PutGoesOnce(a: Link, p: Packet)
    requires Shape(a) && Window(a) && Admits(a, p.stream, p.leader)
    ensures var b := a.(line := a.line + [p], busy := if p.stream == URGENT then a.busy else a.busy + {p.stream});
      && Shape(b)
      && Window(PutPacket(a, p))
      && if a.popped == |a.line| && |a.inflight| < WINDOW_SIZE then
           PutPacket(a, p) == Pop(b) && LastSlot(b) && !Listed(Pop(b)) && Pop(b).inflight != []
         else
           PutPacket(a, p) == b
  {
    PutOne(a, p);
    DirectKeepsWindow(a, [p], p.stream);
  }

  lemma HoldKeepsWindow(a: Link, p: Packet)
    requires Shape(a) && Window(a) && Holds(a, p)
    ensures Window(PutPacket(a, p))
  {
  }

  /** The loop of PoppedPacket finds a trailer. */
  ghost predicate Releasable(a: Link, p: Packet)
    requires Shape(a)
  {
    p.trailer && p.stream != URGENT ==> a.held[p.stream] == [] || HasTrailer(a.held[p.stream])
  }

  /** ppqList is not empty. */
  ghost predicate Listed(a: Link) { a.popped < |a.line| }

  /** One packet fits, and nothing can follow it before the window is full or the list empty. */
  ghost predicate LastSlot(a: Link)
    requires Shape(a) && a.popped < |a.line|
  {
    var p := a.line[a.popped];
    && Releasable(a, p)
    && (|a.inflight| == WINDOW_SIZE - 1 || !Listed(Pop(a)))
  }
}
