/**
 The sender's invariant, step by step: puts, acknowledgements, timeouts and flushes keep it.  Putting a
 message is putting its packets, which all go on the line or are all held back; popping a packet releases
 at most one message that was held; and the messages behind the packets (Schedule) move along, so that
 the line stays a sequence of whole messages.
 */
module SchedulerSteps {
  import opened Bytes
  import opened Scheduler

  /** A message becomes a run of packets, none too long. */
  lemma {:induction false} PacketiseRun(s: Stream, data: bytes, leader: bool)
    ensures Run(Packetise(s, data, leader), s, leader)
    ensures forall p <- Packetise(s, data, leader) :: |p.data| <= 512
    decreases |data|
  {
    if |data| > PACKET_MAX {
      PacketiseRun(s, data[PACKET_MAX..], false);
    }
  }

  /** All but the last are full. */
  lemma {:induction false} OnlyLastIsShort(s: Stream, data: bytes, leader: bool, i: nat)
    requires i + 1 < |Packetise(s, data, leader)|
    ensures |Packetise(s, data, leader)[i].data| == 512
    decreases |data|
  {
    var rest := Packetise(s, data[PACKET_MAX..], false);
    assert Packetise(s, data, leader) == [Packet(s, leader, false, data[..PACKET_MAX])] + rest;
    if i > 0 { OnlyLastIsShort(s, data[PACKET_MAX..], false, i - 1); }
  }

  lemma StartsQuiescent()
    ensures Quiescent(INITIAL, NOTHING)
  {
  }

  // ---------------------------------------------------------------------------------------------
  // Putting a message
  // ---------------------------------------------------------------------------------------------

  function Range(lo: nat, hi: nat): (r: seq<nat>)
    ensures |r| == if lo <= hi then hi - lo else 0
    ensures forall i :: 0 <= i < |r| ==> r[i] == lo + i
    ensures forall id :: lo <= id < hi <==> id in r
  {
    if lo < hi then Range(lo, hi - 1) + [hi - 1] else []
  }

  lemma {:induction false} RangeJoin(lo: nat, mid: nat, hi: nat)
    requires lo <= mid <= hi
    ensures Range(lo, mid) + Range(mid, hi) == Range(lo, hi)
  {
  }

  /** How many more packets may leave at once. */
  function Room(a: Link): nat {
    if a.popped == |a.line| && |a.inflight| <= WINDOW_SIZE then WINDOW_SIZE - |a.inflight| else 0
  }

  /** Packets of one message are all queued for the line, and the window is filled. */
  function Direct(a: Link, ps: seq<Packet>, s: Stream): (b: Link)
    requires Shape(a) && ps != []
    ensures Shape(b)
  {
    var k := if |ps| <= Room(a) then |ps| else Room(a);
    var ids := Range(a.popped, a.popped + k);
    a.(line := a.line + ps, popped := a.popped + k, inflight := a.inflight + ids, log := a.log + ids,
       busy := if s == URGENT then a.busy else if k == |ps| && ps[k - 1].trailer then a.busy - {s} else a.busy + {s})
  }

  ghost predicate Admits(a: Link, s: Stream, leader: bool)
    requires Shape(a)
  {
    s == URGENT || (a.held[s] == [] && (s in a.busy <==> !leader))
  }

  lemma PutOne(a: Link, p: Packet)
    requires Shape(a) && Admits(a, p.stream, p.leader)
    ensures PutPacket(a, p) == Direct(a, [p], p.stream)
  {
    if GoesAtOnce(a, p) {
      assert Range(a.popped, a.popped + 1) == [a.popped];
    } else {
      assert Range(a.popped, a.popped) == [];
    }
  }

  lemma DirectKeepsWindow(a: Link, ps: seq<Packet>, s: Stream)
    requires Shape(a) && Window(a) && ps != []
    ensures Window(Direct(a, ps, s))
  {
  }

  lemma RoomShrinks(a: Link, p: Packet)
    requires Shape(a) && Window(a)
    ensures Room(Direct(a, [p], p.stream)) == if Room(a) == 0 then 0 else Room(a) - 1
  {
  }

  lemma DirectTwice(a: Link, p: Packet, ps: seq<Packet>)
    requires Shape(a) && Window(a) && ps != [] && !p.trailer
    ensures Direct(Direct(a, [p], p.stream), ps, p.stream) == Direct(a, [p] + ps, p.stream)
  {
    hide Window, Room, Range;
    RoomShrinks(a, p);
    var b := Direct(a, [p], p.stream);
    var c := Direct(b, ps, p.stream);
    var d := Direct(a, [p] + ps, p.stream);
    Regroup(a.line, [p], ps);
    RangeJoin(a.popped, b.popped, c.popped);
    Regroup(a.inflight, Range(a.popped, b.popped), Range(b.popped, c.popped));
    Regroup(a.log, Range(a.popped, b.popped), Range(b.popped, c.popped));
  }

  lemma {:induction false} PutDirect(a: Link, ps: seq<Packet>, s: Stream, leader: bool)
    requires Shape(a) && Window(a) && Run(ps, s, leader) && Admits(a, s, leader)
    ensures PutAll(a, ps) == Direct(a, ps, s)
    decreases |ps|
  {
    PutOne(a, ps[0]);
    var b := PutPacket(a, ps[0]);
    assert PutAll(a, ps) == PutAll(b, ps[1..]);
    assert ps == [ps[0]] + ps[1..];
    if |ps| > 1 {
      DirectKeepsWindow(a, [ps[0]], s);
      PutDirect(b, ps[1..], s, false);
      DirectTwice(a, ps[0], ps[1..]);
    }
  }

  /** A message of a stream that already has one queued is kept back entire. */
  lemma {:induction false} PutHeld(a: Link, ps: seq<Packet>, s: Stream, leader: bool)
    requires Shape(a) && Run(ps, s, leader) && s != URGENT && s in a.busy && (leader || a.held[s] != [])
    ensures PutAll(a, ps) == a.(held := a.held[s := a.held[s] + ps])
    decreases |ps|
  {
    var b := PutPacket(a, ps[0]);
    assert PutAll(a, ps) == PutAll(b, ps[1..]);
    if |ps| == 1 {
      assert ps == [ps[0]];
    } else {
      PutHeld(b, ps[1..], s, false);
      assert a.held[s] + ps == (a.held[s] + [ps[0]]) + ps[1..];
    }
  }

  // ---------------------------------------------------------------------------------------------
  // The invariant, step by step
  // ---------------------------------------------------------------------------------------------

  lemma {:induction false} FlattenAppend(ms: seq<Message>, ns: seq<Message>)
    ensures Flatten(ms + ns) == Flatten(ms) + Flatten(ns)
    decreases |ms|
  {
    if ms == [] {
      assert ms + ns == ns;
    } else {
      var tail := ms[1..];
      assert ms + ns == [ms[0]] + (tail + ns);
      FlattenStep(ms[0], tail + ns);
      FlattenStep(ms[0], tail);
      assert ms == [ms[0]] + tail;
      FlattenAppend(tail, ns);
      Regroup(Packets(ms[0]), Flatten(tail), Flatten(ns));
    }
  }

  lemma FlattenStep(m: Message, ms: seq<Message>)
    ensures Flatten([m] + ms) == Packets(m) + Flatten(ms)
  {
    assert ([m] + ms)[1..] == ms;
  }

  lemma FlattenOne(m: Message)
    ensures Flatten([m]) == Packets(m)
  {
    assert Flatten([m][1..]) == [];
  }

  /** The first message of a hold-back queue is what PoppedPacket's loop takes off it. */
  lemma FirstMessage(q: seq<Packet>, m: Message, rest: seq<Packet>)
    requires q == Packets(m) + rest
    ensures FirstLength(q) == |Packets(m)|
  {
    PacketiseRun(m.stream, m.data, true);
    var n := |Packets(m)|;
    assert q[n - 1].trailer;
    assert forall i :: 0 <= i < n - 1 ==> !q[i].trailer;
    FirstTrailer(q, n);
  }

  lemma {:induction false} FirstTrailer(q: seq<Packet>, n: nat)
    requires 0 < n <= |q| && q[n - 1].trailer && forall i :: 0 <= i < n - 1 ==> !q[i].trailer
    ensures FirstLength(q) == n
  {
    if !q[0].trailer {
      FirstTrailer(q[1..], n - 1);
    }
  }

  /** The message-level counterpart of each step. */
  function PutMessage(a: Link, c: Schedule, m: Message): Schedule
    requires Shape(a) && (Ordinary(m.stream) ==> m.stream in c.held)
  {
    if m.stream != URGENT && m.stream in a.busy then c.(held := c.held[m.stream := c.held[m.stream] + [m]])
    else c.(msgs := c.msgs + [m])
  }

  lemma MessageIsRun(m: Message)
    ensures Packets(m) != [] && Run(Packets(m), m.stream, true)
  {
    PacketiseRun(m.stream, m.data, true);
  }

  lemma HeldDoesNotMatter(a: Link, held: map<int, seq<Packet>>)
    requires Window(a) && OneEach(a) && BusyMeansUnfinished(a)
    ensures Window(a.(held := held)) && OneEach(a.(held := held)) && BusyMeansUnfinished(a.(held := held))
  {
    assert forall s :: Unfinished(a.(held := held), s) <==> Unfinished(a, s);
  }

  lemma PutKeepsQuiescent(a: Link, c: Schedule, m: Message)
    requires Quiescent(a, c)
    ensures Quiescent(Put(a, m), PutMessage(a, c, m))
  {
    hide Window, OneEach, BusyMeansUnfinished, Run, Packets, PutAll;
    var s := m.stream;
    MessageIsRun(m);
    FlattenOne(m);
    if s != URGENT && s in a.busy {
      PutHeld(a, Packets(m), s, true);
      FlattenAppend(c.held[s], [m]);
      HeldDoesNotMatter(a, a.held[s := a.held[s] + Packets(m)]);
    } else {
      PutDirect(a, Packets(m), s, true);
      FlattenAppend(c.msgs, [m]);
      DirectKeepsWindow(a, Packets(m), s);
      DirectKeepsStreams(a, Packets(m), s);
    }
  }

  /** Appending one message of a stream that has none unfinished. */
  lemma DirectKeepsStreams(a: Link, ps: seq<Packet>, s: Stream)
    requires Shape(a) && Window(a) && OneEach(a) && BusyMeansUnfinished(a)
    requires Run(ps, s, true) && (s != URGENT ==> s !in a.busy)
    ensures OneEach(Direct(a, ps, s)) && BusyMeansUnfinished(Direct(a, ps, s))
  {
    var b := Direct(a, ps, s);
    var n := |a.line| + |ps| - 1;
    assert b.line[n].trailer && b.line[n].stream == s;
    assert forall i :: |a.line| <= i < n ==> !b.line[i].trailer;
    forall t | Ordinary(t)
      ensures Unfinished(b, t) <==> (if t == s then b.popped <= n else Unfinished(a, t))
    {
      if t != s && Unfinished(a, t) {
        var i :| a.popped <= i < |a.line| && a.line[i].trailer && a.line[i].stream == t;
        assert b.line[i] == a.line[i];
      }
    }
  }

  function PopMessage(a: Link, c: Schedule): Schedule
    requires Shape(a) && a.popped < |a.line| && forall s :: Ordinary(s) ==> s in c.held
  {
    var p := a.line[a.popped];
    if p.stream == URGENT || !p.trailer || c.held[p.stream] == [] then c
    else
      var q := c.held[p.stream];
      Schedule(c.msgs + [q[0]], c.held[p.stream := q[1..]], c.released + {|c.msgs|})
  }

  function AckMessage(a: Link, c: Schedule, id: nat): Schedule
    requires Shape(a) && forall s :: Ordinary(s) ==> s in c.held
  {
    if id in a.inflight && a.popped < |a.line| then PopMessage(a, c) else c
  }

  lemma PopKeepsStreams(a: Link, c: Schedule)
    requires Represents(a, c) && OneEach(a) && BusyMeansUnfinished(a) && a.popped < |a.line|
    ensures OneEach(Pop(a)) && BusyMeansUnfinished(Pop(a))
  {
    hide Pop, Flatten, Packets;
    var b := Pop(a);
    var p := a.line[a.popped];
    if p.stream != URGENT && p.trailer && c.held[p.stream] != [] {
      ReleaseShape(a, c);
      var n := |b.line| - 1;
      assert b.line[n].trailer && b.line[n].stream == p.stream;
      assert forall i :: |a.line| <= i < n ==> !b.line[i].trailer;
    } else {
      NothingReleased(a, c);
    }
    forall t | Ordinary(t)
      ensures t in b.busy <==> Unfinished(b, t)
    {
      if Unfinished(a, t) {
        var i :| a.popped <= i < |a.line| && a.line[i].trailer && a.line[i].stream == t;
        assert b.line[i] == a.line[i];
      }
    }
  }

  lemma NothingReleased(a: Link, c: Schedule)
    requires Represents(a, c) && a.popped < |a.line|
    requires var p := a.line[a.popped]; p.stream == URGENT || !p.trailer || c.held[p.stream] == []
    ensures var p := a.line[a.popped];
      && Pop(a).line == a.line && Pop(a).popped == a.popped + 1
      && Pop(a).busy == if p.stream != URGENT && p.trailer then a.busy - {p.stream} else a.busy
  {
  }

  /** What a release adds to the line. */
  lemma ReleaseShape(a: Link, c: Schedule)
    requires Represents(a, c) && a.popped < |a.line|
    requires var p := a.line[a.popped]; p.stream != URGENT && p.trailer && c.held[p.stream] != []
    ensures var s := a.line[a.popped].stream; var m := c.held[s][0];
      && m.stream == s
      && Run(Packets(m), s, true)
      && Pop(a).line == a.line + Packets(m) && Pop(a).popped == a.popped + 1
      && Pop(a).held == a.held[s := Flatten(c.held[s][1..])]
      && Pop(a).busy == a.busy
  {
    var s := a.line[a.popped].stream;
    var m := c.held[s][0];
    PacketiseRun(m.stream, m.data, true);
    FirstMessage(a.held[s], m, Flatten(c.held[s][1..]));
  }

  lemma PopKeepsMessages(a: Link, c: Schedule)
    requires Represents(a, c) && a.popped < |a.line|
    requires BusyMeansUnfinished(Pop(a)) && BusyMeansUnfinished(a)
    ensures Represents(Pop(a), PopMessage(a, c))
  {
    var p := a.line[a.popped];
    if p.stream != URGENT && p.trailer && c.held[p.stream] != [] {
      ReleaseShape(a, c);
      FlattenAppend(c.msgs, [c.held[p.stream][0]]);
      FlattenOne(c.held[p.stream][0]);
    }
  }

  lemma FreeKeepsLogged(a: Link, k: nat)
    requires Shape(a) && Logged(a) && k < |a.inflight|
    ensures Logged(Free(a, k))
  {
    var b := Free(a, k);
    forall x | x in b.log
      ensures x < a.popped
    {
      if x in a.inflight[..k] {
        var i :| 0 <= i < k && a.inflight[i] == x;
      }
    }
  }

  lemma PopKeepsLogged(a: Link)
    requires Shape(a) && Logged(a) && a.popped < |a.line|
    ensures Logged(Pop(a))
  {
  }

  lemma AckKeepsQuiescent(a: Link, c: Schedule, id: nat)
    requires Quiescent(a, c)
    ensures Quiescent(Ack(a, id), AckMessage(a, c, id))
  {
    if id in a.inflight {
      var k := Find(a.inflight, id);
      FreeKeepsLogged(a, k);
      if a.popped < |a.line| {
        PopKeepsLogged(Free(a, k));
        PopKeepsStreams(Free(a, k), c);
        PopKeepsMessages(Free(a, k), c);
      }
    }
  }

  lemma TimeoutKeepsQuiescent(a: Link, c: Schedule)
    requires Quiescent(a, c)
    ensures Quiescent(Timeout(a), c)
  {
    forall id | id in a.inflight
      ensures id < a.popped
    {
      var i :| 0 <= i < |a.inflight| && a.inflight[i] == id;
    }
  }

  function FlushMessages(c: Schedule, s: int): Schedule { c.(held := c.held[s := []]) }

  lemma FlushKeepsQuiescent(a: Link, c: Schedule, s: int)
    requires Quiescent(a, c) && Ordinary(s)
    ensures Quiescent(Flush(a, s), FlushMessages(c, s))
  {
  }

  // ---------------------------------------------------------------------------------------------
  // How many packets there are
  // ---------------------------------------------------------------------------------------------

  /** Packets in the hold-back queues of the streams -1..s. */
  function HeldUpTo(held: map<int, seq<Packet>>, s: int): nat
    decreases s + 1
  {
    if s < -1 then 0 else HeldUpTo(held, s - 1) + if s in held then |held[s]| else 0
  }

  /** Every packet ever put and not flushed. */
  function Total(a: Link): nat { |a.line| + HeldUpTo(a.held, 254) }

  lemma {:induction false} HeldAfterUpdate(held: map<int, seq<Packet>>, t: int, q: seq<Packet>, s: int)
    requires t in held
    ensures HeldUpTo(held[t := q], s) == HeldUpTo(held, s) + if -1 <= t <= s then |q| - |held[t]| else 0
    decreases s + 1
  {
    if s >= -1 { HeldAfterUpdate(held, t, q, s - 1); }
  }

  lemma PopKeepsTotal(a: Link)
    requires Shape(a) && a.popped < |a.line|
    ensures Total(Pop(a)) == Total(a)
  {
    hide HeldUpTo, FirstLength;
    var p := a.line[a.popped];
    if p.stream != URGENT && p.trailer && a.held[p.stream] != [] {
      HeldAfterUpdate(a.held, p.stream, a.held[p.stream][FirstLength(a.held[p.stream])..], 254);
    }
  }

  lemma PutPacketTotal(a: Link, p: Packet)
    requires Shape(a)
    ensures Total(PutPacket(a, p)) == Total(a) + 1
  {
    hide HeldUpTo;
    if Holds(a, p) { HeldAfterUpdate(a.held, p.stream, a.held[p.stream] + [p], 254); }
    if GoesAtOnce(a, p) { PopKeepsTotal(Enqueue(a, p)); }
  }

  lemma {:induction false} PutAllTotal(a: Link, ps: seq<Packet>)
    requires Shape(a)
    ensures Total(PutAll(a, ps)) == Total(a) + |ps|
    decreases |ps|
  {
    if ps != [] {
      hide Total, PutPacket;
      PutPacketTotal(a, ps[0]);
      PutAllTotal(PutPacket(a, ps[0]), ps[1..]);
    }
  }

  /** An acknowledgement neither makes packets nor loses any; it frees one if it was waited for. */
  lemma AckKeepsTotal(a: Link, id: nat)
    requires Shape(a)
    ensures Total(Ack(a, id)) == Total(a)
    ensures id in a.inflight ==> |Ack(a, id).inflight| - Ack(a, id).popped == |a.inflight| - a.popped - 1
  {
    var k := Find(a.inflight, id);
    if k < |a.inflight| && a.popped < |a.line| { PopKeepsTotal(Free(a, k)); }
  }
}
