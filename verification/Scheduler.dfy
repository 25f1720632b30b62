/**
 The packet scheduler of packet.c on values: what PutInQueue, PoppedPacket, AckReceived and
 FlushStream do to the wire order.  The linked queues themselves, and the mutual recursion that
 moves packets between them, are in module LinkSender; here one call is one non-recursive step.
 */
module Scheduler {
  import opened Bytes

  const WINDOW_SIZE := 8
  const PACKET_MAX := 512
  const URGENT := -2

  /** -2 is the urgent stream, -1..254 are the ordinary ones. */
  type Stream = s: int | -2 <= s <= 254

  datatype Packet = Packet(stream: Stream, leader: bool, trailer: bool, data: bytes)
  datatype Message = Message(stream: Stream, data: bytes)

  /** How PacketTransmitData cuts a message. */
  function Packetise(stream: Stream, data: bytes, leader: bool): (ps: seq<Packet>)
    ensures ps != []
    decreases |data|
  {
    if |data| > PACKET_MAX then
      [Packet(stream, leader, false, data[..PACKET_MAX])] + Packetise(stream, data[PACKET_MAX..], false)
    else
      [Packet(stream, leader, true, data)]
  }

  function Packets(m: Message): (ps: seq<Packet>)
    ensures ps != []
  {
    Packetise(m.stream, m.data, true)
  }

  /** The packets of one stream `s`, from some point of a message to its trailer. */
  ghost predicate Run(ps: seq<Packet>, s: Stream, leader: bool) {
    && ps != []
    && ps[0].leader == leader
    && (forall i :: 0 <= i < |ps| ==> ps[i].stream == s && (ps[i].trailer <==> i == |ps| - 1))
    && (forall i :: 0 < i < |ps| ==> !ps[i].leader)
  }

  /**
   The sender of one direction of the link.
   `line` holds every packet that was ever put in ppqList, in that order: a packet's position is
   the id InitHead gives it.  The first `popped` of them have left ppqList; those not acknowledged
   yet are `inflight` (ppqSent, in queue order).  `held` are the streams' hold-back queues
   (appqStreams), `busy` the streams whose bit is set in aiStreams, and `log` lists the ids of all
   frames handed to TransmitPacket so far.
   */
  datatype Link = Link(
    line: seq<Packet>,
    popped: nat,
    inflight: seq<nat>,
    held: map<int, seq<Packet>>,
    busy: set<int>,
    log: seq<nat>)

  predicate Ordinary(s: int) { -1 <= s <= 254 }

  ghost predicate Shape(a: Link) {
    && a.popped <= |a.line|
    && forall s :: Ordinary(s) ==> s in a.held
  }

  const INITIAL := Link([], 0, [], map s: int | -1 <= s <= 254 :: [], {}, [])

  /**
   Number of packets up to and including the first trailer.  (Without one the source would run off
   the end of the queue; LinkSender.Sender.PoppedPacket shows that it always finds one.)
   */
  function FirstLength(q: seq<Packet>): (n: nat)
    ensures n <= |q|
    ensures forall i :: 0 <= i < n - 1 ==> !q[i].trailer
    ensures n < |q| ==> n > 0 && q[n - 1].trailer
  {
    if q == [] then 0 else if q[0].trailer then 1 else 1 + FirstLength(q[1..])
  }

  ghost predicate HasTrailer(q: seq<Packet>) { exists i :: 0 <= i < |q| && q[i].trailer }

  /** PoppedPacket's decision when a packet `p` has just left ppqList. */
  function Settle(a: Link, p: Packet): (b: Link)
    requires Shape(a)
    ensures Shape(b)
  {
    if p.stream == URGENT || !p.trailer then a
    else if a.held[p.stream] == [] then a.(busy := a.busy - {p.stream})
    else
      var q := a.held[p.stream];
      var n := FirstLength(q);
      a.(line := a.line + q[..n], held := a.held[p.stream := q[n..]])
  }

  /** The head of ppqList is moved to ppqSent and transmitted. */
  function Pop(a: Link): (b: Link)
    requires Shape(a) && a.popped < |a.line|
    ensures Shape(b)
  {
    Settle(a.(popped := a.popped + 1, inflight := a.inflight + [a.popped], log := a.log + [a.popped]),
           a.line[a.popped])
  }

  /** Is a packet kept back, rather than queued for the line? */
  predicate Holds(a: Link, p: Packet)
    requires Shape(a)
  {
    p.stream != URGENT && p.stream in a.busy && (a.held[p.stream] != [] || p.leader)
  }

  function Enqueue(a: Link, p: Packet): (b: Link)
    requires Shape(a)
    ensures Shape(b)
  {
    if Holds(a, p) then a.(held := a.held[p.stream := a.held[p.stream] + [p]])
    else a.(line := a.line + [p], busy := if p.stream == URGENT then a.busy else a.busy + {p.stream})
  }

  /** The new packet heads ppqList and the window is open. */
  predicate GoesAtOnce(a: Link, p: Packet)
    requires Shape(a)
  {
    !Holds(a, p) && a.popped == |a.line| && |a.inflight| < WINDOW_SIZE
  }

  /** SendPacket. */
  function PutPacket(a: Link, p: Packet): (b: Link)
    requires Shape(a)
    ensures Shape(b)
  {
    if GoesAtOnce(a, p) then Pop(Enqueue(a, p)) else Enqueue(a, p)
  }

  /** Position of `id` in ppqSent, or the queue's length. */
  function Find(ids: seq<nat>, id: nat): (k: nat)
    ensures k <= |ids|
    ensures k < |ids| ==> ids[k] == id
    ensures id !in ids[..k]
    ensures k == |ids| <==> id !in ids
  {
    if ids == [] then 0 else if ids[0] == id then 0 else
      var k := Find(ids[1..], id);
      assert ids[..k + 1] == [ids[0]] + ids[1..][..k];
      assert ids == [ids[0]] + ids[1..];
      k + 1
  }

  /** Everything before position `k` is sent again and moves to the back; the packet at `k` is freed. */
  function Free(a: Link, k: nat): (b: Link)
    requires Shape(a) && k < |a.inflight|
    ensures Shape(b)
  {
    a.(inflight := a.inflight[k + 1..] + a.inflight[..k], log := a.log + a.inflight[..k])
  }

  /** AckReceived. */
  function Ack(a: Link, id: nat): (b: Link)
    requires Shape(a)
    ensures Shape(b)
  {
    var k := Find(a.inflight, id);
    if k == |a.inflight| then a
    else if a.popped < |a.line| then Pop(Free(a, k))
    else Free(a, k)
  }

  /** TimeoutReceived. */
  function Timeout(a: Link): Link { a.(log := a.log + a.inflight) }

  /** FlushStream. */
  function Flush(a: Link, s: int): Link
    requires Ordinary(s)
  {
    a.(held := a.held[s := []])
  }

  function PutAll(a: Link, ps: seq<Packet>): (b: Link)
    requires Shape(a)
    ensures Shape(b)
    decreases |ps|
  {
    if ps == [] then a else PutAll(PutPacket(a, ps[0]), ps[1..])
  }

  /** PacketTransmitData: a whole message is cut up and put. */
  function Put(a: Link, m: Message): (b: Link)
    requires Shape(a)
    ensures Shape(b)
  {
    PutAll(a, Packets(m))
  }

  // ---------------------------------------------------------------------------------------------
  // Whole messages
  // ---------------------------------------------------------------------------------------------

  function Flatten(ms: seq<Message>): seq<Packet> {
    if ms == [] then [] else Packets(ms[0]) + Flatten(ms[1..])
  }

  /**
   The messages behind a link state: on the line in wire order, and held back per stream.
   `released` are the positions in `msgs` of messages that had been held back.
   */
  datatype Schedule = Schedule(msgs: seq<Message>, held: map<int, seq<Message>>, released: set<nat>)

  const NOTHING := Schedule([], map s: int | -1 <= s <= 254 :: [], {})

  ghost predicate Unfinished(a: Link, s: int) {
    a.popped <= |a.line| && exists i :: a.popped <= i < |a.line| && a.line[i].trailer && a.line[i].stream == s
  }

  /** Unacknowledged packets are distinct, and exactly the popped packets have been transmitted. */
  ghost predicate Logged(a: Link) {
    && (forall i, j :: 0 <= i < j < |a.inflight| ==> a.inflight[i] != a.inflight[j])
    && (forall i :: 0 <= i < |a.inflight| ==> a.inflight[i] < a.popped)
    && (forall id :: id in a.log <==> 0 <= id < a.popped)
  }

  /** The window invariant: work conserving, never over-full. */
  ghost predicate Window(a: Link) {
    && |a.inflight| <= WINDOW_SIZE
    && (a.popped < |a.line| ==> |a.inflight| == WINDOW_SIZE)
    && Logged(a)
  }

  /** At most one message of each ordinary stream is still on its way through ppqList. */
  ghost predicate OneEach(a: Link) {
    forall i, j ::
      a.popped <= i < j < |a.line| && a.line[i].trailer && a.line[j].trailer && a.line[i].stream != URGENT ==>
        a.line[i].stream != a.line[j].stream
  }

  ghost predicate BusyMeansUnfinished(a: Link) {
    && (forall s :: s in a.busy ==> Ordinary(s))
    && (forall s :: Ordinary(s) ==> (s in a.busy <==> Unfinished(a, s)))
  }

  ghost predicate Represents(a: Link, c: Schedule) {
    && Shape(a)
    && a.line == Flatten(c.msgs)
    && forall s :: Ordinary(s) ==>
         && s in c.held
         && a.held[s] == Flatten(c.held[s])
         && (forall m <- c.held[s] :: m.stream == s)
         && (c.held[s] != [] ==> s in a.busy)
  }

  /** What holds whenever the sender is not in the middle of a call. */
  ghost predicate Quiescent(a: Link, c: Schedule) {
    Represents(a, c) && Window(a) && OneEach(a) && BusyMeansUnfinished(a)
  }
}
