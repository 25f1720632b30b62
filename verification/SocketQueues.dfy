/** The byte queues at a socket's two ends: what is still to be sent to it, and still to be read. */
module SocketQueues {
  import opened Wrappers
  import opened Bytes

  // ---------------------------------------------------------------------------------------------
  // Queued blocks
  // ---------------------------------------------------------------------------------------------

  /** An internet address, if there is one. */
  type address = Option<int>

  /** A block of bytes, the part that has been dealt with, and the address it goes to or comes from. */
  datatype Block = Block(data: bytes, used: nat, peer: address)

  predicate Good(b: Block) { b.used <= |b.data| }

  /** Bytes, each with its address. */
  function Tagged(data: bytes, peer: address): (t: seq<(byte, address)>)
    ensures |t| == |data| && forall i :: 0 <= i < |t| ==> t[i] == (data[i], peer)
  {
    seq(|data|, i requires 0 <= i < |data| => (data[i], peer))
  }

  function Left(b: Block): bytes
    requires Good(b)
  {
    b.data[b.used..]
  }

  predicate AllGood(blocks: seq<Block>) { forall b <- blocks :: Good(b) }

  /** What a queue still holds, in order. */
  function Remainder(blocks: seq<Block>): seq<(byte, address)>
    requires AllGood(blocks)
  {
    if blocks == [] then [] else Tagged(Left(blocks[0]), blocks[0].peer) + Remainder(blocks[1..])
  }

  /** `n` bytes are taken from the front block; the block goes once it is used up. */
  function Take(blocks: seq<Block>, n: nat): (r: seq<Block>)
    requires AllGood(blocks) && blocks != [] && n <= |Left(blocks[0])|
    ensures AllGood(r)
  {
    var b := blocks[0].(used := blocks[0].used + n);
    if b.used == |b.data| then blocks[1..] else [b] + blocks[1..]
  }

  lemma {:induction false} RemainderAppend(blocks: seq<Block>, b: Block)
    requires AllGood(blocks) && Good(b)
    ensures AllGood(blocks + [b]) && Remainder(blocks + [b]) == Remainder(blocks) + Tagged(Left(b), b.peer)
  {
    if blocks == [] {
      assert blocks + [b] == [b];
      assert Remainder([b]) == Tagged(Left(b), b.peer) + Remainder([]);
    } else {
      assert (blocks + [b])[1..] == blocks[1..] + [b];
      RemainderAppend(blocks[1..], b);
    }
  }

  /** What is taken was in front, and the rest stays. */
  lemma TakeTakes(blocks: seq<Block>, n: nat)
    requires AllGood(blocks) && blocks != [] && n <= |Left(blocks[0])|
    ensures Remainder(blocks) == Tagged(Left(blocks[0])[..n], blocks[0].peer) + Remainder(Take(blocks, n))
  {
    hide Tagged, Remainder;
    var left, peer := Left(blocks[0]), blocks[0].peer;
    var rest := Take(blocks, n);
    RemainderIs(blocks);
    TaggedSplits(left, peer, n);
    if n < |left| {
      RemainderIs(rest);
      assert Left(rest[0]) == left[n..] && rest[1..] == blocks[1..];
      Regroup(Tagged(left[..n], peer), Tagged(left[n..], peer), Remainder(blocks[1..]));
    } else {
      assert Tagged(left[..n], peer) + Tagged(left[n..], peer) == Tagged(left[..n], peer);
    }
  }

  lemma RemainderIs(blocks: seq<Block>)
    requires AllGood(blocks) && blocks != []
    ensures AllGood(blocks[1..]) && Good(blocks[0])
    ensures Remainder(blocks) == Tagged(Left(blocks[0]), blocks[0].peer) + Remainder(blocks[1..])
  {
  }

  lemma TaggedSplits(data: bytes, peer: address, n: nat)
    requires n <= |data|
    ensures Tagged(data, peer) == Tagged(data[..n], peer) + Tagged(data[n..], peer)
  {
  }

  // ---------------------------------------------------------------------------------------------
  // Sending
  // ---------------------------------------------------------------------------------------------

  /** What sendto answers: how much it took, or an error that passes, or one that does not. */
  datatype Outcome = Wrote(n: nat) | TryLater | Failed

  /** `watched`: select waits until the socket can be written; `dead`: a write has failed for good. */
  datatype Sending = Sending(blocks: seq<Block>, accepted: seq<(byte, address)>, watched: bool, dead: bool)

  datatype Send =
    | Queue(data: bytes, peer: address, outcome: Outcome)
    | Ready(outcome: Outcome)

  /** sendto takes at most what it is given. */
  predicate Possible(blocks: seq<Block>, o: Outcome)
    requires AllGood(blocks)
  {
    blocks != [] && o.Wrote? ==> o.n <= |Left(blocks[0])|
  }

  /** WriteSocketData. */
  function Write(s: Sending, o: Outcome): Sending
    requires AllGood(s.blocks) && Possible(s.blocks, o)
  {
    if s.blocks == [] then s
    else
      match o
      case Wrote(n) =>
        var taken := Tagged(Left(s.blocks[0])[..n], s.blocks[0].peer);
        var rest := Take(s.blocks, n);
        s.(blocks := rest, accepted := s.accepted + taken, watched := s.watched || rest != [])
      case TryLater => s.(watched := true)
      case Failed => s.(dead := true)
  }

  function Queued(s: Sending, data: bytes, peer: address): Sending {
    s.(blocks := s.blocks + [Block(data, 0, peer)])
  }

  predicate Allowed(s: Sending, e: Send)
    requires AllGood(s.blocks)
  {
    match e
    case Queue(data, _, o) => s.blocks == [] && o.Wrote? ==> o.n <= |data|
    case Ready(o) => Possible(s.blocks, o)
  }

  /** The first block in a queue is tried at once; after that the socket is written to when it is ready. */
  function Sent(s: Sending, e: Send): Sending
    requires AllGood(s.blocks) && Allowed(s, e)
  {
    match e
    case Queue(data, peer, o) =>
      var s' := Queued(s, data, peer);
      if s.blocks == [] then Write(s', o) else s'
    case Ready(o) => Write(s.(watched := false), o)
  }

  lemma SendKeepsGood(s: Sending, e: Send)
    requires AllGood(s.blocks) && Allowed(s, e)
    ensures AllGood(Sent(s, e).blocks)
  {
  }

  /** A run of the queue, and whether sendto's answers in it are possible. */
  predicate AllAllowed(s: Sending, es: seq<Send>)
    requires AllGood(s.blocks)
    decreases |es|
  {
    es == [] || (Allowed(s, es[0]) && (SendKeepsGood(s, es[0]); AllAllowed(Sent(s, es[0]), es[1..])))
  }

  function After(s: Sending, es: seq<Send>): (r: Sending)
    requires AllGood(s.blocks) && AllAllowed(s, es)
    ensures AllGood(r.blocks)
    decreases |es|
  {
    if es == [] then s else SendKeepsGood(s, es[0]); After(Sent(s, es[0]), es[1..])
  }

  /** All that was ever queued, in order. */
  function AllQueued(es: seq<Send>): seq<(byte, address)> {
    if es == [] then []
    else (match es[0] case Queue(data, peer, _) => Tagged(data, peer) case Ready(_) => []) + AllQueued(es[1..])
  }

  lemma WriteConserves(s: Sending, o: Outcome)
    requires AllGood(s.blocks) && Possible(s.blocks, o)
    ensures var s' := Write(s, o);
      && AllGood(s'.blocks) && s'.accepted + Remainder(s'.blocks) == s.accepted + Remainder(s.blocks)
      && |s'.accepted| == |s.accepted| + if s.blocks != [] && o.Wrote? then o.n else 0
  {
    hide Tagged, Take, Remainder;
    if s.blocks != [] && o.Wrote? {
      TakeTakes(s.blocks, o.n);
    }
  }

  /** How many bytes sendto takes: none if it is not called, or answers an error. */
  function TakenNow(s: Sending, e: Send): nat {
    var called := if e.Queue? then s.blocks == [] else s.blocks != [];
    if called && e.outcome.Wrote? then e.outcome.n else 0
  }

  lemma SendConserves(s: Sending, e: Send)
    requires AllGood(s.blocks) && Allowed(s, e)
    ensures var s' := Sent(s, e);
      && AllGood(s'.blocks)
      && s'.accepted + Remainder(s'.blocks) == s.accepted + Remainder(s.blocks) + AllQueued([e])
      && |s'.accepted| == |s.accepted| + TakenNow(s, e)
  {
    hide Tagged, Take, Remainder, Write;
    assert AllQueued([e][1..]) == [];
    match e
    case Queue(data, peer, o) =>
      RemainderAppend(s.blocks, Block(data, 0, peer));
      assert Left(Block(data, 0, peer)) == data;
      if s.blocks == [] { WriteConserves(Queued(s, data, peer), o); }
    case Ready(o) =>
      WriteConserves(s.(watched := false), o);
  }

  /**
   Whatever sendto answers, what the socket has accepted and what is still queued are together what
   was queued: no byte is lost, doubled, out of order, or sent to another's address.
   */
  lemma {:induction false} NothingIsLostSending(s: Sending, es: seq<Send>)
    requires AllGood(s.blocks) && AllAllowed(s, es)
    ensures var r := After(s, es);
      && r.accepted + Remainder(r.blocks) == s.accepted + Remainder(s.blocks) + AllQueued(es)
      && |r.accepted| == |s.accepted| + TakenInAll(s, es)
    decreases |es|
  {
    hide Remainder, Sent, Allowed, TakenNow;
    if es != [] {
      SendConserves(s, es[0]);
      NothingIsLostSending(Sent(s, es[0]), es[1..]);
      assert AllQueued(es) == AllQueued([es[0]]) + AllQueued(es[1..]);
    }
  }

  /** How many bytes sendto has taken in a run. */
  function TakenInAll(s: Sending, es: seq<Send>): nat
    requires AllGood(s.blocks) && AllAllowed(s, es)
    decreases |es|
  {
    if es == [] then 0
    else (SendKeepsGood(s, es[0]); TakenNow(s, es[0]) + TakenInAll(Sent(s, es[0]), es[1..]))
  }

  /** While anything is queued for a socket that lives, select watches it. */
  predicate Served(s: Sending) { s.blocks != [] && !s.dead ==> s.watched }

  /** No answer in the run was an error that does not pass. */
  predicate NoneFailed(es: seq<Send>) { forall e <- es :: e.outcome != Failed }

  lemma {:induction false} QueuesAreServed(s: Sending, es: seq<Send>)
    requires AllGood(s.blocks) && AllAllowed(s, es) && Served(s)
    ensures Served(After(s, es))
    ensures !s.dead && NoneFailed(es) ==> (After(s, es).blocks != [] ==> After(s, es).watched) && !After(s, es).dead
    decreases |es|
  {
    if es != [] {
      SendKeepsGood(s, es[0]);
      QueuesAreServed(Sent(s, es[0]), es[1..]);
    }
  }

  /** And only then: select never wakes up for a socket that nothing is queued for. */
  lemma {:induction false} NeverWatchedIdly(s: Sending, es: seq<Send>)
    requires AllGood(s.blocks) && AllAllowed(s, es) && (s.watched ==> s.blocks != [])
    ensures var r := After(s, es); r.watched ==> r.blocks != []
    decreases |es|
  {
    if es != [] {
      SendKeepsGood(s, es[0]);
      hide Tagged;
      NeverWatchedIdly(Sent(s, es[0]), es[1..]);
    }
  }

  /** The host's entry for a socket. */
  class SocketEntry {
    var blocks: seq<Block>
    var watched: bool
    ghost var accepted: seq<(byte, address)>
    ghost var dead: bool

    ghost predicate Valid()
      reads this
    {
      AllGood(blocks) && Served(State())
    }

    ghost function State(): Sending
      reads this
    {
      Sending(blocks, accepted, watched, dead)
    }

    constructor ()
      ensures Valid() && State() == Sending([], [], false, false)
    {
      blocks, watched, accepted, dead := [], false, [], false;
    }

    /** QueueSendRequest; `outcome` is what sendto answers if it is called. */
    method QueueSendRequest(data: bytes, peer: address, outcome: Outcome)
      requires Valid() && Allowed(State(), Queue(data, peer, outcome))
      modifies this
      ensures Valid() && State() == Sent(old(State()), Queue(data, peer, outcome))
    {
      var first := |blocks| == 0;
      blocks := blocks + [Block(data, 0, peer)];
      if first {
        WriteSocketData(outcome);
      }
    }

    method WriteSocketData(outcome: Outcome)
      requires AllGood(blocks) && Possible(blocks, outcome)
      modifies this
      ensures State() == Write(old(State()), outcome) && AllGood(blocks)
    {
      if blocks == [] {
        return;
      }
      match outcome
      case Wrote(n) =>
        var head := blocks[0];
        accepted := accepted + Tagged(Left(head)[..n], head.peer);
        head := head.(used := head.used + n);
        blocks := blocks[1..];
        if head.used < |head.data| {
          blocks := [head] + blocks;
        }
        if |blocks| > 0 {
          watched := true;
        }
      case TryLater =>
        watched := true;
      case Failed =>
        dead := true;
    }

    /** The host's main loop, when select says that the socket can be written. */
    method CanWrite(outcome: Outcome)
      requires Valid() && Possible(blocks, outcome)
      modifies this
      ensures Valid() && State() == Sent(old(State()), Ready(outcome))
    {
      watched := false;
      WriteSocketData(outcome);
    }
  }

  // ---------------------------------------------------------------------------------------------
  // Receiving
  // ---------------------------------------------------------------------------------------------

  /** What the application has been given, and what it has not asked for yet. */
  datatype Receiving = Receiving(blocks: seq<Block>, returned: seq<(byte, address)>)

  /** What malloc gives: all that is asked for, no list entry, or an entry but no room for the data. */
  datatype Memory = Enough | NoEntry | NoData

  datatype Receive =
    | Arrives(data: bytes, peer: address, memory: Memory)
    | Reads(len: nat)

  /** Without memory the data are lost; without room for them the application is told of an end. */
  function Kept(data: bytes, memory: Memory): bytes { if memory == Enough then data else [] }

  /** How much recvfrom gives: no more than is asked for, and no more than one block holds. */
  function Given(blocks: seq<Block>, len: nat): nat
    requires AllGood(blocks) && blocks != []
  {
    if len > |Left(blocks[0])| then |Left(blocks[0])| else len
  }

  /** recvfrom waits until there is something to give. */
  function Received(s: Receiving, e: Receive): (r: Receiving)
    requires AllGood(s.blocks) && (e.Reads? ==> s.blocks != [])
    ensures AllGood(r.blocks)
  {
    match e
    case Arrives(data, peer, memory) =>
      if memory == NoEntry then s else s.(blocks := s.blocks + [Block(Kept(data, memory), 0, peer)])
    case Reads(len) =>
      var n := Given(s.blocks, len);
      Receiving(Take(s.blocks, n), s.returned + Tagged(Left(s.blocks[0])[..n], s.blocks[0].peer))
  }

  predicate NeverEmpty(s: Receiving, es: seq<Receive>)
    requires AllGood(s.blocks)
    decreases |es|
  {
    es == [] || ((es[0].Reads? ==> s.blocks != []) && NeverEmpty(Received(s, es[0]), es[1..]))
  }

  function AfterAll(s: Receiving, es: seq<Receive>): (r: Receiving)
    requires AllGood(s.blocks) && NeverEmpty(s, es)
    ensures AllGood(r.blocks)
    decreases |es|
  {
    if es == [] then s else AfterAll(Received(s, es[0]), es[1..])
  }

  /** All that arrived while there was memory for it, in order. */
  function AllArrived(es: seq<Receive>): seq<(byte, address)> {
    if es == [] then []
    else
      (match es[0]
       case Arrives(data, peer, memory) => if memory == Enough then Tagged(data, peer) else []
       case Reads(_) => [])
      + AllArrived(es[1..])
  }

  /** As much as is asked for, or all there is of the first block. */
  function GivenNow(s: Receiving, len: nat): nat
    requires s.blocks != [] && AllGood(s.blocks)
  {
    assert Good(s.blocks[0]);
    var there := |s.blocks[0].data| - s.blocks[0].used;
    if len < there then len else there
  }

  lemma ReceiveConserves(s: Receiving, e: Receive)
    requires AllGood(s.blocks) && (e.Reads? ==> s.blocks != [])
    ensures var s' := Received(s, e);
      && s'.returned + Remainder(s'.blocks) == s.returned + Remainder(s.blocks) + AllArrived([e])
      && |s'.returned| == |s.returned| + if e.Reads? then GivenNow(s, e.len) else 0
  {
    hide Tagged, Take, Remainder;
    assert AllArrived([e][1..]) == [];
    match e
    case Arrives(data, peer, memory) =>
      if memory == NoEntry {
        assert Tagged([], peer) == [];
      } else {
        assert Tagged([], peer) == [];
        RemainderAppend(s.blocks, Block(Kept(data, memory), 0, peer));
        assert Left(Block(Kept(data, memory), 0, peer)) == Kept(data, memory);
      }
    case Reads(len) =>
      TakeTakes(s.blocks, Given(s.blocks, len));
  }

  /** However much is asked for at a time, what is returned and what is left are together what arrived and was kept. */
  lemma {:induction false} NothingIsLostReceiving(s: Receiving, es: seq<Receive>)
    requires AllGood(s.blocks) && NeverEmpty(s, es)
    ensures var r := AfterAll(s, es);
      r.returned + Remainder(r.blocks) == s.returned + Remainder(s.blocks) + AllArrived(es)
    decreases |es|
  {
    hide Remainder, Received;
    if es != [] {
      ReceiveConserves(s, es[0]);
      NothingIsLostReceiving(Received(s, es[0]), es[1..]);
      assert AllArrived(es) == AllArrived([es[0]]) + AllArrived(es[1..]);
    }
  }

  /** The application's side of a socket. */
  class PerSocket {
    var blocks: seq<Block>
    ghost var returned: seq<(byte, address)>

    ghost function State(): Receiving
      reads this
    {
      Receiving(blocks, returned)
    }

    constructor ()
      ensures State() == Receiving([], [])
    {
      blocks, returned := [], [];
    }

    method FunctionReceived(data: bytes, peer: address, memory: Memory)
      requires AllGood(blocks)
      modifies this
      ensures AllGood(blocks) && State() == Received(old(State()), Arrives(data, peer, memory))
    {
      if memory == NoEntry {
        return;
      }
      var pchData := [];
      if memory == Enough {
        pchData := data;
      }
      blocks := blocks + [Block(pchData, 0, peer)];
    }

    /** recvfrom, once something has arrived. */
    method RecvFrom(buf: array<byte>, len: nat) returns (n: nat, peer: address)
      requires AllGood(blocks) && blocks != [] && len <= buf.Length
      modifies this, buf
      ensures AllGood(blocks) && State() == Received(old(State()), Reads(len))
      ensures n == Given(old(blocks), len) && peer == old(blocks[0].peer)
      ensures buf[..n] == old(Left(blocks[0])[..n]) && buf[n..] == old(buf[n..])
    {
      var head := blocks[0];
      assert Good(head);
      peer := head.peer;
      n := len;
      if n > |head.data| - head.used {
        n := |head.data| - head.used;
      }
      for i := 0 to n
        invariant buf[..i] == Left(head)[..i] && buf[n..] == old(buf[n..])
        invariant State() == old(State())
      {
        buf[i] := head.data[head.used + i];
      }
      returned := returned + Tagged(Left(head)[..n], peer);
      head := head.(used := head.used + n);
      blocks := blocks[1..];
      if head.used < |head.data| {
        blocks := [head] + blocks;
      }
    }
  }
}
