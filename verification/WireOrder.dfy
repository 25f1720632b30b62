/** Runs of the scheduler: whole messages, in order within each stream, the line shared fairly. */
module WireOrder {
  import opened Bytes
  import opened Scheduler
  import opened SchedulerSteps

  datatype Event = PutEvent(m: Message) | AckEvent(id: nat) | FlushEvent(stream: int) | TimeoutEvent

  datatype State = State(link: Link, sched: Schedule)

  const START := State(INITIAL, NOTHING)

  function Step(x: State, e: Event): State
    requires Quiescent(x.link, x.sched)
  {
    match e
    case PutEvent(m) => State(Put(x.link, m), PutMessage(x.link, x.sched, m))
    case AckEvent(id) => State(Ack(x.link, id), AckMessage(x.link, x.sched, id))
    case TimeoutEvent => State(Timeout(x.link), x.sched)
    case FlushEvent(s) =>
      if Ordinary(s) then State(Flush(x.link, s), FlushMessages(x.sched, s)) else x
  }

  lemma StepKeepsQuiescent(x: State, e: Event)
    requires Quiescent(x.link, x.sched)
    ensures Quiescent(Step(x, e).link, Step(x, e).sched)
  {
    match e
    case PutEvent(m) => PutKeepsQuiescent(x.link, x.sched, m);
    case AckEvent(id) => AckKeepsQuiescent(x.link, x.sched, id);
    case TimeoutEvent => TimeoutKeepsQuiescent(x.link, x.sched);
    case FlushEvent(s) => if Ordinary(s) { FlushKeepsQuiescent(x.link, x.sched, s); }
  }

  /** The state after any sequence of events. */
  function After(es: seq<Event>): (x: State)
    ensures Quiescent(x.link, x.sched)
  {
    if es == [] then START
    else
      var x := After(es[..|es| - 1]);
      StepKeepsQuiescent(x, es[|es| - 1]);
      Step(x, es[|es| - 1])
  }

  // ---------------------------------------------------------------------------------------------
  // First in, first out
  // ---------------------------------------------------------------------------------------------

  /** The messages of one stream, in order. */
  function Of(ms: seq<Message>, s: int): (r: seq<Message>)
    ensures forall m <- r :: m.stream == s
  {
    if ms == [] then [] else Of(ms[..|ms| - 1], s) + if ms[|ms| - 1].stream == s then [ms[|ms| - 1]] else []
  }

  /** What was put on a stream, less what a flush threw away before it reached the line. */
  function Accepted(es: seq<Event>, s: int): seq<Message> {
    if es == [] then []
    else
      var before := es[..|es| - 1];
      match es[|es| - 1]
      case PutEvent(m) => Accepted(before, s) + if m.stream == s then [m] else []
      case FlushEvent(t) =>
        if t == s && Ordinary(s) then Of(After(before).sched.msgs, s) else Accepted(before, s)
      case _ => Accepted(before, s)
  }

  function Waiting(c: Schedule, s: int): seq<Message> {
    if Ordinary(s) && s in c.held then c.held[s] else []
  }

  lemma OfSnoc(ms: seq<Message>, m: Message, s: int)
    ensures Of(ms + [m], s) == Of(ms, s) + if m.stream == s then [m] else []
  {
    assert (ms + [m])[..|ms|] == ms;
  }

  function Queued(c: Schedule, s: int): seq<Message> { Of(c.msgs, s) + Waiting(c, s) }

  lemma QueuedAfterPop(a: Link, c: Schedule, s: Stream)
    requires Represents(a, c) && a.popped < |a.line|
    ensures Queued(PopMessage(a, c), s) == Queued(c, s)
  {
    hide Of, Flatten;
    var t := a.line[a.popped].stream;
    if Ordinary(t) && c.held[t] != [] {
      var m, rest := c.held[t][0], c.held[t][1..];
      OfSnoc(c.msgs, m, s);
      assert m in c.held[t] && c.held[t] == [m] + rest;
      Regroup(Of(c.msgs, s), [m], rest);
    }
  }

  lemma QueuedAfterStep(x: State, e: Event, s: Stream)
    requires Quiescent(x.link, x.sched)
    ensures Queued(Step(x, e).sched, s) ==
      match e
      case PutEvent(m) => Queued(x.sched, s) + if m.stream == s then [m] else []
      case FlushEvent(t) => if t == s && Ordinary(s) then Of(x.sched.msgs, s) else Queued(x.sched, s)
      case _ => Queued(x.sched, s)
  {
    hide Put, Ack, Flush, Timeout, Window, OneEach, BusyMeansUnfinished, PopMessage, Flatten;
    match e
    case PutEvent(m) => OfSnoc(x.sched.msgs, m, s);
    case AckEvent(id) =>
      if id in x.link.inflight && x.link.popped < |x.link.line| { QueuedAfterPop(x.link, x.sched, s); }
    case _ =>
  }

  /**
   For every run and every stream: the stream's messages on the line, followed by those still held
   back, are exactly the accepted ones in the order they were put.
   */
  lemma {:induction false} FirstInFirstOut(es: seq<Event>, s: Stream)
    ensures Queued(After(es).sched, s) == Accepted(es, s)
  {
    if es != [] {
      var before, e := es[..|es| - 1], es[|es| - 1];
      FirstInFirstOut(before, s);
      QueuedAfterStep(After(before), e, s);
    }
  }

  function PutOn(es: seq<Event>, s: int): seq<Message> {
    if es == [] then []
    else
      PutOn(es[..|es| - 1], s) +
      match es[|es| - 1]
      case PutEvent(m) => if m.stream == s then [m] else []
      case _ => []
  }

  /** A stream that is never flushed loses nothing; the urgent stream cannot be flushed. */
  lemma {:induction false} NothingLostWithoutFlush(es: seq<Event>, s: Stream)
    requires s == URGENT || FlushEvent(s) !in es
    ensures Queued(After(es).sched, s) == PutOn(es, s)
  {
    FirstInFirstOut(es, s);
    AcceptedIsPut(es, s);
  }

  lemma {:induction false} AcceptedIsPut(es: seq<Event>, s: Stream)
    requires s == URGENT || FlushEvent(s) !in es
    ensures Accepted(es, s) == PutOn(es, s)
  {
    if es != [] {
      AcceptedIsPut(es[..|es| - 1], s);
    }
  }

  // ---------------------------------------------------------------------------------------------
  // Fairness
  // ---------------------------------------------------------------------------------------------

  /** The position on the line just after message `k`. */
  function End(ms: seq<Message>, k: nat): nat
    requires k < |ms|
  {
    |Flatten(ms[..k + 1])|
  }

  lemma EndsAtTrailer(ms: seq<Message>, k: nat)
    requires k < |ms|
    ensures 0 < End(ms, k) <= |Flatten(ms)|
    ensures var p := Flatten(ms)[End(ms, k) - 1]; p.trailer && p.stream == ms[k].stream
  {
    var front, m, back := ms[..k], ms[k], ms[k + 1..];
    assert ms[..k + 1] == front + [m];
    assert ms == ms[..k + 1] + back;
    FlattenAppend(ms[..k + 1], back);
    FlattenAppend(front, [m]);
    FlattenOne(m);
    PacketiseRun(m.stream, m.data, true);
  }

  lemma EndsIncrease(ms: seq<Message>, i: nat, j: nat)
    requires i < j < |ms|
    ensures End(ms, i) < End(ms, j)
  {
    assert ms[..j + 1][..i + 1] == ms[..i + 1];
    assert ms[..j + 1] == ms[..i + 1] + ms[i + 1..j + 1];
    FlattenAppend(ms[..i + 1], ms[i + 1..j + 1]);
  }

  lemma {:induction false} OwnerOfTrailer(ms: seq<Message>, p: nat) returns (k: nat)
    requires p < |Flatten(ms)| && Flatten(ms)[p].trailer
    ensures k < |ms| && End(ms, k) == p + 1
    decreases |ms|
  {
    var n := |Packets(ms[0])|;
    PacketiseRun(ms[0].stream, ms[0].data, true);
    if p < n {
      k := 0;
      assert ms[..1] == [ms[0]];
      FlattenOne(ms[0]);
    } else {
      var j := OwnerOfTrailer(ms[1..], p - n);
      k := j + 1;
      assert ms[..k + 1] == [ms[0]] + ms[1..][..j + 1];
      FlattenStep(ms[0], ms[1..][..j + 1]);
    }
  }

  /** `i` and `j` are consecutive messages of one stream. */
  ghost predicate Consecutive(ms: seq<Message>, i: nat, j: nat) {
    && i < j < |ms|
    && ms[i].stream == ms[j].stream
    && forall k :: i < k < j ==> ms[k].stream != ms[i].stream
  }

  /** No ordinary stream has two messages strictly between `i` and `j`. */
  ghost predicate AtMostOneEachBetween(ms: seq<Message>, i: nat, j: nat)
    requires i < j < |ms|
  {
    forall k, l :: i < k < l < j && ms[k].stream != URGENT ==> ms[k].stream != ms[l].stream
  }

  ghost predicate Fair(c: Schedule) {
    && (forall j <- c.released :: j < |c.msgs|)
    && forall i: nat, j: nat :: j in c.released && Consecutive(c.msgs, i, j) ==> AtMostOneEachBetween(c.msgs, i, j)
  }

  lemma FairAfterAppend(c: Schedule, m: Message)
    requires Fair(c)
    ensures Fair(c.(msgs := c.msgs + [m]))
  {
    var d := c.(msgs := c.msgs + [m]);
    forall i: nat, j: nat | j in d.released && Consecutive(d.msgs, i, j)
      ensures AtMostOneEachBetween(d.msgs, i, j)
    {
      assert forall k :: 0 <= k < |c.msgs| ==> c.msgs[k] == d.msgs[k];
      assert Consecutive(c.msgs, i, j);
    }
  }

  /** The release of a held-back message puts at most one message of each other stream before it. */
  lemma ReleaseIsFair(a: Link, c: Schedule, i: nat)
    requires Represents(a, c) && OneEach(a) && a.popped < |a.line|
    requires var p := a.line[a.popped]; p.stream != URGENT && p.trailer && c.held[p.stream] != []
    requires Consecutive(PopMessage(a, c).msgs, i, |c.msgs|)
    ensures AtMostOneEachBetween(PopMessage(a, c).msgs, i, |c.msgs|)
  {
    var ms := c.msgs;
    var s := a.line[a.popped].stream;
    ReleaseShape(a, c);
    var d := PopMessage(a, c);
    assert forall k :: 0 <= k < |ms| ==> d.msgs[k] == ms[k];
    var owner := OwnerOfTrailer(ms, a.popped);
    EndsAtTrailer(ms, owner);
    assert i == owner by {
      EndsAtTrailer(ms, i);
      if i > owner { EndsIncrease(ms, owner, i); }
    }
    forall k, l | i < k < l < |ms| && ms[k].stream != URGENT
      ensures ms[k].stream != ms[l].stream
    {
      EndsAtTrailer(ms, k);
      EndsAtTrailer(ms, l);
      EndsIncrease(ms, i, k);
      EndsIncrease(ms, k, l);
    }
  }

  lemma StepIsFair(x: State, e: Event)
    requires Quiescent(x.link, x.sched) && Fair(x.sched)
    ensures Fair(Step(x, e).sched)
  {
    match e
    case PutEvent(m) =>
      FairAfterAppend(x.sched, m);
    case AckEvent(id) =>
      if id in x.link.inflight && x.link.popped < |x.link.line| { PopIsFair(x.link, x.sched); }
    case _ =>
  }

  lemma PopIsFair(a: Link, c: Schedule)
    requires Represents(a, c) && OneEach(a) && a.popped < |a.line| && Fair(c)
    ensures Fair(PopMessage(a, c))
  {
    var d := PopMessage(a, c);
    var p := a.line[a.popped];
    if p.stream != URGENT && p.trailer && c.held[p.stream] != [] {
      FairAfterAppend(c, c.held[p.stream][0]);
      forall i: nat, j: nat | j in d.released && Consecutive(d.msgs, i, j)
        ensures AtMostOneEachBetween(d.msgs, i, j)
      {
        if j == |c.msgs| { ReleaseIsFair(a, c, i); }
      }
    }
  }

  /**
   Fair sharing, for every run: between a message that had to wait and the previous message of its
   stream, no other ordinary stream has two messages on the line.
   */
  lemma {:induction false} EveryRunIsFair(es: seq<Event>)
    ensures Fair(After(es).sched)
  {
    if es != [] {
      EveryRunIsFair(es[..|es| - 1]);
      StepIsFair(After(es[..|es| - 1]), es[|es| - 1]);
    }
  }
}
