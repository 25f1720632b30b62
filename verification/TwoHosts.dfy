/** Two hosts joined by a line, both sending and receiving: in every run, two sessions. */
module TwoHosts {
  import opened Bytes
  import opened SchedulerSteps
  import opened Scheduler
  import WireOrder
  import opened LinkReceiver
  import opened Reassembly
  import opened LinkEndpoint
  import opened Session
  import Sessions = Session
  import Recovery
  import opened Reception
  import opened Stack

  // Whatever the hosts are given to send, however often they send it again, and whatever the line loses,
  // repeats, reorders and cuts to pieces, in any usable encodings.

  /** A host and its decoder and parser. */
  datatype End = End(host: Host, ear: Ear)

  datatype Pair = Pair(a: End, b: End)

  datatype Side = A | B

  /** The encodings of the two directions. */
  datatype Line = Line(toA: Coding, toB: Coding)

  datatype Happening =
    | Acts(side: Side, e: WireOrder.Event)                        // put, flush or timeout at one host
    | Reaches(side: Side, items: seq<Item>, pieces: seq<bytes>)   // frames of the other host's come in

  const UP := End(Host(WireOrder.START, EMPTY, [], false), IDLE)

  /** The session in which `g` sends and `h` receives. */
  function Carries(g: Host, h: Host): Session { Session(g.snd, h.rcv, set id | id in h.acked) }

  ghost predicate Fine(c: Coding, e: End) {
    Ready(c, e.ear) && !e.host.down && Quiescent(e.host.snd.link, e.host.snd.sched)
  }

  /** The session in which `side` receives. */
  function Into(p: Pair, side: Side): Session {
    if side == A then Carries(p.b.host, p.a.host) else Carries(p.a.host, p.b.host)
  }

  ghost predicate Running(l: Line, p: Pair) {
    Fine(l.toA, p.a) && Fine(l.toB, p.b) && Sound(Into(p, A)) && Sound(Into(p, B))
  }

  /** The characters are those of frames that were transmitted to `h`: the other host's data and acknowledgements. */
  ghost predicate Sent(c: Coding, g: Host, h: Host, items: seq<Item>, pieces: seq<bytes>) {
    var x, y := Carries(g, h), Carries(h, g);
    AllTransmitted(x, y, items) && AllFitting(x, items) && Concat(pieces) == OnLine(c, FramesOf(x, items))
  }

  ghost predicate CanCome(l: Line, p: Pair, side: Side, items: seq<Item>, pieces: seq<bytes>) {
    if side == A then Sent(l.toA, p.b.host, p.a.host, items, pieces)
    else Sent(l.toB, p.a.host, p.b.host, items, pieces)
  }

  /** They are decoded, parsed and dispatched. */
  function Hears(c: Coding, e: End, pieces: seq<bytes>): End
    requires Fine(c, e)
  {
    End(DispatchAll(e.host, FoundInAll(c, e.ear, Coming(pieces))), HearAll(c, e.ear, Coming(pieces)))
  }

  /** An acknowledgement comes over the line or not at all. */
  function Does(c: Coding, e: End, f: WireOrder.Event): End
    requires Fine(c, e)
  {
    if f.AckEvent? then e else e.(host := e.host.(snd := WireOrder.Step(e.host.snd, f)))
  }

  ghost function Step(l: Line, p: Pair, w: Happening): Pair
    requires Running(l, p)
  {
    match w
    case Acts(A, f) => p.(a := Does(l.toA, p.a, f))
    case Acts(B, f) => p.(b := Does(l.toB, p.b, f))
    case Reaches(side, items, pieces) =>
      if !CanCome(l, p, side, items, pieces) then p
      else if side == A then p.(a := Hears(l.toA, p.a, pieces))
      else p.(b := Hears(l.toB, p.b, pieces))
  }

  // ---------------------------------------------------------------------------------------------
  // What happens in each session
  // ---------------------------------------------------------------------------------------------

  /** The data among the items. */
  function Arriving(items: seq<Item>): seq<Sessions.Event> {
    if items == [] then []
    else (match items[0] case Data(k) => [DataArrives(k)] case _ => []) + Arriving(items[1..])
  }

  /** The acknowledgements. */
  function Acknowledged(items: seq<Item>): seq<Sessions.Event> {
    if items == [] then []
    else (match items[0] case Acknowledgement(id) => [AckArrives(id)] case _ => []) + Acknowledged(items[1..])
  }

  /** What an event is in the session into `side`. */
  ghost function EventsOf(l: Line, p: Pair, w: Happening, side: Side): seq<Sessions.Event> {
    match w
    case Acts(s, f) => if s == side then [] else [Local(f)]
    case Reaches(s, items, pieces) =>
      if !CanCome(l, p, s, items, pieces) then []
      else if s == side then Arriving(items) else Acknowledged(items)
  }

  lemma RunFirst(x: Session, e: Sessions.Event, es: seq<Sessions.Event>)
    requires Sound(x)
    ensures Sound(Sessions.Step(x, e)) && Recovery.Run(x, [e] + es) == Recovery.Run(Sessions.Step(x, e), es)
  {
    Recovery.OneStep(x, e, es);
  }

  /** The items that come in are so many steps in the two sessions. */
  lemma {:induction false} ItemsAreEvents(x: Session, y: Session, items: seq<Item>)
    requires Sound(x) && Sound(y) && AllTransmitted(x, y, items)
    ensures var r := AllArrived(x, y, items);
      && r.0 == Recovery.Run(x, Arriving(items)) && r.1 == Recovery.Run(y, Acknowledged(items))
      && r.0.snd == x.snd && r.1.rcv == y.rcv && r.1.acks == y.acks
    decreases |items|
  {
    if items != [] {
      hide Sound, Sessions.Step, Transmitted;
      var r := Arrived(x, y, items[0]);
      ArrivalIsOneSided(x, y, items[0]);
      StillTransmitted(x, y, r.0, r.1, items[1..]);
      ItemsAreEvents(r.0, r.1, items[1..]);
      match items[0]
      case Data(k) =>
        RunFirst(x, DataArrives(k), Arriving(items[1..]));
        assert [] + Acknowledged(items[1..]) == Acknowledged(items[1..]);
      case Acknowledgement(id) =>
        RunFirst(y, AckArrives(id), Acknowledged(items[1..]));
        assert [] + Arriving(items[1..]) == Arriving(items[1..]);
    }
  }

  lemma {:induction false} StillTransmitted(x: Session, y: Session, x': Session, y': Session, items: seq<Item>)
    requires x'.snd == x.snd && y'.acks == y.acks && AllTransmitted(x, y, items)
    ensures AllTransmitted(x', y', items)
    decreases |items|
  {
    if items != [] { StillTransmitted(x, y, x', y', items[1..]); }
  }

  /** Characters come in at `h`: both sessions go on, and the decoder is ready for more. */
  lemma HearingIsArrival(c: Coding, g: Host, e: End, items: seq<Item>, pieces: seq<bytes>)
    requires Works(c) && Fine(c, e) && Sound(Carries(g, e.host)) && Sound(Carries(e.host, g))
    requires Sent(c, g, e.host, items, pieces)
    ensures var e', x, y := Hears(c, e, pieces), Carries(g, e.host), Carries(e.host, g);
      && Fine(c, e')
      && Carries(g, e'.host) == Recovery.Run(x, Arriving(items)) && Carries(e'.host, g) == Recovery.Run(y, Acknowledged(items))
  {
    hide Sound, Quiescent, Works, OnLine, FoundInAll, HearAll, DispatchAll, AllArrived, Ready, Recovery.Run;
    var x, y := Carries(g, e.host), Carries(e.host, g);
    GoodFramesAreFound(c, e.ear, FramesOf(x, items), pieces);
    DispatchesAreArrivals(e.host, x, y, items);
    ItemsAreEvents(x, y, items);
  }

  /** What a host does itself is a step of the session in which it sends. */
  lemma DoingIsLocal(c: Coding, g: Host, e: End, f: WireOrder.Event)
    requires Fine(c, e) && Sound(Carries(g, e.host)) && Sound(Carries(e.host, g))
    ensures var e', y := Does(c, e, f), Carries(e.host, g);
      && Fine(c, e')
      && Carries(g, e'.host) == Carries(g, e.host)
      && Sound(Sessions.Step(y, Local(f))) && Carries(e'.host, g) == Sessions.Step(y, Local(f))
  {
    hide Sound, Quiescent, WireOrder.Step, Ready;
    StepKeepsSound(Carries(e.host, g), Local(f));
    SoundIsQuiescent(Sessions.Step(Carries(e.host, g), Local(f)));
  }

  /** One step of the two hosts is a run in each session. */
  lemma StepIsRuns(l: Line, p: Pair, w: Happening)
    requires Works(l.toA) && Works(l.toB) && Running(l, p)
    ensures var q := Step(l, p, w);
      && Running(l, q)
      && Into(q, A) == Recovery.Run(Into(p, A), EventsOf(l, p, w, A))
      && Into(q, B) == Recovery.Run(Into(p, B), EventsOf(l, p, w, B))
  {
    hide Works, Fine, Sound, Sessions.Step, Sent, Carries;
    match w
    case Acts(A, f) =>
      DoingIsLocal(l.toA, p.b.host, p.a, f);
      RunFirst(Carries(p.a.host, p.b.host), Local(f), []);
      assert [Local(f)] + [] == [Local(f)];
    case Acts(B, f) =>
      DoingIsLocal(l.toB, p.a.host, p.b, f);
      RunFirst(Carries(p.b.host, p.a.host), Local(f), []);
      assert [Local(f)] + [] == [Local(f)];
    case Reaches(A, items, pieces) =>
      if Sent(l.toA, p.b.host, p.a.host, items, pieces) { HearingIsArrival(l.toA, p.b.host, p.a, items, pieces); }
    case Reaches(B, items, pieces) =>
      if Sent(l.toB, p.a.host, p.b.host, items, pieces) { HearingIsArrival(l.toB, p.a.host, p.b, items, pieces); }
  }

  // ---------------------------------------------------------------------------------------------
  // Runs
  // ---------------------------------------------------------------------------------------------

  lemma StartsRunning(l: Line)
    ensures Running(l, Pair(UP, UP)) && forall side :: Into(Pair(UP, UP), side) == Sessions.START
  {
    StartsQuiescent();
  }

  /** The two hosts after any run. */
  ghost function After(l: Line, ws: seq<Happening>): (p: Pair)
    requires Works(l.toA) && Works(l.toB)
    ensures Running(l, p)
  {
    if ws == [] then (StartsRunning(l); Pair(UP, UP))
    else
      var p := After(l, ws[..|ws| - 1]);
      StepIsRuns(l, p, ws[|ws| - 1]);
      Step(l, p, ws[|ws| - 1])
  }

  /** What the run is in the session into `side`. */
  ghost function Events(l: Line, ws: seq<Happening>, side: Side): seq<Sessions.Event>
    requires Works(l.toA) && Works(l.toB)
  {
    if ws == [] then []
    else
      var before := ws[..|ws| - 1];
      Events(l, before, side) + EventsOf(l, After(l, before), ws[|ws| - 1], side)
  }

  /** Every run of the two hosts is a run of one session each way. */
  lemma {:induction false} RunsAreSessions(l: Line, ws: seq<Happening>)
    requires Works(l.toA) && Works(l.toB)
    ensures var p := After(l, ws);
      Into(p, A) == Sessions.After(Events(l, ws, A)) && Into(p, B) == Sessions.After(Events(l, ws, B))
  {
    hide Works, Running, Step, EventsOf, Sessions.After, Into, Sound;
    if ws == [] {
      StartsRunning(l);
      NothingYet();
    } else {
      var before := ws[..|ws| - 1];
      var p := After(l, before);
      RunsAreSessions(l, before);
      StepIsRuns(l, p, ws[|ws| - 1]);
      AfterAppend(Events(l, before, A), EventsOf(l, p, ws[|ws| - 1], A));
      AfterAppend(Events(l, before, B), EventsOf(l, p, ws[|ws| - 1], B));
    }
  }

  lemma NothingYet()
    ensures Sessions.After([]) == Sessions.START
  {
  }

  lemma {:induction false} AfterAppend(es: seq<Sessions.Event>, fs: seq<Sessions.Event>)
    ensures Sessions.After(es + fs) == Recovery.Run(Sessions.After(es), fs)
    decreases |fs|
  {
    hide Sound, Sessions.Step;
    if fs == [] {
      assert es + fs == es;
    } else {
      assert (es + [fs[0]])[..|es|] == es;
      assert (es + [fs[0]]) + fs[1..] == es + fs;
      AfterAppend(es + [fs[0]], fs[1..]);
    }
  }

  /** Every message given to a host is one that the other one can cut out again. */
  ghost predicate WellFormedActs(ws: seq<Happening>) {
    forall w <- ws :: w.Acts? && w.e.PutEvent? ==> WellFormed(w.e.m.data)
  }

  lemma {:induction false} EventsWellFormed(l: Line, ws: seq<Happening>, side: Side)
    requires Works(l.toA) && Works(l.toB) && WellFormedActs(ws)
    ensures WellFormedPuts(Events(l, ws, side))
  {
    if ws != [] {
      hide Works, After, EventsOf;
      var before, w := ws[..|ws| - 1], ws[|ws| - 1];
      EventsWellFormed(l, before, side);
      EventOfWellFormed(l, After(l, before), w, side);
    }
  }

  lemma EventOfWellFormed(l: Line, p: Pair, w: Happening, side: Side)
    requires w.Acts? && w.e.PutEvent? ==> WellFormed(w.e.m.data)
    ensures WellFormedPuts(EventsOf(l, p, w, side))
  {
    hide CanCome, WellFormed, Arriving, Acknowledged;
    if w.Reaches? { NoPuts(w.items); }
  }

  lemma {:induction false} NoPuts(items: seq<Item>)
    ensures forall e <- Arriving(items) :: !e.Local?
    ensures forall e <- Acknowledged(items) :: !e.Local?
  {
    if items != [] { NoPuts(items[1..]); }
  }

  /** The requests cut out of what was received are the first messages sent, in wire order. */
  ghost predicate PrefixReceived(x: Session) {
    var ms := Datas(x.snd.sched.msgs);
    Clean([] + Concat(x.rcv.delivered)) &&
    var got := Reassembly.Feed([], x.rcv.delivered);
    && got.requests <= ms
    && (|got.requests| < |ms| ==> Concat(x.rcv.delivered) < Concat(got.requests) + ms[|got.requests|])
    && (got.requests == ms ==> Concat(x.rcv.delivered) == Concat(ms))
  }

  /** In every run, both ways at once: each message arrives once, complete and in order, or not yet. */
  lemma BothEndToEnd(l: Line, ws: seq<Happening>)
    requires Works(l.toA) && Works(l.toB) && WellFormedActs(ws)
    ensures var p := After(l, ws); PrefixReceived(Into(p, A)) && PrefixReceived(Into(p, B))
  {
    hide Works, Running, Sessions.After, Sound, Reassembly.Feed, Clean, WellFormedActs, After, Events, Into;
    RunsAreSessions(l, ws);
    EventsWellFormed(l, ws, A);
    EventsWellFormed(l, ws, B);
    var j := EndToEnd(Events(l, ws, A));
    var k := EndToEnd(Events(l, ws, B));
  }

  // ---------------------------------------------------------------------------------------------
  // No stall
  // ---------------------------------------------------------------------------------------------

  ghost function Go(l: Line, p: Pair, ws: seq<Happening>): (q: Pair)
    requires Works(l.toA) && Works(l.toB) && Running(l, p)
    ensures Running(l, q)
    decreases |ws|
  {
    if ws == [] then p else (StepIsRuns(l, p, ws[0]); Go(l, Step(l, p, ws[0]), ws[1..]))
  }

  function Other(side: Side): Side { if side == A then B else A }

  /** Nothing is put or flushed. */
  ghost predicate OnlyRepairing(ws: seq<Happening>) { forall w <- ws :: w.Acts? ==> w.e.TimeoutEvent? }

  /** All packets, on the line or held back, have ids. */
  ghost predicate Small(x: Session) { Total(x.snd.link) <= 0x8000 }

  lemma SentAlone(c: Coding, g: Host, h: Host, i: Item) returns (line: bytes)
    requires Transmitted(Carries(g, h), Carries(h, g), i) && Fitting(Carries(g, h), i)
    ensures Sent(c, g, h, [i], [line])
  {
    hide OnLine;
    var x, y := Carries(g, h), Carries(h, g);
    assert [i][1..] == [] && AllTransmitted(x, y, []) && AllFitting(x, []);
    assert AllTransmitted(x, y, [i]) && AllFitting(x, [i]);
    line := OnLine(c, FramesOf(Carries(g, h), [i]));
    OnePiece(line);
  }

  /** Whatever was transmitted can come in, in the session into `side`. */
  lemma CanHappen(l: Line, p: Pair, side: Side, i: Item) returns (w: Happening)
    requires Works(l.toA) && Works(l.toB) && Running(l, p) && Stack.Short(Into(p, side))
    requires Transmitted(Into(p, side), Into(p, side), i)
    ensures w.Reaches? && w.items == [i] && w.side == (if i.Data? then side else Other(side))
    ensures CanCome(l, p, w.side, [i], w.pieces)
  {
    hide Works, Fine, Sound, Sent;
    match i {
      case Data(k) => DataFits(Into(p, side), k);
      case Acknowledgement(id) => AckFits(Into(p, side), id);
    }
    var s := if i.Data? then side else Other(side);
    var line;
    match s {
      case A => line := SentAlone(l.toA, p.b.host, p.a.host, i);
      case B => line := SentAlone(l.toB, p.a.host, p.b.host, i);
    }
    w := Reaches(s, [i], [line]);
  }

  lemma GoOne(l: Line, p: Pair, w: Happening, side: Side, e: Sessions.Event)
    requires Works(l.toA) && Works(l.toB) && Running(l, p)
    requires EventsOf(l, p, w, side) == [e] && EventsOf(l, p, w, Other(side)) == []
    ensures Sound(Into(p, side))
    ensures var q := Go(l, p, [w]);
      Into(q, side) == Sessions.Step(Into(p, side), e) && Into(q, Other(side)) == Into(p, Other(side))
  {
    hide Works, Sound, Sessions.Step, Step, EventsOf, Into, Fine;
    StepIsRuns(l, p, w);
    RunFirst(Into(p, side), e, []);
    assert [e] + [] == [e] && [w][1..] == [];
    assert Go(l, Step(l, p, w), []) == Step(l, p, w);
  }

  /** What does not exist cannot arrive. */
  lemma Stutters(x: Session, i: Item)
    requires Sound(x) && !Transmitted(x, x, i)
    ensures Sessions.Step(x, if i.Data? then DataArrives(i.k) else AckArrives(i.id)) == x
  {
  }

  lemma SmallIsShort(x: Session)
    requires Sound(x) && Small(x)
    ensures Stack.Short(x)
  {
  }

  lemma EventOfItem(l: Line, p: Pair, w: Happening, side: Side, i: Item)
    requires w.Reaches? && w.items == [i] && w.side == (if i.Data? then side else Other(side))
    requires CanCome(l, p, w.side, [i], w.pieces)
    ensures EventsOf(l, p, w, side) == [if i.Data? then DataArrives(i.k) else AckArrives(i.id)]
    ensures EventsOf(l, p, w, Other(side)) == []
  {
    hide CanCome;
    OneItem(i);
  }

  lemma OneItem(i: Item)
    ensures Arriving([i]) == if i.Data? then [DataArrives(i.k)] else []
    ensures Acknowledged([i]) == if i.Data? then [] else [AckArrives(i.id)]
  {
    assert [i][1..] == [] && Arriving([i][1..]) == [] && Acknowledged([i][1..]) == [];
  }

  /** A repair of the session into `side` happens, and the other session is as it was. */
  lemma RepairHappens(l: Line, p: Pair, side: Side, e: Sessions.Event) returns (ws: seq<Happening>)
    requires Works(l.toA) && Works(l.toB) && Running(l, p) && Small(Into(p, side))
    requires e == Recovery.TIMEOUT || e.DataArrives? || e.AckArrives?
    ensures OnlyRepairing(ws) && Sound(Into(p, side))
    ensures var q := Go(l, p, ws);
      Into(q, side) == Sessions.Step(Into(p, side), e) && Into(q, Other(side)) == Into(p, Other(side))
  {
    hide Works, Fine, Sound, Sessions.Step, Step, CanCome, Into, Transmitted, Small, Stack.Short;
    var x := Into(p, side);
    if e == Recovery.TIMEOUT {
      var w := Acts(Other(side), WireOrder.TimeoutEvent);
      ws := [w];
      GoOne(l, p, w, side, e);
    } else {
      var i := if e.DataArrives? then Data(e.k) else Acknowledgement(e.id);
      if Transmitted(x, x, i) {
        SmallIsShort(x);
        var w := CanHappen(l, p, side, i);
        ws := [w];
        EventOfItem(l, p, w, side, i);
        GoOne(l, p, w, side, e);
      } else {
        ws := [];
        Stutters(x, i);
      }
    }
  }

  lemma RepairKeepsSmall(x: Session, e: Sessions.Event)
    requires Sound(x) && Small(x) && (e == Recovery.TIMEOUT || e.DataArrives? || e.AckArrives?)
    ensures Small(Sessions.Step(x, e))
  {
    hide Quiescent, Sound;
    match e
    case Local(_) => TimeoutKeepsTotal(x.snd.link);
    case AckArrives(id) =>
      if id in x.acks {
        AckStep(x, id);
        AckKeepsTotal(x.snd.link, id);
      }
    case DataArrives(k) => if k < |x.snd.link.log| { DataStep(x, k); }
  }

  lemma {:induction false} GoAppend(l: Line, p: Pair, ws: seq<Happening>, more: seq<Happening>)
    requires Works(l.toA) && Works(l.toB) && Running(l, p)
    ensures Go(l, p, ws + more) == Go(l, Go(l, p, ws), more)
    decreases |ws|
  {
    hide Works, Running, Step;
    if ws == [] {
      assert ws + more == more;
    } else {
      StepIsRuns(l, p, ws[0]);
      assert (ws + more)[1..] == ws[1..] + more;
      GoAppend(l, Step(l, p, ws[0]), ws[1..], more);
    }
  }

  /** So do any repairs, one after the other. */
  lemma {:induction false} RepairsHappen(l: Line, p: Pair, side: Side, es: seq<Sessions.Event>) returns (ws: seq<Happening>)
    requires Works(l.toA) && Works(l.toB) && Running(l, p) && Small(Into(p, side)) && Recovery.OnlyRepairs(es)
    ensures OnlyRepairing(ws) && Sound(Into(p, side))
    ensures var q := Go(l, p, ws);
      Into(q, side) == Recovery.Run(Into(p, side), es) && Into(q, Other(side)) == Into(p, Other(side))
    decreases |es|
  {
    hide Works, Fine, Sound, Sessions.Step, Step, Into, Small, Go;
    AreSound(l, p);
    ws := [];
    GoNowhere(l, p);
    if es != [] {
      var first := RepairHappens(l, p, side, es[0]);
      RepairKeepsSmall(Into(p, side), es[0]);
      var rest := RepairsHappen(l, Go(l, p, first), side, es[1..]);
      ws := first + rest;
      GoAppend(l, p, first, rest);
      assert es == [es[0]] + es[1..];
      RunFirst(Into(p, side), es[0], es[1..]);
    }
  }

  lemma GoNowhere(l: Line, p: Pair)
    requires Works(l.toA) && Works(l.toB) && Running(l, p)
    ensures Go(l, p, []) == p
  {
  }

  lemma AreSound(l: Line, p: Pair)
    requires Running(l, p)
    ensures forall side :: Sound(Into(p, side))
  {
    forall side: Side
      ensures Sound(Into(p, side))
    {
      match side
      case A =>
      case B =>
    }
  }

  /**
   No stall: from every state the two hosts can reach, while no more than 32768 packets were accepted
   each way, resending and whatever it brings over the line can get every accepted message of both
   hosts handed on and acknowledged.
   */
  lemma BothCanBeDelivered(l: Line, p: Pair) returns (ws: seq<Happening>)
    requires Works(l.toA) && Works(l.toB) && Running(l, p) && Small(Into(p, A)) && Small(Into(p, B))
    ensures OnlyRepairing(ws) && Sound(Into(p, A)) && Sound(Into(p, B))
    ensures var q := Go(l, p, ws);
      && Recovery.AllDone(Into(q, A)) && Recovery.SameQueues(Into(p, A), Into(q, A))
      && Recovery.AllDone(Into(q, B)) && Recovery.SameQueues(Into(p, B), Into(q, B))
  {
    hide Works, Running, Sound, Step, Into, Small, Go, Recovery.Run, Recovery.AllDone, Recovery.SameQueues;
    AreSound(l, p);
    var es := Recovery.EverythingCanBeDelivered(Into(p, A));
    var first := RepairsHappen(l, p, A, es);
    var fs := Recovery.EverythingCanBeDelivered(Into(p, B));
    var rest := RepairsHappen(l, Go(l, p, first), B, fs);
    ws := first + rest;
    GoAppend(l, p, first, rest);
  }
}
