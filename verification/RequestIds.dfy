/** When a request's id on the link is its own: ids are 16 bits wide and handed out in turn. */
module RequestIds {
  import opened Wrappers
  import opened Bytes
  import opened TailList
  import opened Proxy

  // ---------------------------------------------------------------------------------------------
  // Two requests under way are enough for a mix-up
  // ---------------------------------------------------------------------------------------------

  const FN_GetHostName := 17

  /** A request without arguments. */
  function Plain(id: word): bytes {
    Short(FN_GetHostName) + Short(0) + Short(HEADER) + Short(id) + Short(0)
  }

  lemma PlainIsWhole(id: word)
    ensures Whole(Plain(id)) && IdOf(Plain(id)) == id && FunctionOf(Plain(id)) == FN_GetHostName
  {
  }

  /** Conversation 2 asks and is answered, again and again, from id `k` on. */
  function Churn(k: nat): seq<Event>
    requires k <= 0x10000
    decreases 0x10000 - k
  {
    if k == 0x10000 then [] else [Ask(2, Plain(0)), Reply(Plain(k))] + Churn(k + 1)
  }

  /** Conversation 1 has asked, and was given id 0; the next id is `k`. */
  function Waiting(k: nat): Tables { Tables([Request(0, 1, 0)], [], k % 0x10000, {}) }

  lemma ChurnOnce(k: nat)
    requires 0 < k < 0x10000
    ensures Allowed(Waiting(k), Ask(2, Plain(0))) && |Step(Waiting(k), Ask(2, Plain(0))).requests| == 2
    ensures var t := Step(Waiting(k), Ask(2, Plain(0)));
      Allowed(t, Reply(Plain(k))) && Step(t, Reply(Plain(k))) == Waiting(k + 1)
  {
    hide Plain;
    PlainIsWhole(0);
    PlainIsWhole(k);
    var t := Asked(Waiting(k), Plain(0), 2);
    assert t.requests == [Request(0, 1, 0)] + [Request(k, 2, 0)];
    FirstAfter([Request(0, 1, 0)], [Request(k, 2, 0)], HasId(k));
    assert Without([Request(k, 2, 0)], HasId(k)) == [];
    assert [Request(0, 1, 0)] + [] == [Request(0, 1, 0)];
  }

  /** In this run no more than two requests are ever under way. */
  predicate AtMostTwo(t: Tables, es: seq<Event>)
    requires AllAllowed(t, es)
    decreases |es|
  {
    |t.requests| <= 2 && (es != [] ==> AtMostTwo(Step(t, es[0]), es[1..]))
  }

  lemma {:induction false} ChurnRuns(k: nat)
    requires 0 < k <= 0x10000
    ensures AllAllowed(Waiting(k), Churn(k)) && After(Waiting(k), Churn(k)) == Waiting(0x10000)
    ensures AtMostTwo(Waiting(k), Churn(k))
    decreases 0x10000 - k
  {
    if k < 0x10000 {
      hide Allowed, Step;
      ChurnOnce(k);
      ChurnRuns(k + 1);
      var t := Step(Waiting(k), Ask(2, Plain(0)));
      var es := Churn(k);
      assert es[0] == Ask(2, Plain(0)) && es[1] == Reply(Plain(k)) && es[1..][1..] == Churn(k + 1);
      assert AllAllowed(t, es[1..]) && AtMostTwo(t, es[1..]);
    }
  }

  /** The older of two entries is found. */
  lemma MixUp(t: Tables, t': Tables)
    requires t == Waiting(0x10000) && t'.requests == t.requests + [Request(0, 2, 5)]
    ensures First(t'.requests, HasId(0)) == Some(Request(0, 1, 0))
  {
    PlaceIs(t'.requests, HasId(0), 0);
  }

  /**
   Never more than two requests are under way, and yet conversation 2's reply goes to conversation 1:
   the latter's request has been waiting while 65535 others came and went.
   */
  lemma FewRequestsAreNotEnough()
    ensures var es := [Ask(1, Plain(0))] + Churn(1);
      && AllAllowed(START, es) && AtMostTwo(START, es)
      && var t := After(START, es);
      && |t.requests| == 1
      && Whole(Plain(5)) && Whole(Plain(0))
      && var t' := Asked(t, Plain(5), 2);
      && Known(t, Plain(5), 2) && IdOf(Sent(t, Plain(5), 2)) == IdOf(Plain(0))
      && Replied(t', Plain(0)).delivery.Some? && Replied(t', Plain(0)).delivery.value.to == 1
  {
    hide Plain;
    PlainIsWhole(0);
    PlainIsWhole(5);
    ChurnRuns(1);
    var es := [Ask(1, Plain(0))] + Churn(1);
    assert es[1..] == Churn(1);
    assert Asked(START, Plain(0), 1) == Waiting(1);
    var t := Waiting(0x10000);
    MixUp(t, Asked(t, Plain(5), 2));
  }

  // ---------------------------------------------------------------------------------------------
  // How long a request may wait
  // ---------------------------------------------------------------------------------------------

  /** `serials` counts off the requests under way: the number of requests made before each. */
  ghost predicate Numbered(t: Tables, serials: seq<nat>, issued: nat) {
    && |serials| == |t.requests| && t.next == issued % 0x10000
    && (forall i :: 0 <= i < |serials| ==> serials[i] < issued && t.requests[i].id == serials[i] % 0x10000)
    && (forall i, j :: 0 <= i < j < |serials| ==> serials[i] < serials[j])
  }

  function SerialsAfter(t: Tables, serials: seq<nat>, issued: nat, e: Event): seq<nat>
    requires Allowed(t, e)
  {
    match e
    case Ask(_, _) => serials + [issued]
    case Reply(m) =>
      var i := Place(t.requests, HasId(IdOf(m)));
      if First(t.requests, HasId(IdOf(m))).Some? && i < |serials| then Drop(serials, i) else serials
    case Data(_) => serials
  }

  lemma StepKeepsNumbered(t: Tables, serials: seq<nat>, issued: nat, e: Event)
    requires Allowed(t, e) && Numbered(t, serials, issued)
    ensures Numbered(Step(t, e), SerialsAfter(t, serials, issued, e), if e.Ask? then issued + 1 else issued)
  {
    hide First, Without, Drop, Place, SocketOf, Replied, Lowest;
    match e
    case Ask(from, m) =>
    case Reply(m) =>
      ReplyTakesOne(t, m);
      if First(t.requests, HasId(IdOf(m))).Some? {
        DropBoth(t.requests, serials, Place(t.requests, HasId(IdOf(m))));
      }
    case Data(m) =>
  }

  lemma DropBoth(requests: seq<Request>, serials: seq<nat>, i: nat)
    requires |serials| == |requests| && i < |serials|
    ensures |Drop(serials, i)| == |Drop(requests, i)| == |serials| - 1
    ensures forall j :: 0 <= j < |serials| - 1 ==>
      && Drop(serials, i)[j] == serials[if j < i then j else j + 1]
      && Drop(requests, i)[j] == requests[if j < i then j else j + 1]
  {
  }

  /** The serial numbers of the requests under way when the run is over, and how many were made. */
  function Count(t: Tables, serials: seq<nat>, issued: nat, es: seq<Event>): (seq<nat>, nat)
    requires AllAllowed(t, es)
    decreases |es|
  {
    if es == [] then (serials, issued)
    else
      var issued' := if es[0].Ask? then issued + 1 else issued;
      Count(Step(t, es[0]), SerialsAfter(t, serials, issued, es[0]), issued', es[1..])
  }

  lemma {:induction false} RunKeepsNumbered(t: Tables, serials: seq<nat>, issued: nat, es: seq<Event>)
    requires AllAllowed(t, es) && Numbered(t, serials, issued)
    ensures var c := Count(t, serials, issued, es); Numbered(After(t, es), c.0, c.1)
    decreases |es|
  {
    if es != [] {
      StepKeepsNumbered(t, serials, issued, es[0]);
      var issued' := if es[0].Ask? then issued + 1 else issued;
      RunKeepsNumbered(Step(t, es[0]), SerialsAfter(t, serials, issued, es[0]), issued', es[1..]);
    }
  }

  /** Neither reply nor request can tell two serial numbers apart that differ by a multiple of 65536. */
  predicate Alike(m: nat, n: nat) { (m - n) % 0x10000 == 0 }

  /** The oldest of the requests under way that share an id with the one at `i`. */
  function Oldest(serials: seq<nat>, i: nat, k: nat): (j: nat)
    requires k <= i < |serials|
    ensures k <= j <= i && Alike(serials[i], serials[j]) && forall l :: k <= l < j ==> !Alike(serials[i], serials[l])
    decreases i - k
  {
    if k == i || Alike(serials[i], serials[k]) then k else Oldest(serials, i, k + 1)
  }

  /**
   Where a reply goes: to the oldest request under way whose serial number differs from that of the
   request it answers by a multiple of 65536, with that request's sender and id; and it is that
   request which is taken off the list.
   */
  lemma ReplyGoesToOldest(t: Tables, serials: seq<nat>, issued: nat, i: nat, m: bytes)
    requires Numbered(t, serials, issued) && i < |serials| && Whole(m) && IdOf(m) == t.requests[i].id
    ensures var x := Replied(t, m); var j := Oldest(serials, i, 0);
      && x.tables.requests == Drop(t.requests, j)
      && x.delivery.Some? && x.delivery.value.to == t.requests[j].sender
      && |x.delivery.value.message| >= HEADER && IdOf(x.delivery.value.message) == t.requests[j].senderId
  {
    hide First, Place, Drop, SocketOf, Translated, Without;
    var j := Oldest(serials, i, 0);
    forall k | 0 <= k <= j ensures t.requests[k].id == t.requests[i].id <==> k == j {
      Congruent(serials[i], serials[k]);
    }
    PlaceIs(t.requests, HasId(IdOf(m)), j);
    ReplyTakesOne(t, m);
    TranslatedIsWhole(t, m, t.requests[j]);
  }

  /**
   In every run, whatever collisions came before: the reply to the request at `i` goes by the entry of
   that request, so to the right conversation under the right id, if and only if no older request
   under way was made a multiple of 65536 requests before it; in particular if the oldest was made
   less than 65536 requests before it.  Otherwise it goes by the oldest such entry.
   */
  lemma ReplyGoesRightExactlyIf(es: seq<Event>, i: nat, m: bytes)
    requires AllAllowed(START, es) && i < |After(START, es).requests|
    requires Whole(m) && IdOf(m) == After(START, es).requests[i].id
    ensures var t := After(START, es); var (serials, issued) := Count(START, [], 0, es); var x := Replied(t, m);
      && |serials| == |t.requests|
      && var j := Oldest(serials, i, 0);
      && x.tables.requests == Drop(t.requests, j)
      && x.delivery.Some? && x.delivery.value.to == t.requests[j].sender
      && |x.delivery.value.message| >= HEADER && IdOf(x.delivery.value.message) == t.requests[j].senderId
      && (j == i <==> forall k :: 0 <= k < i ==> !Alike(serials[i], serials[k]))
      && (serials[i] < serials[0] + 0x10000 ==> j == i)
  {
    hide First, Place, Count, After, AllAllowed, Drop, Replied;
    RunKeepsNumbered(START, [], 0, es);
    var (serials, issued) := Count(START, [], 0, es);
    ReplyGoesToOldest(After(START, es), serials, issued, i, m);
    if serials[i] < serials[0] + 0x10000 { NearIsUnlike(After(START, es), serials, issued, i); }
  }

  lemma NearIsUnlike(t: Tables, serials: seq<nat>, issued: nat, i: nat)
    requires Numbered(t, serials, issued) && i < |serials| && serials[i] < serials[0] + 0x10000
    ensures forall k :: 0 <= k < i ==> !Alike(serials[i], serials[k])
  {
    forall k | 0 <= k < i ensures !Alike(serials[i], serials[k]) {
      assert serials[0] <= serials[k] < serials[i];
      Small(serials[i] - serials[k]);
    }
  }

  lemma Congruent(a: nat, b: nat)
    ensures Alike(a, b) <==> a % 0x10000 == b % 0x10000
  {
  }

  lemma Small(n: int)
    requires 0 < n < 0x10000
    ensures n % 0x10000 != 0
  {
  }
}
