/** What the programs lay out as messages is what is cut out of the stream. */
module Calls {
  import opened Bytes
  import opened Requests
  import Reassembly
  import WireOrder
  import Session
  import Proxy

  /** struct tx_request with what follows it: type, number of arguments, whole length, id and error, each high byte first. */
  function Envelope(fn: word, n: word, id: word, error: word, body: bytes): (m: bytes)
    requires |body| < 0x8000 - 10
    ensures |m| == 10 + |body|
  {
    Header(fn, n, 10 + |body|, id, error) + body
  }

  function Header(fn: word, n: word, len: word, id: word, error: word): (h: bytes)
    ensures |h| == 10
  {
    [fn / 256, fn % 256, n / 256, n % 256, len / 256, len % 256, id / 256, id % 256, error / 256, error % 256]
  }

  lemma OtherLength(fn: word, n: word, len: word, id: word, error: word, len': word)
    ensures var h := Header(fn, n, len, id, error);
      h[..4] + Short(len') + h[6..10] == Header(fn, n, len', id, error)
  {
  }

  /** A call, or a reply, that winsock.c or commands.c makes. */
  datatype Call = Call(fn: word, args: seq<Arg>, result: Arg, id: word, error: word)

  predicate Fits(c: Call) {
    AllSized(c.args + [c.result]) && |c.args| < 0x10000 && |Body(c.args + [c.result])| < 0x8000 - 10
  }

  function MessageOf(c: Call): bytes
    requires Fits(c)
  {
    Envelope(c.fn, |c.args|, c.id, c.error, Body(c.args + [c.result]))
  }

  /** It is what TransmitFunction yields, if no error is reported. */
  lemma MessageIs(c: Call)
    requires Fits(c) && c.error == 0
    ensures AllSized(c.args) && Sized(c.result) && MessageOf(c) == Message(c.fn, c.args, c.result, c.id)
  {
    hide Body;
    var all := c.args + [c.result];
    assert all[|c.args|] in all;
    forall a | a in c.args ensures Sized(a) { assert a in all; }
  }

  /** Exactly the envelopes are what the receiver takes for messages. */
  lemma WellFormedExactlyIf(m: bytes)
    ensures Reassembly.WellFormed(m) <==>
      exists fn: word, n: word, id: word, error: word, body: bytes ::
        |body| < 0x8000 - 10 && m == Envelope(fn, n, id, error, body)
  {
    if Reassembly.WellFormed(m) {
      var n := ShortAt(m, 2);
      assert m == Envelope(ShortAt(m, 0), n, ShortAt(m, 6), ShortAt(m, 8), m[10..]);
    }
  }

  lemma EnvelopeIsWellFormed(fn: word, n: word, id: word, error: word, body: bytes)
    requires |body| < 0x8000 - 10
    ensures Reassembly.WellFormed(Envelope(fn, n, id, error, body))
  {
  }

  ghost predicate AllFit(cs: seq<Call>) { forall i :: 0 <= i < |cs| ==> Fits(cs[i]) }

  function Messages(cs: seq<Call>): (ms: seq<bytes>)
    requires AllFit(cs)
    ensures |ms| == |cs| && forall i :: 0 <= i < |ms| ==> ms[i] == MessageOf(cs[i])
  {
    seq(|cs|, i requires 0 <= i < |cs| => MessageOf(cs[i]))
  }

  lemma MessagesAreWellFormed(cs: seq<Call>)
    requires AllFit(cs)
    ensures Reassembly.AllWellFormed(Messages(cs))
  {
    hide Body, Envelope, Reassembly.WellFormed;
    forall i | 0 <= i < |cs| ensures Reassembly.WellFormed(Messages(cs)[i]) {
      EnvelopeIsWellFormed(cs[i].fn, |cs[i].args|, cs[i].id, cs[i].error, Body(cs[i].args + [cs[i].result]));
    }
  }

  /**
   Calls and replies of any kind, joined and delivered in any pieces: exactly these messages are cut out
   again, and nothing is left.
   */
  lemma CallsAreCut(cs: seq<Call>, pieces: seq<bytes>)
    requires AllFit(cs) && Concat(pieces) == Concat(Messages(cs))
    ensures Reassembly.Clean([] + Concat(pieces))
    ensures Reassembly.Feed([], pieces) == Reassembly.Cut(Messages(cs), [])
  {
    hide Reassembly.Clean, Reassembly.Requests, Reassembly.WellFormed, Reassembly.Feed;
    var ms, b := Messages(cs), Concat(pieces);
    MessagesAreWellFormed(cs);
    assert [] + b == b;
    var k := Reassembly.CutsPrefix(ms, b);
    AllOfIt(ms, k, Reassembly.Requests(b).rest);
    Reassembly.FeedIsRequests([], pieces);
  }

  lemma AllOfIt(ms: seq<bytes>, k: nat, rest: bytes)
    requires k <= |ms| && Concat(ms) == Concat(ms[..k]) + rest
    requires if k == |ms| then rest == [] else rest < ms[k]
    ensures k == |ms| && ms[..k] == ms
  {
    if k < |ms| {
      assert ms == ms[..k] + ms[k..];
      Reassembly.ConcatAppend(ms[..k], ms[k..]);
    }
  }

  // ---------------------------------------------------------------------------------------------
  // The socket in a call
  // ---------------------------------------------------------------------------------------------

  /** In a call whose first argument is a socket, an integer of either width, the proxy reads that socket. */
  lemma SocketIsRead(fn: word, args: seq<Arg>, result: Arg, id: word)
    requires 0 < |args| < 0x10000 && AllSized(args) && Sized(result)
    requires HasWidth(result) && forall a <- args :: HasWidth(a)
    requires 1 <= args[0].kind <= 2 && LowFirst(args[0].data) < 0x8000
    ensures AllSized(AllSwapped(args)) && Sized(Swapped(result))
    ensures var m := Message(fn, AllSwapped(args), Swapped(result), id);
      && Proxy.Whole(m) && Proxy.FunctionOf(m) == fn && Proxy.IdOf(m) == id
      && Proxy.HoldsSocket(m) && Proxy.SocketOf(m) == LowFirst(args[0].data)
  {
    ArgumentsArrive(fn, args, result, id);
    ValuesArrive(fn, args, result, id);
    var m, all := Message(fn, AllSwapped(args), Swapped(result), id), args + [result];
    assert Arrives(m, PlaceOf(all, 0), all[0]) && all[0] == args[0] && args[0] in args;
    hide Message, AllSwapped, Swapped;
    ReadsSocket(m, args[0]);
  }

  lemma ReadsSocket(m: bytes, a: Arg)
    requires |m| >= 10 && Arrives(m, 10, a) && HasWidth(a) && 1 <= a.kind <= 2 && LowFirst(a.data) < 0x8000
    ensures Proxy.HoldsSocket(m) && Proxy.SocketOf(m) == LowFirst(a.data)
  {
    TwoBytes(m[12..14]);
    if a.kind == 1 {
      TwoBytes(m[14..16]);
    } else {
      FourBytes(m[14..18]);
    }
  }

  // ---------------------------------------------------------------------------------------------
  // What CompressArg leaves behind
  // ---------------------------------------------------------------------------------------------

  /** A message whose one argument has lost its value is again such a message, the length put right. */
  lemma CompressedIsCall(c: Call, k: nat, was: bytes, now: bytes)
    requires Fits(c) && |was| == |now| == HEADER && was == MessageOf(c)[..HEADER]
    requires now == was[..4] + Short((HEADER + |Body(Emptied(c.args + [c.result], k))|) % 0x10000) + was[6..HEADER]
    ensures var all := Emptied(c.args + [c.result], k);
      var d := c.(args := all[..|c.args|], result := all[|c.args|]);
      Fits(d) && now + Body(all) == MessageOf(d)
  {
    hide Body, Emptied, Header, Envelope, AllSized;
    var was', all := c.args + [c.result], Emptied(c.args + [c.result], k);
    EmptiedIs(was', k);
    EmptiedIsShorter(was', k);
    assert all == all[..|c.args|] + [all[|c.args|]];
    FrontOfMessage(c.fn, |c.args|, c.id, c.error, Body(was'));
    FrontOfMessage(c.fn, |c.args|, c.id, c.error, Body(all));
    OtherLength(c.fn, |c.args|, 10 + |Body(was')|, c.id, c.error, 10 + |Body(all)|);
  }

  lemma FrontOfMessage(fn: word, n: word, id: word, error: word, body: bytes)
    requires |body| < 0x8000 - 10
    ensures var m := Envelope(fn, n, id, error, body);
      m[..10] == Header(fn, n, 10 + |body|, id, error) && m == m[..10] + body
  {
    hide Header;
  }

  lemma EmptiedIsShorter(all: seq<Arg>, k: nat)
    requires AllSized(all)
    ensures |Body(Emptied(all, k))| <= |Body(all)|
  {
    hide Body, ArgBytes;
    if k < |all| {
      BodySize(all, k);
      BodySize(Emptied(all, k), k);
    }
  }

  lemma BodySize(all: seq<Arg>, k: nat)
    requires AllSized(all) && k < |all|
    ensures AllSized(all[..k]) && AllSized(all[k + 1..])
    ensures |Body(all)| == |Body(all[..k])| + 4 + |all[k].data| + |Body(all[k + 1..])|
  {
    hide Body;
    SizeUpTo(all, k);
    assert all == all[..k + 1] + all[k + 1..];
    BodyAppend(all[..k + 1], all[k + 1..]);
  }

  // ---------------------------------------------------------------------------------------------
  // Whole sessions
  // ---------------------------------------------------------------------------------------------

  /** Every message put on the line is one that the programs build. */
  ghost predicate OnlyEnvelopes(es: seq<Session.Event>) {
    forall i :: 0 <= i < |es| && es[i].Local? && es[i].e.PutEvent? ==>
      exists fn: word, n: word, id: word, error: word, body: bytes ::
        |body| < 0x8000 - 10 && es[i].e.m.data == Envelope(fn, n, id, error, body)
  }

  /** End to end, of messages as they are built. */
  lemma EnvelopesArrive(es: seq<Session.Event>) returns (k: nat)
    requires OnlyEnvelopes(es)
    ensures var x := Session.After(es); var ms := Session.Datas(x.snd.sched.msgs);
      && k <= |ms|
      && Reassembly.Clean([] + Concat(x.rcv.delivered))
      && Reassembly.Feed([], x.rcv.delivered).requests == ms[..k]
      && (k < |ms| ==> Concat(x.rcv.delivered) < Concat(ms[..k]) + ms[k])
      && (k == |ms| ==> Concat(x.rcv.delivered) == Concat(ms))
  {
    hide Session.After, Reassembly.Clean, Reassembly.Feed, Reassembly.WellFormed, Envelope;
    forall i | 0 <= i < |es| && es[i].Local? && es[i].e.PutEvent?
      ensures Reassembly.WellFormed(es[i].e.m.data)
    {
      WellFormedExactlyIf(es[i].e.m.data);
    }
    k := Session.EndToEnd(es);
  }
}
