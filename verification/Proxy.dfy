/** Many conversations on one link, each request and socket with a number of its own. */
module Proxy {
  import opened Wrappers
  import opened Bytes
  import opened TailList
  import SocketNumbers

  const HEADER := REQUEST_HEADER
  const MAX_SOCKETS := SocketNumbers.MAX_SOCKETS

  const FN_Accept := 1
  const FN_Bind := 2
  const FN_Close := 3
  const FN_Connect := 4
  const FN_IOCtl := 5
  const FN_GetPeerName := 6
  const FN_GetSockName := 7
  const FN_Listen := 9
  const FN_Select := 10
  const FN_Send := 11
  const FN_SendTo := 12
  const FN_SetSockOpt := 13
  const FN_Shutdown := 14
  const FN_Socket := 15

  predicate HasSocketArg(fn: nat) {
    fn in {FN_Bind, FN_Close, FN_Connect, FN_IOCtl, FN_GetPeerName, FN_GetSockName, FN_Listen, FN_Select,
           FN_Send, FN_SendTo, FN_SetSockOpt, FN_Shutdown, FN_Socket}
  }

  // ---------------------------------------------------------------------------------------------
  // Fields of a message
  // ---------------------------------------------------------------------------------------------

  type int16 = x: int | -0x8000 <= x < 0x8000

  /** A field read into a signed short. */
  function Signed(n: word): int16 { if n < 0x8000 then n else n - 0x10000 }

  /** The field that a signed short is written as. */
  function Unsigned(i: int16): word { if i < 0 then i + 0x10000 else i }

  function Replaced(m: bytes, at: nat, field: bytes): (r: bytes)
    requires at + |field| <= |m|
    ensures |r| == |m|
    ensures forall i :: 0 <= i < |m| ==> r[i] == if at <= i < at + |field| then field[i - at] else m[i]
  {
    m[..at] + field + m[at + |field|..]
  }

  function FunctionOf(m: bytes): word
    requires |m| >= HEADER
  {
    ShortAt(m, 0)
  }

  function IdOf(m: bytes): word
    requires |m| >= HEADER
  {
    ShortAt(m, 6)
  }

  function WithId(m: bytes, id: word): bytes
    requires |m| >= HEADER
  {
    Replaced(m, 6, Short(id))
  }

  /** The first argument's value is two bytes long or four. */
  function Width(m: bytes): nat
    requires |m| >= HEADER + 4
  {
    if ShortAt(m, 12) == 2 then 2 else 4
  }

  /** The header is there, and the first argument if it is a socket. */
  predicate Whole(m: bytes) {
    |m| >= HEADER && (HasSocketArg(FunctionOf(m)) ==> HoldsSocket(m))
  }

  predicate HoldsSocket(m: bytes) { |m| >= HEADER + 4 && |m| >= HEADER + 4 + Width(m) }

  function SocketOf(m: bytes): int16
    requires HoldsSocket(m)
  {
    Signed(ShortAt(m, HEADER + 2 + Width(m)))
  }

  function WithSocket(m: bytes, socket: int16): bytes
    requires HoldsSocket(m)
  {
    var low := Short(Unsigned(socket));
    Replaced(m, HEADER + 4, if Width(m) == 2 then low else Short(if socket < 0 then 0xffff else 0) + low)
  }

  /** Only the id changes. */
  lemma IdChanged(m: bytes, id: word)
    requires Whole(m)
    ensures var r := WithId(m, id);
      && |r| == |m| && IdOf(r) == id && FunctionOf(r) == FunctionOf(m) && Whole(r)
      && (HoldsSocket(m) ==> HoldsSocket(r) && SocketOf(r) == SocketOf(m))
  {
  }

  /** Only the socket changes. */
  lemma SocketChanged(m: bytes, socket: int16)
    requires |m| >= HEADER && HoldsSocket(m)
    ensures var r := WithSocket(m, socket);
      && |r| == |m| && IdOf(r) == IdOf(m) && FunctionOf(r) == FunctionOf(m)
      && HoldsSocket(r) && SocketOf(r) == socket
  {
  }

  // ---------------------------------------------------------------------------------------------
  // The tables
  // ---------------------------------------------------------------------------------------------

  /** A request under way: its id on the link, whose it is, and its id there. */
  datatype Request = Request(id: word, sender: int, senderId: word)

  /** An open socket: its number in the conversation that owns it, and its number on the link. */
  datatype Socket = Socket(client: int16, server: int16, owner: int)

  /** `next` is the next request's id on the link; `used` holds the halves of the even numbers taken. */
  datatype Tables = Tables(requests: seq<Request>, sockets: seq<Socket>, next: word, used: set<int>)

  const START := Tables([], [], 0, {})

  function HasId(id: nat): Request -> bool { (r: Request) => r.id == id }

  function HasServer(server: int): Socket -> bool { (s: Socket) => s.server == server }

  function IsOwn(client: int, owner: int): Socket -> bool { (s: Socket) => s.client == client && s.owner == owner }

  /** The lowest number from `n` on that is not taken, or -1. */
  function Lowest(used: set<int>, n: nat): (r: int)
    ensures if r == -1 then forall k: nat :: n <= k < MAX_SOCKETS ==> k in used
            else n <= r < MAX_SOCKETS && r !in used && forall k: nat :: n <= k < r ==> k in used
    decreases MAX_SOCKETS - n
  {
    if n >= MAX_SOCKETS then -1 else if n !in used then n else Lowest(used, n + 1)
  }

  /** GetClientSocket, and the entry for the new socket. */
  function Opened(t: Tables, client: int16, owner: int): Tables {
    var n := Lowest(t.used, 0);
    var server: int16 := if n == -1 then -1 else 2 * n;
    t.(sockets := t.sockets + [Socket(client, server, owner)], used := if n == -1 then t.used else t.used + {n})
  }

  /** The tables once a request is noted. */
  function Asked(t: Tables, m: bytes, from: int): Tables
    requires Whole(m)
  {
    var t' := t.(requests := t.requests + [Request(t.next, from, IdOf(m))], next := (t.next + 1) % 0x10000);
    if FunctionOf(m) == FN_Socket && SocketOf(m) != -1 then Opened(t', SocketOf(m), from) else t'
  }

  /** A socket call is only made on a socket that is open; there is no way out of the search otherwise. */
  predicate Known(t: Tables, m: bytes, from: int)
    requires Whole(m)
  {
    HasSocketArg(FunctionOf(m)) ==> First(Asked(t, m, from).sockets, IsOwn(SocketOf(m), from)).Some?
  }

  /** What goes over the link. */
  function Sent(t: Tables, m: bytes, from: int): (r: bytes)
    requires Whole(m) && Known(t, m, from)
    ensures Whole(r) && |r| == |m| && FunctionOf(r) == FunctionOf(m) && IdOf(r) == t.next
  {
    IdChanged(m, t.next);
    var r := WithId(m, t.next);
    if HasSocketArg(FunctionOf(m)) then
      var s := First(Asked(t, m, from).sockets, IsOwn(SocketOf(m), from)).value;
      SocketChanged(r, s.server);
      WithSocket(r, s.server)
    else r
  }

  datatype Delivery = Delivery(to: int, message: bytes)

  datatype Result = Result(tables: Tables, delivery: Option<Delivery>)

  /** AdjustRequestIn's first half: the request is looked up and taken off the list. */
  function Answered(t: Tables, id: nat): Tables { t.(requests := Without(t.requests, HasId(id))) }

  /** AdjustRequestIn's second half: a socket that is closed is forgotten, and its number free again. */
  function Closed(t: Tables, client: int, owner: int): Tables {
    match First(t.sockets, IsOwn(client, owner))
    case None => t
    case Some(s) =>
      t.(sockets := Without(t.sockets, IsOwn(client, owner)),
         used := if s.server % 2 == 0 then t.used - {s.server / 2} else t.used)
  }

  /** A reply as its conversation sees it. */
  function Translated(t: Tables, m: bytes, r: Request): bytes
    requires Whole(m)
  {
    var m' := WithId(m, r.senderId);
    if HasSocketArg(FunctionOf(m)) then
      var s := First(t.sockets, HasServer(SocketOf(m)));
      IdChanged(m, r.senderId);
      if s.Some? then WithSocket(m', s.value.client) else m'
    else m'
  }

  /** AdjustRequestIn. */
  function Replied(t: Tables, m: bytes): Result
    requires Whole(m)
  {
    match First(t.requests, HasId(IdOf(m)))
    case None => Result(t, None)
    case Some(r) =>
      TranslatedIsWhole(t, m, r);
      var m' := Translated(t, m, r);
      var t' := Answered(t, IdOf(m));
      Result(if FunctionOf(m) == FN_Close then Closed(t', SocketOf(m'), r.sender) else t', Some(Delivery(r.sender, m')))
  }

  /** A reply keeps its shape; it bears the sender's id, and the socket's number there if the socket is known. */
  lemma TranslatedIsWhole(t: Tables, m: bytes, r: Request)
    requires Whole(m)
    ensures var m' := Translated(t, m, r);
      && |m'| == |m| && IdOf(m') == r.senderId && FunctionOf(m') == FunctionOf(m) && Whole(m')
      && (HasSocketArg(FunctionOf(m)) ==>
            var s := First(t.sockets, HasServer(SocketOf(m)));
            SocketOf(m') == if s.Some? then s.value.client else SocketOf(m))
  {
    hide WithId, WithSocket, HoldsSocket, SocketOf;
    IdChanged(m, r.senderId);
    if HasSocketArg(FunctionOf(m)) {
      var s := First(t.sockets, HasServer(SocketOf(m)));
      if s.Some? { SocketChanged(WithId(m, r.senderId), s.value.client); }
    }
  }

  /** Data for a socket bears the socket's number in the id field; a new connection's number comes after the address. */
  predicate WholeData(m: bytes) {
    && |m| >= HEADER
    && (FunctionOf(m) == FN_Accept ==> |m| >= HEADER + 18 && (ShortAt(m, 4) == HEADER + 18 || |m| >= HEADER + 20))
  }

  function NewSocket(m: bytes): int16
    requires WholeData(m) && FunctionOf(m) == FN_Accept
  {
    Signed(ShortAt(m, if ShortAt(m, 4) == HEADER + 18 then 26 else 28))
  }

  /** AdjustDataIn. */
  function DataCame(t: Tables, m: bytes): Result
    requires WholeData(m)
  {
    match First(t.sockets, HasServer(Signed(IdOf(m))))
    case None => Result(t, None)
    case Some(s) =>
      var t' :=
        if FunctionOf(m) == FN_Accept then t.(sockets := t.sockets + [Socket(NewSocket(m), NewSocket(m), s.owner)])
        else t;
      Result(t', Some(Delivery(s.owner, WithId(m, Unsigned(s.client)))))
  }

  // ---------------------------------------------------------------------------------------------
  // What stays true
  // ---------------------------------------------------------------------------------------------

  /**
   Socket numbers on the link are unique, and so are those within a conversation; the bitmap has the
   even ones, and nothing else.
   */
  ghost predicate Consistent(t: Tables) {
    && (forall i, j :: 0 <= i < j < |t.sockets| ==> Apart(t.sockets[i], t.sockets[j]))
    && (forall s <- t.sockets :: Reserved(s.server, t.used))
    && (forall n <- t.used :: Held(n, t.sockets))
  }

  /** Some open socket has the number. */
  ghost predicate Held(n: int, sockets: seq<Socket>) {
    exists s :: s in sockets && s.server == 2 * n
  }

  predicate Apart(s: Socket, s': Socket) {
    s.server != s'.server && (s.client != s'.client || s.owner != s'.owner)
  }

  /** An even number on the link is one that the bitmap has handed out. */
  predicate Reserved(server: int, used: set<int>) {
    server % 2 == 0 ==> 0 <= server < 2 * MAX_SOCKETS && server / 2 in used
  }

  /** The sockets the conversations opened themselves. */
  function EvenOnes(sockets: seq<Socket>): (r: seq<Socket>)
    ensures |r| <= |sockets|
  {
    if sockets == [] then []
    else
      var s := sockets[|sockets| - 1];
      EvenOnes(sockets[..|sockets| - 1]) + if s.server % 2 == 0 then [s] else []
  }

  datatype Event =
    | Ask(from: int, m: bytes)
    | Reply(m: bytes)
    | Data(m: bytes)

  /**
   What is asked of those around: a conversation opens no socket twice and uses none that is not open,
   the host's numbers for new connections are odd and new, and at most 256 sockets of the
   conversations' own are open.
   */
  predicate Allowed(t: Tables, e: Event) {
    match e
    case Ask(from, m) =>
      && Whole(m)
      && (HasSocketArg(FunctionOf(m)) ==>
            var own := First(t.sockets, IsOwn(SocketOf(m), from));
            if FunctionOf(m) == FN_Socket then SocketOf(m) != -1 && own.None? && |EvenOnes(t.sockets)| < 256
            else own.Some?)
    case Reply(m) => Whole(m)
    case Data(m) =>
      && WholeData(m)
      && (FunctionOf(m) == FN_Accept && First(t.sockets, HasServer(Signed(IdOf(m)))).Some? ==>
            var owner := First(t.sockets, HasServer(Signed(IdOf(m)))).value.owner;
            && NewSocket(m) % 2 == 1
            && First(t.sockets, HasServer(NewSocket(m))).None?
            && First(t.sockets, IsOwn(NewSocket(m), owner)).None?)
  }

  function Step(t: Tables, e: Event): Tables
    requires Allowed(t, e)
  {
    match e
    case Ask(from, m) => Asked(t, m, from)
    case Reply(m) => Replied(t, m).tables
    case Data(m) => DataCame(t, m).tables
  }

  lemma AddSocket(t: Tables, s: Socket, used: set<int>)
    requires Consistent(t) && Reserved(s.server, used)
    requires used == if s.server % 2 == 0 then t.used + {s.server / 2} else t.used
    requires First(t.sockets, HasServer(s.server)).None? && First(t.sockets, IsOwn(s.client, s.owner)).None?
    ensures Consistent(t.(sockets := t.sockets + [s], used := used))
  {
    hide First;
    var all := t.sockets + [s];
    forall n | n in used ensures Held(n, all) {
      if n in t.used {
        var x :| x in t.sockets && x.server == 2 * n;
        assert x in all;
      } else {
        assert s in all;
      }
    }
    forall i, j | 0 <= i < j < |all| ensures Apart(all[i], all[j]) {
      if j == |t.sockets| {
        NoneBefore(t.sockets, HasServer(s.server), i);
        NoneBefore(t.sockets, IsOwn(s.client, s.owner), i);
      }
    }
  }

  lemma NoneBefore<T>(s: seq<T>, p: T -> bool, i: nat)
    requires First(s, p).None? && i < |s|
    ensures !p(s[i])
  {
    assert s[i] in s;
  }

  /** The number the bitmap hands out is not on the link yet. */
  lemma NewNumberIsFree(t: Tables, n: nat)
    requires Consistent(t) && n !in t.used
    ensures First(t.sockets, HasServer(2 * n)).None?
  {
    assert forall s <- t.sockets :: Reserved(s.server, t.used);
  }

  lemma AskKeepsConsistent(t: Tables, from: int, m: bytes)
    requires Consistent(t) && Allowed(t, Ask(from, m))
    ensures Consistent(Asked(t, m, from))
  {
    hide First, Lowest, SocketOf;
    var t' := t.(requests := t.requests + [Request(t.next, from, IdOf(m))], next := (t.next + 1) % 0x10000);
    if FunctionOf(m) == FN_Socket && SocketOf(m) != -1 {
      var n := Lowest(t.used, 0);
      NumberLeftExactlyIf(t);
      LowestIsFree(t.used);
      NewNumberIsFree(t, n);
      AddSocket(t', Socket(SocketOf(m), 2 * n, from), t.used + {n});
    }
  }

  /** The halves of the even numbers. */
  function Halves(sockets: seq<Socket>): set<int> { set s | s in sockets && s.server % 2 == 0 :: s.server / 2 }

  lemma UsedAre(t: Tables)
    requires Consistent(t)
    ensures t.used == Halves(t.sockets) && forall n <- t.used :: 0 <= n < MAX_SOCKETS
  {
    forall n | n in t.used
      ensures n in Halves(t.sockets) && 0 <= n < MAX_SOCKETS
    {
      var s :| s in t.sockets && s.server == 2 * n;
      assert Reserved(s.server, t.used);
    }
    assert forall s <- t.sockets :: Reserved(s.server, t.used);
  }

  lemma NoneHas(sockets: seq<Socket>, server: int)
    requires forall i :: 0 <= i < |sockets| ==> sockets[i].server != server
    ensures server % 2 == 0 ==> server / 2 !in Halves(sockets)
  {
  }

  lemma NothingHalved()
    ensures Halves([]) == {}
  {
  }

  lemma HalvesStep(front: seq<Socket>, s: Socket)
    ensures Halves(front + [s]) == Halves(front) + if s.server % 2 == 0 then {s.server / 2} else {}
  {
  }

  lemma {:induction false} HalvesCount(sockets: seq<Socket>)
    requires forall i, j :: 0 <= i < j < |sockets| ==> sockets[i].server != sockets[j].server
    ensures |Halves(sockets)| == |EvenOnes(sockets)|
  {
    hide Halves;
    NothingHalved();
    if sockets != [] {
      var front, s := sockets[..|sockets| - 1], sockets[|sockets| - 1];
      HalvesCount(front);
      assert sockets == front + [s];
      HalvesStep(front, s);
      NoneHas(front, s.server);
    }
  }

  function UpTo(n: nat): (r: set<int>)
    ensures |r| == n && forall k :: k in r <==> 0 <= k < n
  {
    if n == 0 then {} else UpTo(n - 1) + {n - 1}
  }

  lemma SubsetCount(a: set<int>, b: set<int>)
    requires a <= b
    ensures |a| <= |b| && (|a| == |b| ==> a == b)
  {
    assert b == a + (b - a);
  }

  /** A number is left for a new socket exactly if fewer than 256 of these sockets are open. */
  lemma NumberLeftExactlyIf(t: Tables)
    requires Consistent(t)
    ensures |EvenOnes(t.sockets)| <= 256
    ensures Lowest(t.used, 0) != -1 <==> |EvenOnes(t.sockets)| < 256
  {
    hide Lowest, UpTo;
    UsedAre(t);
    forall i, j | 0 <= i < j < |t.sockets| ensures t.sockets[i].server != t.sockets[j].server {
      assert Apart(t.sockets[i], t.sockets[j]);
    }
    HalvesCount(t.sockets);
    SubsetCount(t.used, UpTo(MAX_SOCKETS));
    AllOrLess(t.used);
  }

  lemma AllOrLess(used: set<int>)
    requires used <= UpTo(MAX_SOCKETS)
    ensures Lowest(used, 0) == -1 <==> used == UpTo(MAX_SOCKETS)
  {
    hide Lowest, UpTo;
  }

  lemma LowestIsFree(used: set<int>)
    ensures var n := Lowest(used, 0); n == -1 || (0 <= n < MAX_SOCKETS && n !in used)
  {
  }

  lemma ReplyKeepsConsistent(t: Tables, m: bytes)
    requires Consistent(t) && Whole(m)
    ensures Consistent(Replied(t, m).tables)
  {
    hide First, Without, Drop, Translated, SocketOf, WithSocket;
    var f := First(t.requests, HasId(IdOf(m)));
    if f.Some? {
      var t' := Answered(t, IdOf(m));
      if FunctionOf(m) == FN_Close {
        TranslatedIsWhole(t, m, f.value);
        CloseKeepsConsistent(t', SocketOf(Translated(t, m, f.value)), f.value.sender);
      }
    }
  }

  lemma CloseKeepsConsistent(t: Tables, client: int, owner: int)
    requires Consistent(t)
    ensures Consistent(Closed(t, client, owner))
  {
    hide First, Without, Drop;
    if First(t.sockets, IsOwn(client, owner)).Some? {
      TakenOut(t.sockets, IsOwn(client, owner));
      var i := Place(t.sockets, IsOwn(client, owner));
      hide Closed, Apart, Held, Reserved;
      ClosedHolds(t, client, owner, i);
      ClosedReserves(t, client, owner, i);
      DropKeepsApart(t.sockets, i);
      ClosedIs(t, client, owner, i);
    }
  }

  lemma ClosedIs(t: Tables, client: int, owner: int, i: nat)
    requires i < |t.sockets| && First(t.sockets, IsOwn(client, owner)) == Some(t.sockets[i])
    requires Without(t.sockets, IsOwn(client, owner)) == Drop(t.sockets, i)
    ensures Closed(t, client, owner).sockets == Drop(t.sockets, i)
  {
  }

  lemma DropKeepsApart(sockets: seq<Socket>, i: nat)
    requires i < |sockets| && forall j, k :: 0 <= j < k < |sockets| ==> Apart(sockets[j], sockets[k])
    ensures var rest := Drop(sockets, i); forall j, k :: 0 <= j < k < |rest| ==> Apart(rest[j], rest[k])
  {
    hide Apart;
  }

  /** Each number that stays in the bitmap is still some socket's. */
  lemma ClosedHolds(t: Tables, client: int, owner: int, i: nat)
    requires Consistent(t) && i < |t.sockets| && First(t.sockets, IsOwn(client, owner)) == Some(t.sockets[i])
    requires Without(t.sockets, IsOwn(client, owner)) == Drop(t.sockets, i)
    ensures forall n <- Closed(t, client, owner).used :: Held(n, Drop(t.sockets, i))
  {
    hide First, Without, Drop;
    forall n | n in Closed(t, client, owner).used ensures Held(n, Drop(t.sockets, i)) {
      var x :| x in t.sockets && x.server == 2 * n;
      OthersStay(t.sockets, IsOwn(client, owner), x);
      assert x in Drop(t.sockets, i);
    }
  }

  /** Each even number that stays in use stays in the bitmap. */
  lemma ClosedReserves(t: Tables, client: int, owner: int, i: nat)
    requires Consistent(t) && i < |t.sockets| && First(t.sockets, IsOwn(client, owner)) == Some(t.sockets[i])
    ensures forall s <- Drop(t.sockets, i) :: Reserved(s.server, Closed(t, client, owner).used)
  {
    hide First, Without, Drop;
    var rest := Drop(t.sockets, i);
    forall s | s in rest ensures Reserved(s.server, Closed(t, client, owner).used) {
      var j := IndexOf(rest, s);
      var k := if j < i then j else j + 1;
      assert t.sockets[k] in t.sockets && Reserved(t.sockets[k].server, t.used);
      assert Apart(t.sockets[if k < i then k else i], t.sockets[if k < i then i else k]);
    }
  }

  lemma DataKeepsConsistent(t: Tables, m: bytes)
    requires Consistent(t) && Allowed(t, Data(m))
    ensures Consistent(DataCame(t, m).tables)
  {
    hide First;
    var f := First(t.sockets, HasServer(Signed(IdOf(m))));
    if f.Some? && FunctionOf(m) == FN_Accept {
      AddSocket(t, Socket(NewSocket(m), NewSocket(m), f.value.owner), t.used);
    }
  }

  /** Every step keeps the numbers unique. */
  lemma StepKeepsConsistent(t: Tables, e: Event)
    requires Consistent(t) && Allowed(t, e)
    ensures Consistent(Step(t, e))
  {
    match e
    case Ask(from, m) => AskKeepsConsistent(t, from, m);
    case Reply(m) => ReplyKeepsConsistent(t, m);
    case Data(m) => DataKeepsConsistent(t, m);
  }

  /** A run, event by event, as long as all is as it should be. */
  predicate AllAllowed(t: Tables, es: seq<Event>)
    decreases |es|
  {
    es == [] || (Allowed(t, es[0]) && AllAllowed(Step(t, es[0]), es[1..]))
  }

  function After(t: Tables, es: seq<Event>): Tables
    requires AllAllowed(t, es)
    decreases |es|
  {
    if es == [] then t else After(Step(t, es[0]), es[1..])
  }

  lemma {:induction false} RunKeepsConsistent(t: Tables, es: seq<Event>)
    requires Consistent(t) && AllAllowed(t, es)
    ensures Consistent(After(t, es))
    decreases |es|
  {
    if es != [] {
      StepKeepsConsistent(t, es[0]);
      RunKeepsConsistent(Step(t, es[0]), es[1..]);
    }
  }

  // ---------------------------------------------------------------------------------------------
  // Replies find their way back
  // ---------------------------------------------------------------------------------------------

  /** Where numbers are unique, a search finds the entry that is meant. */
  lemma ServerFound(t: Tables, s: Socket)
    requires Consistent(t) && s in t.sockets
    ensures First(t.sockets, HasServer(s.server)) == Some(s)
  {
    hide First;
    var i := IndexOf(t.sockets, s);
    assert forall j :: 0 <= j < i ==> Apart(t.sockets[j], t.sockets[i]);
    Found(t.sockets, i, HasServer(s.server));
  }

  lemma IndexOf<T>(s: seq<T>, x: T) returns (i: nat)
    requires x in s
    ensures i < |s| && s[i] == x
  {
    i :| i < |s| && s[i] == x;
  }

  lemma OthersStay<T>(s: seq<T>, p: T -> bool, x: T)
    requires x in s && First(s, p).Some? && First(s, p) != Some(x)
    ensures x in Without(s, p)
  {
    hide First, Without;
    TakenOut(s, p);
    var i := Place(s, p);
    var j := IndexOf(s, x);
    assert Drop(s, i)[if j < i then j else j - 1] == x;
  }

  /** The reply to a close call of the owner's, for this very socket. */
  predicate Closes(t: Tables, m: bytes, s: Socket) {
    && Whole(m) && FunctionOf(m) == FN_Close
    && var r := First(t.requests, HasId(IdOf(m)));
       r.Some? && r.value.sender == s.owner
       && var m' := Translated(t, m, r.value);
          TranslatedIsWhole(t, m, r.value); SocketOf(m') == s.client
  }

  /**
   The reply to a close: the socket is forgotten, its number on the link is free for the next, and all
   other sockets stay.
   */
  lemma ClosedIsFree(t: Tables, m: bytes, s: Socket)
    requires Consistent(t) && s in t.sockets && Closes(t, m, s)
    ensures var u := Replied(t, m).tables;
      && Consistent(u)
      && (forall x <- u.sockets :: x.server != s.server && (x.client != s.client || x.owner != s.owner))
      && (s.server % 2 == 0 ==> s.server / 2 !in u.used && 0 <= Lowest(u.used, 0) <= s.server / 2)
      && (forall x <- t.sockets :: x == s || x in u.sockets)
  {
    hide First, Without, Drop, Translated, SocketOf, Lowest;
    ReplyKeepsConsistent(t, m);
    var r := First(t.requests, HasId(IdOf(m))).value;
    TranslatedIsWhole(t, m, r);
    var own := IsOwn(s.client, s.owner);
    OwnFound(t, s);
    TakenOut(t.sockets, own);
    var u, i := Replied(t, m).tables, Place(t.sockets, own);
    forall x | x in t.sockets && x != s ensures x in u.sockets { OthersStay(t.sockets, own, x); }
    forall x | x in u.sockets ensures x.server != s.server && (x.client != s.client || x.owner != s.owner) {
      var j := IndexOf(Drop(t.sockets, i), x);
      var k := if j < i then j else j + 1;
      assert Apart(t.sockets[if k < i then k else i], t.sockets[if k < i then i else k]);
    }
    if s.server % 2 == 0 {
      assert Reserved(s.server, t.used);
      LowestIsLow(u.used, s.server / 2);
    }
  }

  lemma LowestIsLow(used: set<int>, n: nat)
    requires n < MAX_SOCKETS && n !in used
    ensures 0 <= Lowest(used, 0) <= n
  {
  }

  lemma OwnFound(t: Tables, s: Socket)
    requires Consistent(t) && s in t.sockets
    ensures First(t.sockets, IsOwn(s.client, s.owner)) == Some(s)
  {
    hide First;
    var i := IndexOf(t.sockets, s);
    assert forall j :: 0 <= j < i ==> Apart(t.sockets[j], t.sockets[i]);
    Found(t.sockets, i, IsOwn(s.client, s.owner));
  }

  /**
   In every run the bitmap has just the numbers of the sockets that are open, so however many were opened
   and closed before, a new socket gets a number on the link as long as fewer than 256 are open.
   */
  lemma NumbersAreNotLost(es: seq<Event>, from: int, m: bytes)
    requires AllAllowed(START, es)
    ensures var t := After(START, es);
      && t.used == (set s | s in t.sockets && s.server % 2 == 0 :: s.server / 2)
      && |EvenOnes(t.sockets)| <= 256
      && (Whole(m) && FunctionOf(m) == FN_Socket && SocketOf(m) != -1 && |EvenOnes(t.sockets)| < 256 ==>
            var all := Asked(t, m, from).sockets;
            && |all| == |t.sockets| + 1 && all[|t.sockets|].client == SocketOf(m) && all[|t.sockets|].owner == from
            && var n := all[|t.sockets|].server;
               n % 2 == 0 && 0 <= n < 512 && n / 2 !in t.used && forall k :: 0 <= k < n / 2 ==> k in t.used)
  {
    hide First, SocketOf, AllAllowed, After, Asked, EvenOnes;
    var t := After(START, es);
    RunKeepsConsistent(START, es);
    UsedAre(t);
    NumberLeftExactlyIf(t);
    if Whole(m) && FunctionOf(m) == FN_Socket && SocketOf(m) != -1 && |EvenOnes(t.sockets)| < 256 {
      NewSocketIsLowest(t, from, m);
    }
  }

  lemma NewSocketIsLowest(t: Tables, from: int, m: bytes)
    requires Lowest(t.used, 0) != -1 && Whole(m) && FunctionOf(m) == FN_Socket && SocketOf(m) != -1
    ensures var all := Asked(t, m, from).sockets;
      && |all| == |t.sockets| + 1 && all[|t.sockets|].client == SocketOf(m) && all[|t.sockets|].owner == from
      && var n := all[|t.sockets|].server;
         n % 2 == 0 && 0 <= n < 512 && n / 2 !in t.used && forall k :: 0 <= k < n / 2 ==> k in t.used
  {
    hide SocketOf;
  }

  /** Where the request at `i` is after a step, or None if the step has answered it. */
  function PlaceAfter(t: Tables, e: Event, i: nat): Option<nat> {
    if e.Reply? && Whole(e.m) && First(t.requests, HasId(IdOf(e.m))).Some? then
      var p := Place(t.requests, HasId(IdOf(e.m)));
      if p < i then Some(i - 1) else if p == i then None else Some(i)
    else Some(i)
  }

  /** A reply takes one request off the list, and nothing else. */
  lemma ReplyTakesOne(t: Tables, m: bytes)
    requires Whole(m)
    ensures var t' := Replied(t, m).tables; var i := Place(t.requests, HasId(IdOf(m)));
      && t'.next == t.next
      && if First(t.requests, HasId(IdOf(m))).Some? then i < |t.requests| && t'.requests == Drop(t.requests, i)
         else t'.requests == t.requests
  {
    hide First, Without, Drop, Place, SocketOf, Translated;
    if First(t.requests, HasId(IdOf(m))).Some? {
      TakenOut(t.requests, HasId(IdOf(m)));
      TranslatedIsWhole(t, m, First(t.requests, HasId(IdOf(m))).value);
    }
  }

  lemma RequestStays(t: Tables, e: Event, i: nat)
    requires Allowed(t, e) && i < |t.requests| && PlaceAfter(t, e, i).Some?
    ensures var j := PlaceAfter(t, e, i).value; j < |Step(t, e).requests| && Step(t, e).requests[j] == t.requests[i]
  {
    hide First, Without, Place, Translated, SocketOf, Lowest, Replied;
    if e.Reply? { ReplyTakesOne(t, e.m); }
  }

  lemma SocketStays(t: Tables, e: Event, s: Socket)
    requires Consistent(t) && Allowed(t, e) && s in t.sockets && !(e.Reply? && Closes(t, e.m, s))
    ensures s in Step(t, e).sockets
  {
    hide First, Without, Drop, Translated, SocketOf, Lowest;
    if e.Reply? && FunctionOf(e.m) == FN_Close && First(t.requests, HasId(IdOf(e.m))).Some? {
      var r := First(t.requests, HasId(IdOf(e.m))).value;
      TranslatedIsWhole(t, e.m, r);
      var own := IsOwn(SocketOf(Translated(t, e.m, r)), r.sender);
      if First(t.sockets, own).Some? {
        OthersStay(t.sockets, own, s);
      }
    }
  }

  /** Where the request at `i` is when the run is over, or None if it has been answered. */
  function PlaceIn(t: Tables, es: seq<Event>, i: nat): Option<nat>
    requires AllAllowed(t, es)
    decreases |es|
  {
    if es == [] then Some(i)
    else
      match PlaceAfter(t, es[0], i)
      case None => None
      case Some(j) => PlaceIn(Step(t, es[0]), es[1..], j)
  }

  /** In this run nothing closes the socket. */
  predicate StaysOpen(t: Tables, es: seq<Event>, s: Socket)
    requires AllAllowed(t, es)
    decreases |es|
  {
    es != [] ==> !(es[0].Reply? && Closes(t, es[0].m, s)) && StaysOpen(Step(t, es[0]), es[1..], s)
  }

  lemma {:induction false} RequestWaits(t: Tables, es: seq<Event>, i: nat)
    requires AllAllowed(t, es) && i < |t.requests| && PlaceIn(t, es, i).Some?
    ensures var j := PlaceIn(t, es, i).value; j < |After(t, es).requests| && After(t, es).requests[j] == t.requests[i]
    decreases |es|
  {
    if es != [] {
      hide PlaceAfter, Allowed, Step;
      RequestStays(t, es[0], i);
      RequestWaits(Step(t, es[0]), es[1..], PlaceAfter(t, es[0], i).value);
    }
  }

  lemma {:induction false} SocketWaits(t: Tables, es: seq<Event>, s: Socket)
    requires Consistent(t) && AllAllowed(t, es) && StaysOpen(t, es, s) && s in t.sockets
    ensures s in After(t, es).sockets
    decreases |es|
  {
    if es != [] {
      StepKeepsConsistent(t, es[0]);
      SocketStays(t, es[0], s);
      SocketWaits(Step(t, es[0]), es[1..], s);
    }
  }

  /** The entry of the socket that a request is about. */
  function Subject(t: Tables, m: bytes, from: int): Option<Socket>
    requires Whole(m)
  {
    if HasSocketArg(FunctionOf(m)) then First(t.sockets, IsOwn(SocketOf(m), from)) else None
  }

  /** What is sent bears numbers that stand for the request and its socket. */
  lemma SentBears(t: Tables, from: int, m: bytes)
    requires Consistent(t) && Allowed(t, Ask(from, m))
    ensures var t' := Asked(t, m, from);
      && |t'.requests| == |t.requests| + 1 && t'.requests[|t.requests|] == Request(t.next, from, IdOf(m))
      && Known(t, m, from)
      && var link := Sent(t, m, from);
         (HasSocketArg(FunctionOf(m)) ==>
               var s := Subject(t', m, from);
               s.Some? && s.value in t'.sockets && s.value.owner == from && s.value.client == SocketOf(m)
               && SocketOf(link) == s.value.server)
  {
    hide First, Lowest, SocketOf, WithId, WithSocket, HoldsSocket;
    var t' := Asked(t, m, from);
    assert t'.requests[|t.requests|] == Request(t.next, from, IdOf(m));
    IdChanged(m, t.next);
    if HasSocketArg(FunctionOf(m)) {
      if FunctionOf(m) == FN_Socket {
        FoundLast(t.sockets, t'.sockets[|t.sockets|], IsOwn(SocketOf(m), from));
      }
      var s := Subject(t', m, from).value;
      FirstIsThere(t'.sockets, IsOwn(SocketOf(m), from));
      SocketChanged(WithId(m, t.next), s.server);
    }
  }

  /**
   Of the calls a conversation makes, those numbered 2 to 15, but for 8, are about a socket: what goes
   over the link bears its number there, never the conversation's own.  In all others only the id changes.
   */
  lemma SocketCallsAreTranslated(t: Tables, from: int, m: bytes)
    requires Consistent(t) && Allowed(t, Ask(from, m))
    ensures Known(t, m, from)
    ensures var t', link := Asked(t, m, from), Sent(t, m, from);
      if 2 <= 256 * m[0] as int + m[1] as int <= 15 && 256 * m[0] as int + m[1] as int != 8 then
        exists s :: s in t'.sockets && s.owner == from && s.client == SocketOf(m) && SocketOf(link) == s.server
      else link == Replaced(m, 6, Short(t.next))
  {
    hide First, Lowest, SocketOf, WithSocket, HoldsSocket, Asked;
    SentBears(t, from, m);
  }

  lemma FirstIsThere<T>(s: seq<T>, p: T -> bool)
    requires First(s, p).Some?
    ensures First(s, p).value in s && p(First(s, p).value)
  {
  }

  lemma FoundLast<T>(s: seq<T>, x: T, p: T -> bool)
    requires First(s, p).None? && p(x)
    ensures First(s + [x], p) == Some(x)
  {
    FirstAfter(s, [x], p);
  }

  /** No older request with the same id is still waiting. */
  predicate IsOldest(t: Tables, i: nat) {
    i < |t.requests| && forall k :: 0 <= k < i ==> t.requests[k].id != t.requests[i].id
  }

  /** After its reply an id is found again only if another request holds it too. */
  lemma FoundOnce(t: Tables, i: nat)
    requires IsOldest(t, i)
    ensures First(Drop(t.requests, i), HasId(t.requests[i].id)).None? <==>
      forall k :: i < k < |t.requests| ==> t.requests[k].id != t.requests[i].id
  {
    hide First;
    var rest, id := Drop(t.requests, i), t.requests[i].id;
    if First(rest, HasId(id)).None? {
      forall k | i < k < |t.requests| ensures t.requests[k].id != id {
        NoneBefore(rest, HasId(id), k - 1);
      }
    } else {
      PlaceIsFirst(rest, HasId(id));
      assert rest[Place(rest, HasId(id))].id == id;
    }
  }

  /**
   Transparent proxying.  Whatever happens between a request and its reply, so long as the request has
   not been answered, its socket not been closed, and no older request with the same id waits, the
   reply reaches the conversation that made the request, and bears the id and the socket number that
   the conversation gave.  It does so once: the same reply again reaches nobody, unless a later request
   holds the id as well.
   */
  lemma RepliesComeBack(t: Tables, from: int, m: bytes, es: seq<Event>, reply: bytes)
    requires Consistent(t) && Allowed(t, Ask(from, m)) && Known(t, m, from)
    requires AllAllowed(Asked(t, m, from), es)
    requires var t' := Asked(t, m, from); var s := Subject(t', m, from); var i := PlaceIn(t', es, |t.requests|);
      && i.Some? && IsOldest(After(t', es), i.value)
      && (s.Some? ==> StaysOpen(t', es, s.value))
    requires Whole(reply) && FunctionOf(reply) == FunctionOf(m) && IdOf(reply) == IdOf(Sent(t, m, from))
    requires HasSocketArg(FunctionOf(m)) ==> SocketOf(reply) == SocketOf(Sent(t, m, from))
    ensures var t' := Asked(t, m, from); var u := After(t', es); var x := Replied(u, reply);
      && x.delivery.Some? && x.delivery.value.to == from
      && var got := x.delivery.value.message;
      && Whole(got) && |got| == |reply| && FunctionOf(got) == FunctionOf(m)
      && IdOf(got) == IdOf(m) && (HasSocketArg(FunctionOf(m)) ==> SocketOf(got) == SocketOf(m))
      && var i := PlaceIn(t', es, |t.requests|).value;
      && x.tables.requests == Drop(u.requests, i)
      && (Replied(x.tables, reply).delivery.None? <==>
            forall k :: i < k < |u.requests| ==> u.requests[k].id != IdOf(reply))
  {
    hide First, Without, Lowest, SocketOf, WithId, WithSocket, HoldsSocket, Translated, Drop, Place, Asked, Closed;
    var t' := Asked(t, m, from);
    var s, i := Subject(t', m, from), PlaceIn(t', es, |t.requests|).value;
    var u := After(t', es);
    SentBears(t, from, m);
    StepKeepsConsistent(t, Ask(from, m));
    RequestWaits(t', es, |t.requests|);
    RunKeepsConsistent(t', es);
    PlaceIs(u.requests, HasId(IdOf(reply)), i);
    ReplyTakesOne(u, reply);
    FoundOnce(u, i);
    if s.Some? {
      SocketWaits(t', es, s.value);
      ServerFound(u, s.value);
    }
    TranslatedIsWhole(u, reply, u.requests[i]);
  }

  /** Two messages agree except in the id and in the socket. */
  predicate SameElsewhere(a: bytes, b: bytes) {
    |a| == |b| && forall i | 0 <= i < |a| && !(6 <= i < 8) && !(14 <= i < 18) :: a[i] == b[i]
  }

  /** Of a socket two bytes long only the two, and of no socket nothing. */
  predicate SameAround(a: bytes, b: bytes)
    requires |b| >= HEADER && |a| == |b|
  {
    && (forall i | 16 <= i < |a| && HasSocketArg(FunctionOf(b)) && Width(b) == 2 :: a[i] == b[i])
    && (forall i | 14 <= i < |a| && !HasSocketArg(FunctionOf(b)) :: a[i] == b[i])
  }

  /** The translations touch nothing else. */
  lemma OnlyNumbersChange(t: Tables, m: bytes, from: int, r: Request)
    requires Whole(m)
    ensures SameElsewhere(Translated(t, m, r), m) && SameAround(Translated(t, m, r), m)
    ensures Known(t, m, from) ==> SameElsewhere(Sent(t, m, from), m) && SameAround(Sent(t, m, from), m)
  {
    hide First, Opened, Asked, WithId, WithSocket, SameElsewhere, SameAround, HoldsSocket, SocketOf;
    IdIsElsewhere(m, r.senderId);
    IdIsElsewhere(m, t.next);
    if HasSocketArg(FunctionOf(m)) {
      var s := First(t.sockets, HasServer(SocketOf(m)));
      if s.Some? { NumbersAreElsewhere(m, r.senderId, s.value.client); }
      if Known(t, m, from) {
        NumbersAreElsewhere(m, t.next, First(Asked(t, m, from).sockets, IsOwn(SocketOf(m), from)).value.server);
      }
    }
  }

  lemma IdIsElsewhere(m: bytes, id: word)
    requires |m| >= HEADER
    ensures var r := WithId(m, id); |r| == |m| && SameElsewhere(r, m) && SameAround(r, m)
  {
  }

  lemma NumbersAreElsewhere(m: bytes, id: word, socket: int16)
    requires |m| >= HEADER && HasSocketArg(FunctionOf(m)) && HoldsSocket(m)
    ensures HoldsSocket(WithId(m, id))
    ensures var r := WithSocket(WithId(m, id), socket); |r| == |m| && SameElsewhere(r, m) && SameAround(r, m)
  {
    assert Width(WithId(m, id)) == Width(m);
  }

  /** Data and new connections reach the owner of the socket, under the number the owner knows. */
  lemma DataComesThrough(t: Tables, s: Socket, m: bytes)
    requires Consistent(t) && s in t.sockets && WholeData(m) && IdOf(m) == Unsigned(s.server)
    ensures var x := DataCame(t, m);
      x.delivery == Some(Delivery(s.owner, WithId(m, Unsigned(s.client))))
      && (Allowed(t, Data(m)) && FunctionOf(m) == FN_Accept ==>
            First(x.tables.sockets, HasServer(NewSocket(m))) == Some(Socket(NewSocket(m), NewSocket(m), s.owner)))
  {
    hide First, WithId;
    ServerFound(t, s);
    if Allowed(t, Data(m)) && FunctionOf(m) == FN_Accept {
      FoundLast(t.sockets, Socket(NewSocket(m), NewSocket(m), s.owner), HasServer(NewSocket(m)));
    }
  }

  // ---------------------------------------------------------------------------------------------
  // What the host sends of its own
  // ---------------------------------------------------------------------------------------------

  /** SendSocketData: no arguments, the socket's number on the link as the id, the peer's address, and the data. */
  function FromHost(fn: byte, server: int16, peer: bytes, data: bytes): (m: bytes)
    requires |peer| == 16 && |data| < 0x8000 - 26
    ensures |m| == 26 + |data|
  {
    [0, fn, 0, 0, (26 + |data|) / 256, (26 + |data|) % 256,
     (if server < 0 then server + 0x10000 else server) / 256, (if server < 0 then server + 0x10000 else server) % 256,
     0, 0] + peer + data
  }

  lemma FromHostIs(fn: byte, server: int16, peer: bytes, data: bytes)
    requires |peer| == 16 && |data| < 0x8000 - 26
    ensures var m := FromHost(fn, server, peer, data);
      && FunctionOf(m) == fn && IdOf(m) == Unsigned(server) && ShortAt(m, 4) == 26 + |data|
      && forall client: int16 :: WithId(m, Unsigned(client)) == FromHost(fn, client, peer, data)
  {
    var m := FromHost(fn, server, peer, data);
    forall client: int16
      ensures WithId(m, Unsigned(client)) == FromHost(fn, client, peer, data)
    {
    }
  }

  /** Data, or an end, for a socket: its owner gets the same message with its own number for the socket. */
  lemma HostDataArrive(t: Tables, s: Socket, peer: bytes, data: bytes)
    requires Consistent(t) && s in t.sockets && |peer| == 16 && |data| < 0x8000 - 26
    ensures var m := FromHost(16, s.server, peer, data);
      WholeData(m) && DataCame(t, m) == Result(t, Some(Delivery(s.owner, FromHost(16, s.client, peer, data))))
  {
    hide First, WithId, FromHost, IdOf, FunctionOf;
    FromHostIs(16, s.server, peer, data);
    DataComesThrough(t, s, FromHost(16, s.server, peer, data));
  }

  /** A new connection on a socket: its number, in two bytes or in four, is known for the same owner from then on. */
  lemma NewConnectionArrives(t: Tables, s: Socket, peer: bytes, n: nat, four: bool)
    requires Consistent(t) && s in t.sockets && |peer| == 16 && n < 0x8000
    ensures var number: bytes := if four then [0, 0, n / 256, n % 256] else [n / 256, n % 256];
      var m := FromHost(1, s.server, peer, number);
      && WholeData(m)
      && DataCame(t, m) == Result(t.(sockets := t.sockets + [Socket(n, n, s.owner)]),
                                  Some(Delivery(s.owner, FromHost(1, s.client, peer, number))))
  {
    var number: bytes := if four then [0, 0, n / 256, n % 256] else [n / 256, n % 256];
    var m := FromHost(1, s.server, peer, number);
    FromHostIs(1, s.server, peer, number);
    NumberIsRead(s.server, peer, n, number);
    hide First, WithId, FromHost, IdOf, FunctionOf, NewSocket;
    DataComesThrough(t, s, m);
    ServerFound(t, s);
  }

  lemma NumberIsRead(server: int16, peer: bytes, n: nat, number: bytes)
    requires |peer| == 16 && n < 0x8000
    requires number == [0, 0, n / 256, n % 256] || number == [n / 256, n % 256]
    ensures var m := FromHost(1, server, peer, number);
      WholeData(m) && FunctionOf(m) == FN_Accept && NewSocket(m) == n
  {
    var m := FromHost(1, server, peer, number);
    assert m[26..] == number;
    assert m[26] == number[0] && m[27] == number[1];
    if |number| == 4 { assert m[28] == number[2] && m[29] == number[3]; }
  }
}
