/**
 The proxy of TWINSOCK.EXE: its lists, and the messages it rewrites in place.  What the lists hold after
 each procedure, and which bytes of the message have changed, is what module Proxy says on values; the
 ids and socket numbers in a message are read and written in network order, two bytes for an id and two
 or four for a socket.
 */
module TwinSock {
  import opened Wrappers
  import opened Bytes
  import opened TailList
  import opened Proxy
  import SocketNumbers

  // ---------------------------------------------------------------------------------------------
  // Messages in place
  // ---------------------------------------------------------------------------------------------

  method PutId(m: array<byte>, id: word)
    requires m.Length >= HEADER
    modifies m
    ensures m[..] == WithId(old(m[..]), id)
  {
    PutShort(m, 6, id);
    assert m[..] == Replaced(old(m[..]), 6, Short(id));
  }

  method PutSocket(m: array<byte>, socket: int16)
    requires HoldsSocket(m[..])
    modifies m
    ensures m[..] == WithSocket(old(m[..]), socket)
  {
    var high := if socket < 0 then 0xffff else 0;
    if Width(m[..]) == 2 {
      PutShort(m, HEADER + 4, Unsigned(socket));
    } else {
      PutShort(m, HEADER + 4, high);
      PutShort(m, HEADER + 6, Unsigned(socket));
    }
    assert m[..] == WithSocket(old(m[..]), socket);
  }

  // ---------------------------------------------------------------------------------------------
  // The bitmap's choice
  // ---------------------------------------------------------------------------------------------

  lemma ChoiceIsLowest(was: set<nat>, now: set<nat>, n: nat)
    requires SocketNumbers.TakesLowest(was, now, n)
    ensures Lowest(was, 0) == n && 0 <= n < MAX_SOCKETS && now == was + {n}
  {
  }

  lemma NoChoice(used: set<nat>)
    requires forall k: nat :: k < MAX_SOCKETS ==> k in used
    ensures Lowest(used, 0) == -1
  {
  }

  lemma SocketsMatter(t: Tables, t': Tables, m: bytes, r: Request)
    requires Whole(m) && t.sockets == t'.sockets
    ensures Translated(t, m, r) == Translated(t', m, r)
  {
  }

  lemma IdOfDataChanged(m: bytes, id: word)
    requires WholeData(m)
    ensures var r := WithId(m, id);
      && WholeData(r) && FunctionOf(r) == FunctionOf(m)
      && (FunctionOf(m) == FN_Accept ==> NewSocket(r) == NewSocket(m))
  {
  }

  // ---------------------------------------------------------------------------------------------
  // The program
  // ---------------------------------------------------------------------------------------------

  /** The lists and the bitmaps have nothing in common. */
  ghost predicate Footprints(requests: List<Request>, sockets: List<Socket>, numbers: SocketNumbers.Allocator)
    reads requests, sockets
  {
    && requests as object != sockets && requests as object != numbers && sockets as object != numbers
    && (forall n <- requests.nodes :: IsApart(n, {sockets, numbers, numbers.clients, numbers.servers}))
    && (forall n <- sockets.nodes :: IsApart(n, {requests, numbers, numbers.clients, numbers.servers}))
    && (forall a <- requests.nodes, b <- sockets.nodes :: a as object != b)
  }

  predicate IsApart(o: object, s: set<object>) { o !in s }

  class Program {
    const requests: List<Request>
    const sockets: List<Socket>
    const numbers: SocketNumbers.Allocator

    /** The next request's id on the link, as 16 bits. */
    var requestOut: word

    ghost predicate Valid()
      reads this, requests, requests.nodes, sockets, sockets.nodes, numbers, numbers.clients, numbers.servers
    {
      && requests.Valid() && sockets.Valid() && numbers.Valid()
      && Footprints(requests, sockets, numbers)
    }

    /** A message lies elsewhere. */
    ghost predicate Outside(m: array<byte>)
      reads this, requests, sockets
    {
      && IsApart(m, {requests, sockets, numbers, numbers.clients, numbers.servers})
      && (forall n <- requests.nodes :: m as object != n)
      && (forall n <- sockets.nodes :: m as object != n)
    }

    ghost function Tables(): Tables
      requires Valid()
      reads this, requests, requests.nodes, sockets, sockets.nodes, numbers, numbers.clients, numbers.servers
    {
      Proxy.Tables(requests.Contents(), sockets.Contents(), requestOut, numbers.Clients())
    }

    constructor ()
      ensures Valid() && Tables() == START
      ensures fresh(requests) && fresh(sockets) && fresh(numbers) && fresh(numbers.clients) && fresh(numbers.servers)
      ensures requests.nodes == [] && sockets.nodes == []
    {
      requests := new List<Request>();
      sockets := new List<Socket>();
      numbers := new SocketNumbers.Allocator();
      requestOut := 0;
    }

    /** The new request goes at the end of the list. */
    method NoteRequest(from: int, id: word)
      requires Valid()
      modifies this, requests, requests.nodes
      ensures Valid()
      ensures var t := old(Tables());
        Tables() == t.(requests := t.requests + [Request(t.next, from, id)], next := (t.next + 1) % 0x10000)
      ensures forall n <- requests.nodes :: n in old(requests.nodes) || fresh(n)
    {
      hide List.Valid, List.Contents, SocketNumbers.Allocator.Valid, SocketNumbers.Allocator.Clients;
      requests.Append(Request(requestOut, from, id));
      requestOut := (requestOut + 1) % 0x10000;
    }

    method NoteSocket(client: int16, server: int16, owner: int)
      requires Valid()
      modifies sockets, sockets.nodes
      ensures Valid()
      ensures Tables() == old(Tables()).(sockets := old(Tables()).sockets + [Socket(client, server, owner)])
      ensures forall n <- sockets.nodes :: n in old(sockets.nodes) || fresh(n)
    {
      hide List.Valid, List.Contents, SocketNumbers.Allocator.Valid, SocketNumbers.Allocator.Clients;
      sockets.Append(Socket(client, server, owner));
    }

    method OpenSocket(client: int16, owner: int)
      requires Valid()
      modifies sockets, sockets.nodes, numbers, numbers.clients, numbers.servers
      ensures Valid() && Tables() == Opened(old(Tables()), client, owner)
      ensures forall n <- sockets.nodes :: n in old(sockets.nodes) || fresh(n)
    {
      hide Lowest, SocketNumbers.TakesLowest, List.Valid, List.Contents,
           SocketNumbers.Allocator.Valid, SocketNumbers.Allocator.Clients;
      ghost var was := numbers.Clients();
      var server := numbers.GetClientSocket();
      if server == -1 {
        NoChoice(was);
      } else {
        ghost var n: nat :| SocketNumbers.TakesLowest(was, numbers.Clients(), n) && server == 2 * n;
        ChoiceIsLowest(was, numbers.Clients(), n);
      }
      sockets.Append(Socket(client, server, owner));
    }

    /** A request comes from a conversation: it is noted, and rewritten for the link. */
    method ResponseReceived(m: array<byte>, from: int)
      requires Valid() && Outside(m) && Whole(m[..]) && Known(Tables(), m[..], from)
      modifies this, m, requests, requests.nodes, sockets, sockets.nodes, numbers, numbers.clients, numbers.servers
      ensures Valid() && Tables() == Asked(old(Tables()), old(m[..]), from)
      ensures m[..] == Sent(old(Tables()), old(m[..]), from)
      ensures forall n <- requests.nodes :: n in old(requests.nodes) || fresh(n)
      ensures forall n <- sockets.nodes :: n in old(sockets.nodes) || fresh(n)
    {
      hide First, Lowest, Opened, Replaced, SocketOf, WithId, WithSocket, List.Valid, List.Contents,
           SocketNumbers.Allocator.Valid, SocketNumbers.Allocator.Clients;
      ghost var was, t := m[..], Tables();
      IdChanged(was, t.next);
      var id := requestOut;
      NoteRequest(from, IdOf(m[..]));
      PutId(m, id);
      var function' := FunctionOf(m[..]);
      if HasSocketArg(function') {
        var i := SocketOf(m[..]);
        if function' == FN_Socket && i != -1 {
          OpenSocket(i, from);
        }
        var s := sockets.Find(IsOwn(i, from));
        PutSocket(m, s.value.server);
      }
    }

    /** The reply to a request: it is translated back, its request taken off the list, a closed socket forgotten. */
    method AdjustRequestIn(m: array<byte>) returns (to: Option<int>)
      requires Valid() && Outside(m) && Whole(m[..])
      requires forall s <- Tables().sockets :: Reserved(s.server, Tables().used)
      modifies m, requests, requests.nodes, sockets, sockets.nodes, numbers.clients
      ensures Valid()
      ensures var x := Replied(old(Tables()), old(m[..]));
        && Tables() == x.tables
        && (if x.delivery.None? then to == None && m[..] == old(m[..])
            else to == Some(x.delivery.value.to) && m[..] == x.delivery.value.message)
      ensures forall n <- requests.nodes :: n in old(requests.nodes)
      ensures forall n <- sockets.nodes :: n in old(sockets.nodes)
    {
      hide First, Without, Closed, Replaced, SocketOf, WithId, WithSocket, Translated, List.Valid, List.Contents,
           SocketNumbers.Allocator.Valid, SocketNumbers.Allocator.Clients;
      ghost var was, t := m[..], Tables();
      var r := requests.Remove(HasId(IdOf(m[..])));
      if r.None? {
        NothingTaken(t.requests, HasId(IdOf(was)));
        return None;
      }
      TranslatedIsWhole(t, was, r.value);
      SocketsMatter(t, Tables(), was, r.value);
      TranslateBack(m, r.value);
      if FunctionOf(m[..]) == FN_Close {
        CloseSocket(SocketOf(m[..]), r.value.sender);
      }
      to := Some(r.value.sender);
    }

    /** The id and the socket of a reply become the conversation's own. */
    method TranslateBack(m: array<byte>, r: Request)
      requires Valid() && Outside(m) && Whole(m[..])
      modifies m
      ensures Valid() && Tables() == old(Tables()) && m[..] == Translated(Tables(), old(m[..]), r)
    {
      hide First, Replaced, SocketOf, WithId, WithSocket, List.Valid, List.Contents,
           SocketNumbers.Allocator.Valid, SocketNumbers.Allocator.Clients;
      IdChanged(m[..], r.senderId);
      PutId(m, r.senderId);
      if HasSocketArg(FunctionOf(m[..])) {
        var s := sockets.Find(HasServer(SocketOf(m[..])));
        if s.Some? {
          PutSocket(m, s.value.client);
        }
      }
    }

    method CloseSocket(client: int16, owner: int)
      requires Valid() && forall s <- Tables().sockets :: Reserved(s.server, Tables().used)
      modifies sockets, sockets.nodes, numbers.clients
      ensures Valid() && Tables() == Closed(old(Tables()), client, owner)
      ensures forall n <- sockets.nodes :: n in old(sockets.nodes)
    {
      hide First, Without, List.Valid, List.Contents, SocketNumbers.Allocator.Valid, SocketNumbers.Allocator.Clients;
      ghost var t := Tables();
      var s := sockets.Remove(IsOwn(client, owner));
      if s.None? { NothingTaken(t.sockets, IsOwn(client, owner)); }
      if s.Some? { FirstIsThere(t.sockets, IsOwn(client, owner)); }
      if s.Some? && s.value.server % 2 == 0 {
        numbers.ReleaseClientSocket(s.value.server);
      }
    }

    /** Data, or a new connection, for a socket. */
    method AdjustDataIn(m: array<byte>) returns (to: Option<int>)
      requires Valid() && Outside(m) && WholeData(m[..])
      modifies m, sockets, sockets.nodes
      ensures Valid()
      ensures var x := DataCame(old(Tables()), old(m[..]));
        && Tables() == x.tables
        && (if x.delivery.None? then to == None && m[..] == old(m[..])
            else to == Some(x.delivery.value.to) && m[..] == x.delivery.value.message)
      ensures forall n <- sockets.nodes :: n in old(sockets.nodes) || fresh(n)
    {
      hide First, NewSocket, WithId, Replaced, List.Valid, List.Contents,
           SocketNumbers.Allocator.Valid, SocketNumbers.Allocator.Clients;
      var s := sockets.Find(HasServer(Signed(IdOf(m[..]))));
      if s.None? {
        return None;
      }
      IdOfDataChanged(m[..], Unsigned(s.value.client));
      PutId(m, Unsigned(s.value.client));
      if FunctionOf(m[..]) == FN_Accept {
        NoteSocket(NewSocket(m[..]), NewSocket(m[..]), s.value.owner);
      }
      to := Some(s.value.owner);
    }
  }
}
