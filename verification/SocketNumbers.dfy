/**
 getsock.c: socket numbers from two bitmaps, even ones for clients and odd ones for the host.  Each
 bitmap has 256 bits in 8 words.  Clients' numbers are twice the bit's number, the host's twice that and
 one more, so the two sides of the link never give out the same number though neither asks the other;
 the lowest free one is given.
 */
module SocketNumbers {
  import opened Words

  const MAX_SOCKETS := 256
  const MAX_SOCKINTS := 8

  // ---------------------------------------------------------------------------------------------
  // The bitmap as a set
  // ---------------------------------------------------------------------------------------------

  predicate IsUsed(words: seq<bv32>, n: nat)
    requires |words| == MAX_SOCKINTS && n < MAX_SOCKETS
  {
    Has(words[n / INT_BITS], Mask(n % INT_BITS))
  }

  ghost function Used(words: seq<bv32>): (u: set<nat>)
    requires |words| == MAX_SOCKINTS
    ensures forall n: nat :: n in u <==> n < MAX_SOCKETS && IsUsed(words, n)
  {
    set n: nat | n < MAX_SOCKETS && IsUsed(words, n)
  }

  lemma Place(i: nat, j: nat, n: nat)
    requires n == i * INT_BITS + j && j < INT_BITS
    ensures n / INT_BITS == i && n % INT_BITS == j
  {
  }

  /** One bit of one word is set or cleared. */
  lemma WordChanges(was: seq<bv32>, words: seq<bv32>, i: nat, j: nat, n: nat, now: bool)
    requires |was| == MAX_SOCKINTS == |words| && i < MAX_SOCKINTS && j < INT_BITS && n == i * INT_BITS + j
    requires forall k :: 0 <= k < |was| && k != i ==> words[k] == was[k]
    requires forall k: nat :: k < INT_BITS ==> (Has(words[i], Mask(k)) <==> if k == j then now else Has(was[i], Mask(k)))
    ensures Used(words) == if now then Used(was) + {n} else Used(was) - {n}
  {
  }

  /** GetNewSocket: takes the lowest number that is free, or answers -1 exactly if none is. */
  method GetNewSocket(sockets: array<bv32>) returns (n: int)
    requires sockets.Length == MAX_SOCKINTS
    modifies sockets
    ensures n == -1 ==> sockets[..] == old(sockets[..]) && forall k: nat :: k < MAX_SOCKETS ==> k in Used(sockets[..])
    ensures n != -1 ==>
      && 0 <= n < MAX_SOCKETS && n !in Used(old(sockets[..]))
      && (forall k: nat :: k < n ==> k in Used(old(sockets[..])))
      && Used(sockets[..]) == Used(old(sockets[..])) + {n}
  {
    hide IsUsed, Mask, Has, With, Without, Double;
    ghost var was := sockets[..];
    var i := 0;
    while i < MAX_SOCKINTS
      invariant i <= MAX_SOCKINTS && sockets[..] == was
      invariant forall k: nat :: k < i * INT_BITS ==> k in Used(was)
    {
      var j, now: bv32 := 0, 1;
      FirstMask();
      while j < INT_BITS
        invariant j <= INT_BITS && now == Mask(j) && sockets[..] == was
        invariant forall k: nat :: k < i * INT_BITS + j ==> k in Used(was)
      {
        InUse(was, i, j, i * INT_BITS + j);
        if !Has(sockets[i], now) {
          sockets[i] := With(sockets[i], now);
          BitsChange(was[i], j);
          WordChanges(was, sockets[..], i, j, i * INT_BITS + j, true);
          return i * INT_BITS + j;
        }
        NextMask(j);
        j, now := j + 1, Double(now);
      }
      i := i + 1;
    }
    n := -1;
  }

  lemma InUse(words: seq<bv32>, i: nat, j: nat, n: nat)
    requires |words| == MAX_SOCKINTS && i < MAX_SOCKINTS && j < INT_BITS && n == i * INT_BITS + j
    ensures n < MAX_SOCKETS && (n in Used(words) <==> Has(words[i], Mask(j)))
  {
    hide Mask, Has, With, Without;
    Place(i, j, n);
  }

  method ReleaseSocket(sockets: array<bv32>, n: nat)
    requires sockets.Length == MAX_SOCKINTS && n < MAX_SOCKETS
    modifies sockets
    ensures Used(sockets[..]) == Used(old(sockets[..])) - {n}
    ensures forall i :: 0 <= i < MAX_SOCKINTS && old(sockets[i]) == 0 ==> sockets[i] == 0
  {
    hide IsUsed, Mask, Has, With, Without;
    ghost var was := sockets[..];
    var i, j := n / INT_BITS, n % INT_BITS;
    ZeroAnd(Mask(j));
    sockets[i] := Without(sockets[i], Mask(j));
    BitsChange(was[i], j);
    WordChanges(was, sockets[..], i, j, n, false);
  }

  // ---------------------------------------------------------------------------------------------
  // The two bitmaps
  // ---------------------------------------------------------------------------------------------

  lemma ZeroIsEmpty(words: seq<bv32>)
    requires |words| == MAX_SOCKINTS && forall i :: 0 <= i < |words| ==> words[i] == 0
    ensures Used(words) == {}
  {
    forall n: nat | n < MAX_SOCKETS ensures !IsUsed(words, n) {
      ZeroAnd(Mask(n % INT_BITS));
    }
  }

  class Allocator {
    const clients: array<bv32>
    const servers: array<bv32>
    var initialised: bool

    ghost predicate Valid()
      reads this, clients, servers
    {
      && clients != servers && clients.Length == servers.Length == MAX_SOCKINTS
      && (!initialised ==> forall i :: 0 <= i < MAX_SOCKINTS ==> clients[i] == 0 && servers[i] == 0)
    }

    /** The client numbers in use, halved, and the server numbers in use, halved. */
    ghost function Clients(): set<nat>
      requires Valid()
      reads this, clients, servers
    {
      Used(clients[..])
    }

    ghost function Servers(): set<nat>
      requires Valid()
      reads this, clients, servers
    {
      Used(servers[..])
    }

    constructor ()
      ensures Valid() && fresh(clients) && fresh(servers)
      ensures Clients() == {} && Servers() == {}
    {
      clients := new bv32[MAX_SOCKINTS](_ => 0);
      servers := new bv32[MAX_SOCKINTS](_ => 0);
      initialised := false;
      new;
      ZeroIsEmpty(clients[..]);
      ZeroIsEmpty(servers[..]);
    }

    method InitSocks()
      requires Valid()
      modifies this, clients, servers
      ensures Valid() && initialised && clients[..] == old(clients[..]) && servers[..] == old(servers[..])
    {
      if !initialised {
        initialised := true;
        for i := 0 to MAX_SOCKINTS
          invariant initialised && clients[..] == old(clients[..]) && servers[..] == old(servers[..])
        {
          clients[i] := 0;
          servers[i] := 0;
        }
      }
    }

    /** The lowest even number that is free, or -1 exactly if all are taken. */
    method GetClientSocket() returns (socket: int)
      requires Valid()
      modifies this, clients, servers
      ensures Valid() && Servers() == old(Servers())
      ensures socket == -1 ==> Clients() == old(Clients()) && forall k: nat :: k < MAX_SOCKETS ==> k in Clients()
      ensures socket != -1 ==> exists n: nat :: TakesLowest(old(Clients()), Clients(), n) && socket == 2 * n
    {
      InitSocks();
      socket := GetNewSocket(clients);
      if socket != -1 {
        assert TakesLowest(old(Clients()), Clients(), socket);
        return socket * 2;
      }
    }

    /** The lowest odd number that is free, or -1 exactly if all are taken. */
    method GetServerSocket() returns (socket: int)
      requires Valid()
      modifies this, clients, servers
      ensures Valid() && Clients() == old(Clients())
      ensures socket == -1 ==> Servers() == old(Servers()) && forall k: nat :: k < MAX_SOCKETS ==> k in Servers()
      ensures socket != -1 ==> exists n: nat :: TakesLowest(old(Servers()), Servers(), n) && socket == 2 * n + 1
    {
      InitSocks();
      socket := GetNewSocket(servers);
      if socket != -1 {
        assert TakesLowest(old(Servers()), Servers(), socket);
        return socket * 2 + 1;
      }
    }

    /** An even number is free again. */
    method ReleaseClientSocket(socket: nat)
      requires Valid() && socket < 2 * MAX_SOCKETS
      modifies clients
      ensures Valid() && Servers() == old(Servers()) && Clients() == old(Clients()) - {socket / 2}
    {
      ReleaseSocket(clients, socket / 2);
    }

    /** An odd number is free again. */
    method ReleaseServerSocket(socket: nat)
      requires Valid() && 0 < socket <= 2 * MAX_SOCKETS
      modifies servers
      ensures Valid() && Clients() == old(Clients()) && Servers() == old(Servers()) - {(socket - 1) / 2}
    {
      ReleaseSocket(servers, (socket - 1) / 2);
    }
  }

  /** `n` was the lowest number free and is now taken, and nothing else has changed. */
  ghost predicate TakesLowest(was: set<nat>, now: set<nat>, n: nat) {
    n < MAX_SOCKETS && n !in was && (forall k: nat :: k < n ==> k in was) && now == was + {n}
  }
}
