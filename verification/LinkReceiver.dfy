/** The reorder buffer of packet.c: InsertIntoIncoming puts packets back in order. */
module LinkReceiver {
  import opened Bytes

  /**
   `next` is nInSeq, the next id to hand on; `early` the packets that came in ahead of it; `delivered`
   the data of every packet handed to DataReceived, in order.
   */
  datatype Inbox = Inbox(next: nat, early: map<nat, bytes>, delivered: seq<bytes>)

  const EMPTY := Inbox(0, map[], [])

  /** Hands on packets while the next one is there. */
  function Drain(r: Inbox): (d: Inbox)
    ensures d.next !in d.early && d.next >= r.next && |d.delivered| - |r.delivered| == d.next - r.next
    decreases |r.early|
  {
    if r.next in r.early then
      Drain(Inbox(r.next + 1, r.early - {r.next}, r.delivered + [r.early[r.next]]))
    else r
  }

  /** A data frame has come in: ProcessData drops what was handed on, InsertIntoIncoming what is held. */
  function Accept(r: Inbox, id: nat, data: bytes): Inbox {
    if id < r.next || id in r.early then r else Drain(r.(early := r.early[id := data]))
  }

  /** Everything held lies ahead of the next id. */
  ghost predicate Ahead(r: Inbox) { forall id :: id in r.early ==> id > r.next }

  /** What has come in at least once. */
  predicate Has(r: Inbox, id: nat) { id < r.next || id in r.early }

  /** The reference: draining stops at the least id that has not come in, and loses nothing on the way. */
  lemma {:induction false} DrainsToGap(r: Inbox)
    requires forall id :: id in r.early ==> id >= r.next
    ensures var d := Drain(r);
      && d.next >= r.next && |d.delivered| - |r.delivered| == d.next - r.next
      && Ahead(d) && !Has(r, d.next)
      && (forall id :: r.next <= id < d.next ==>
            id in r.early && d.delivered[|r.delivered| + id - r.next] == r.early[id])
      && r.delivered <= d.delivered
      && (forall id :: id in d.early <==> id in r.early && id >= d.next)
      && (forall id :: id in d.early ==> d.early[id] == r.early[id])
    decreases |r.early|
  {
    if r.next in r.early {
      var r' := Inbox(r.next + 1, r.early - {r.next}, r.delivered + [r.early[r.next]]);
      DrainsToGap(r');
      var d := Drain(r);
      assert d == Drain(r') && r'.delivered <= d.delivered;
      forall id | r.next <= id < d.next
        ensures id in r.early && d.delivered[|r.delivered| + id - r.next] == r.early[id]
      {
        if id == r.next {
          assert d.delivered[|r.delivered|] == r'.delivered[|r.delivered|];
        } else {
          assert id in r'.early && d.delivered[|r'.delivered| + id - r'.next] == r'.early[id];
        }
      }
    }
  }

  /** struct packet_queue on the receiving side. */
  datatype Arrival = Arrival(idPacket: nat, data: bytes)

  function Contents(q: seq<Arrival>): map<nat, bytes> {
    if q == [] then map[] else Contents(q[1..])[q[0].idPacket := q[0].data]
  }

  ghost predicate Sorted(q: seq<Arrival>) {
    forall i, j :: 0 <= i < j < |q| ==> q[i].idPacket < q[j].idPacket
  }

  ghost predicate Holds(q: seq<Arrival>, id: nat) { exists i :: 0 <= i < |q| && q[i].idPacket == id }

  lemma {:induction false} ContentsKeys(q: seq<Arrival>)
    ensures forall id :: id in Contents(q) <==> Holds(q, id)
  {
    if q != [] {
      ContentsKeys(q[1..]);
      forall id: nat
        ensures Holds(q, id) <==> id == q[0].idPacket || Holds(q[1..], id)
      {
        if i :| 0 < i < |q| && q[i].idPacket == id {
          assert q[1..][i - 1].idPacket == id;
        }
      }
    }
  }

  lemma {:induction false} ContentsInsert(q: seq<Arrival>, k: nat, a: Arrival)
    requires k <= |q| && forall i :: 0 <= i < k ==> q[i].idPacket != a.idPacket
    ensures Contents(q[..k] + [a] + q[k..]) == Contents(q)[a.idPacket := a.data]
    decreases k
  {
    var r := q[..k] + [a] + q[k..];
    if k == 0 {
      assert r[1..] == q;
    } else {
      ContentsInsert(q[1..], k - 1, a);
      assert r[1..] == q[1..][..k - 1] + [a] + q[1..][k - 1..];
    }
  }

  lemma ContentsHead(q: seq<Arrival>)
    requires q != [] && Sorted(q)
    ensures Contents(q) - {q[0].idPacket} == Contents(q[1..])
  {
    ContentsKeys(q[1..]);
    assert q[0].idPacket !in Contents(q[1..]);
  }

  class Receiver {
    var nInSeq: nat
    var ppqReceived: seq<Arrival>
    /** The calls of DataReceived. */
    var delivered: seq<bytes>

    ghost function Abs(): Inbox
      reads this
    {
      Inbox(nInSeq, Contents(ppqReceived), delivered)
    }

    ghost predicate Valid()
      reads this
    {
      Sorted(ppqReceived) && (ppqReceived != [] ==> ppqReceived[0].idPacket > nInSeq)
    }

    constructor ()
      ensures Valid() && Abs() == EMPTY
    {
      nInSeq, ppqReceived, delivered := 0, [], [];
    }

    method InsertIntoIncoming(id: nat, data: bytes)
      requires Valid() && id >= nInSeq
      modifies this
      ensures Valid()
      ensures Abs() == Accept(old(Abs()), id, data)
    {
      var k := 0;
      while k < |ppqReceived| && ppqReceived[k].idPacket < id
        invariant k <= |ppqReceived| && forall i :: 0 <= i < k ==> ppqReceived[i].idPacket < id
      {
        k := k + 1;
      }
      if k < |ppqReceived| && ppqReceived[k].idPacket == id {
        ContentsKeys(ppqReceived);
        return;
      }
      Insert(k, Arrival(id, data));
      PassOn();
    }

    /** A new entry is linked in at position `k`. */
    method Insert(k: nat, a: Arrival)
      requires Sorted(ppqReceived) && k <= |ppqReceived| && a.idPacket >= nInSeq
      requires forall i :: 0 <= i < k ==> ppqReceived[i].idPacket < a.idPacket
      requires ppqReceived != [] ==> ppqReceived[0].idPacket >= nInSeq
      requires forall i :: k <= i < |ppqReceived| ==> a.idPacket < ppqReceived[i].idPacket
      modifies `ppqReceived
      ensures Sorted(ppqReceived) && a.idPacket !in Contents(old(ppqReceived))
      ensures Contents(ppqReceived) == Contents(old(ppqReceived))[a.idPacket := a.data]
      ensures ppqReceived != [] && ppqReceived[0].idPacket >= nInSeq
    {
      ContentsKeys(ppqReceived);
      ContentsInsert(ppqReceived, k, a);
      ppqReceived := ppqReceived[..k] + [a] + ppqReceived[k..];
    }

    /** The last loop of InsertIntoIncoming. */
    method PassOn()
      requires Sorted(ppqReceived) && (ppqReceived != [] ==> ppqReceived[0].idPacket >= nInSeq)
      modifies this
      ensures Valid() && Abs() == Drain(old(Abs()))
    {
      while ppqReceived != [] && ppqReceived[0].idPacket == nInSeq
        invariant Sorted(ppqReceived) && (ppqReceived != [] ==> ppqReceived[0].idPacket >= nInSeq)
        invariant Drain(Abs()) == Drain(old(Abs()))
        decreases |ppqReceived|
      {
        ContentsHead(ppqReceived);
        nInSeq := nInSeq + 1;
        delivered := delivered + [ppqReceived[0].data];
        ppqReceived := ppqReceived[1..];
      }
      ContentsKeys(ppqReceived);
    }
  }
}
