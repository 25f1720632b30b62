/** DataReceived of tshost.c and twinsock.c: the byte stream of the link is cut back into requests. */
module Reassembly {
  import opened Bytes

  /** struct tx_request starts with five 16-bit fields, the third of which is the whole length. */
  function LengthOf(b: bytes): (n: nat)
    requires |b| >= REQUEST_HEADER
  {
    ShortAt(b, 4)
  }

  /** A message as the programs build it: its length field, a signed short, is its length. */
  predicate WellFormed(m: bytes) {
    REQUEST_HEADER <= |m| < 0x8000 && LengthOf(m) == |m|
  }

  /** The stream is at a message boundary and does not yet hold a whole message. */
  predicate Incomplete(b: bytes) {
    |b| < REQUEST_HEADER || |b| < LengthOf(b)
  }

  /** No header in the stream announces less than a header, or a negative length. */
  predicate Clean(b: bytes)
    decreases |b|
  {
    |b| < REQUEST_HEADER ||
    (REQUEST_HEADER <= LengthOf(b) < 0x8000 && (|b| < LengthOf(b) || Clean(b[LengthOf(b)..])))
  }

  datatype Cut = Cut(requests: seq<bytes>, rest: bytes)

  /** All whole requests at the front of the stream, and what is left over. */
  function Requests(b: bytes): (c: Cut)
    requires Clean(b)
    ensures Incomplete(c.rest) && Clean(c.rest)
    decreases |b|
  {
    if Incomplete(b) then Cut([], b)
    else
      var c := Requests(b[LengthOf(b)..]);
      Cut([b[..LengthOf(b)]] + c.requests, c.rest)
  }

  class Reassembler {
    /** The bytes of txrHeader and ptxr read so far; nBytes is their number. */
    var pending: bytes
    /** Every request handed on. */
    var requests: seq<bytes>

    ghost predicate Valid()
      reads this
    {
      Incomplete(pending) && Clean(pending)
    }

    constructor ()
      ensures Valid() && pending == [] && requests == []
    {
      pending, requests := [], [];
    }

    method DataReceived(data: bytes)
      requires Valid() && Clean(pending + data)
      modifies this
      ensures Valid()
      ensures var c := Requests(old(pending) + data);
        requests == old(requests) + c.requests && pending == c.rest
    {
      var i := 0;
      ghost var whole := Requests(pending + data);
      assert data[i..] == data;
      while i < |data|
        invariant i <= |data| && Valid()
        invariant Clean(pending + data[i..])
        invariant var c := Requests(pending + data[i..]);
          requests + c.requests == old(requests) + whole.requests && c.rest == whole.rest
      {
        i := Receive(data, i);
      }
      assert pending + data[i..] == pending;
    }

    /** One turn of DataReceived's loop. */
    method Receive(data: bytes, i: nat) returns (i': nat)
      requires i < |data| && Valid() && Clean(pending + data[i..])
      modifies this
      ensures i < i' <= |data| && Valid() && Clean(pending + data[i'..])
      ensures var c, d := Requests(old(pending) + data[i..]), Requests(pending + data[i'..]);
        old(requests) + c.requests == requests + d.requests && c.rest == d.rest
    {
      hide Clean, Requests, LengthOf;
      i' := i;
      ghost var p := pending + data[i..];
      HeaderIsSane(p);
      if |pending| < REQUEST_HEADER {
        i' := Copy(REQUEST_HEADER, data, i');
      }
      if |pending| >= REQUEST_HEADER {
        SameLength(pending, data[i'..]);
        var nPktLen := LengthOf(pending);
        i' := Copy(nPktLen, data, i');
        SameLength(pending, data[i'..]);
        if |pending| == nPktLen {
          FirstRequest(pending, data[i'..]);
          requests := requests + [pending];
          pending := [];
          assert pending + data[i'..] == data[i'..];
        }
      }
      StillClean(pending, data[i'..]);
    }

    /** Copies input until `pending` has `size` bytes or the input is used up. */
    method Copy(size: nat, data: bytes, i: nat) returns (i': nat)
      requires i <= |data| && |pending| <= size
      modifies `pending
      ensures i <= i' <= |data| && pending + data[i'..] == old(pending) + data[i..]
      ensures |pending| == old(|pending|) + i' - i
      ensures |pending| == size || (i' == |data| && |pending| < size)
    {
      var nCopy := size - |pending|;
      if nCopy > |data| - i {
        nCopy := |data| - i;
      }
      pending := pending + data[i..i + nCopy];
      i' := i + nCopy;
    }
  }

  lemma HeaderIsSane(b: bytes)
    requires Clean(b)
    ensures |b| >= REQUEST_HEADER ==> REQUEST_HEADER <= LengthOf(b) < 0x8000
  {
  }

  lemma SameLength(b: bytes, more: bytes)
    requires |b| >= REQUEST_HEADER
    ensures LengthOf(b + more) == LengthOf(b)
  {
  }

  lemma StillClean(b: bytes, more: bytes)
    requires Incomplete(b) && Clean(b + more)
    ensures Clean(b)
  {
    if |b| >= REQUEST_HEADER { SameLength(b, more); }
  }

  /** A whole request is cut off, and nothing else changes. */
  lemma FirstRequest(m: bytes, rest: bytes)
    requires REQUEST_HEADER <= |m| < 0x8000 && |m| == LengthOf(m)
    ensures Clean(m + rest) <==> Clean(rest)
    ensures Clean(rest) ==> Requests(m + rest) == Cut([m] + Requests(rest).requests, Requests(rest).rest)
  {
    var b := m + rest;
    assert LengthOf(b) == |m| && b[..|m|] == m && b[|m|..] == rest;
  }

  // ---------------------------------------------------------------------------------------------
  // Cutting undoes concatenation, however the stream is delivered
  // ---------------------------------------------------------------------------------------------

  ghost predicate AllWellFormed(ms: seq<bytes>) { forall i :: 0 <= i < |ms| ==> WellFormed(ms[i]) }

  /**
   After any part of the concatenation of well-formed messages has come in, the requests cut from it
   are a prefix of those messages, and what is left is the beginning of the next one.
   */
  lemma {:induction false} CutsPrefix(ms: seq<bytes>, b: bytes) returns (k: nat)
    requires AllWellFormed(ms) && b <= Concat(ms)
    ensures Clean(b)
    ensures k <= |ms| && Requests(b).requests == ms[..k]
    ensures b == Concat(ms[..k]) + Requests(b).rest
    ensures if k == |ms| then Requests(b).rest == [] else Requests(b).rest < ms[k]
    decreases |ms|
  {
    hide Clean, Requests, LengthOf, WellFormed;
    if ms == [] {
      k := 0;
      NoMessage();
    } else if |b| < |ms[0]| {
      k := 0;
      PartOfMessage(ms[0], Concat(ms[1..]), b);
    } else {
      var m, rest := ms[0], b[|ms[0]|..];
      assert m + Concat(ms[1..]) == Concat(ms);
      PrefixSplit(m, Concat(ms[1..]), b);
      var j := CutsPrefix(ms[1..], rest);
      FirstMessage(m, rest);
      k := j + 1;
      ConcatPrefix(ms, j);
      assert Concat(ms[..k]) + Requests(rest).rest == m + (Concat(ms[1..][..j]) + Requests(rest).rest);
    }
  }

  lemma NoMessage()
    ensures Clean([]) && Requests([]) == Cut([], [])
  {
  }

  lemma PrefixSplit(m: bytes, tail: bytes, b: bytes)
    requires b <= m + tail && |b| >= |m|
    ensures b == m + b[|m|..] && b[|m|..] <= tail
  {
  }

  lemma FirstMessage(m: bytes, rest: bytes)
    requires WellFormed(m) && Clean(rest)
    ensures Clean(m + rest)
    ensures Requests(m + rest) == Cut([m] + Requests(rest).requests, Requests(rest).rest)
  {
    FirstRequest(m, rest);
  }

  lemma PartOfMessage(m: bytes, tail: bytes, b: bytes)
    requires WellFormed(m) && b <= m + tail && |b| < |m|
    ensures b < m && Clean(b) && Requests(b) == Cut([], b)
  {
    assert b == m[..|b|];
    if |b| >= REQUEST_HEADER { assert LengthOf(b) == LengthOf(m); }
  }

  lemma ConcatPrefix(ms: seq<bytes>, j: nat)
    requires j < |ms|
    ensures ms[..j + 1] == [ms[0]] + ms[1..][..j]
    ensures Concat(ms[..j + 1]) == ms[0] + Concat(ms[1..][..j])
  {
  }

  lemma {:induction false} ConcatAppend(a: seq<bytes>, b: seq<bytes>)
    ensures Concat(a + b) == Concat(a) + Concat(b)
    decreases |a|
  {
    if a == [] {
      assert a + b == b;
    } else {
      assert (a + b)[1..] == a[1..] + b;
      ConcatAppend(a[1..], b);
      Regroup(a[0], Concat(a[1..]), Concat(b));
    }
  }

  lemma NotYet(b: bytes)
    requires Incomplete(b) && Clean(b)
    ensures Requests(b) == Cut([], b)
  {
  }

  lemma Prepend(m: bytes, x: seq<bytes>, y: seq<bytes>)
    ensures [m] + (x + y) == ([m] + x) + y
  {
  }

  /** What has been cut off so far need not be looked at again. */
  lemma {:induction false} Resume(b: bytes, more: bytes)
    requires Clean(b + more)
    ensures Clean(b) && Clean(Requests(b).rest + more)
    ensures var c := Requests(b); var d := Requests(c.rest + more);
      Requests(b + more) == Cut(c.requests + d.requests, d.rest)
    decreases |b|
  {
    hide Clean, Requests, LengthOf;
    if Incomplete(b) {
      StillClean(b, more);
      NotYet(b);
      assert [] + Requests(b + more).requests == Requests(b + more).requests;
    } else {
      SameLength(b, more);
      HeaderIsSane(b + more);
      var m, rest := b[..LengthOf(b)], b[LengthOf(b)..];
      assert b == m + rest;
      SameLength(m, rest);
      Regroup(m, rest, more);
      FirstRequest(m, rest + more);
      Resume(rest, more);
      FirstRequest(m, rest);
      Prepend(m, Requests(rest).requests, Requests(Requests(rest).rest + more).requests);
    }
  }

  /** DataReceived called once for each piece. */
  function Feed(rest: bytes, pieces: seq<bytes>): (c: Cut)
    requires Clean(rest + Concat(pieces))
    decreases |pieces|
  {
    if pieces == [] then (assert rest + Concat(pieces) == rest; Requests(rest))
    else
      assert rest + Concat(pieces) == (rest + pieces[0]) + Concat(pieces[1..]);
      Resume(rest + pieces[0], Concat(pieces[1..]));
      var c := Requests(rest + pieces[0]);
      var d := Feed(c.rest, pieces[1..]);
      Cut(c.requests + d.requests, d.rest)
  }

  /** The requests do not depend on how the stream is cut into calls. */
  lemma {:induction false} FeedIsRequests(rest: bytes, pieces: seq<bytes>)
    requires Clean(rest + Concat(pieces))
    ensures Feed(rest, pieces) == Requests(rest + Concat(pieces))
    decreases |pieces|
  {
    if pieces == [] {
      assert rest + Concat(pieces) == rest;
    } else {
      assert rest + Concat(pieces) == (rest + pieces[0]) + Concat(pieces[1..]);
      Resume(rest + pieces[0], Concat(pieces[1..]));
      FeedIsRequests(Requests(rest + pieces[0]).rest, pieces[1..]);
    }
  }
}
