/** Bytes, 16-bit fields in network order, and the characters '@' and CAN. */
module Bytes {
  type byte = x: int | 0 <= x < 256
  type bytes = seq<byte>

  /** A 16-bit field. */
  type word = x: int | 0 <= x < 0x10000

  /** A 16-bit field as it is laid out by htons: high byte first. */
  function Short(n: nat): (b: bytes)
    requires n < 0x10000
    ensures |b| == 2
  {
    [n / 256, n % 256]
  }

  /** Reads back the 16-bit field at position `at`, as an unsigned value. */
  function ShortAt(b: bytes, at: nat): (n: nat)
    requires at + 2 <= |b|
    ensures n < 0x10000
  {
    b[at] as int * 256 + b[at + 1] as int
  }

  /** Pieces of input, put together. */
  function Concat(pieces: seq<bytes>): bytes {
    if pieces == [] then [] else pieces[0] + Concat(pieces[1..])
  }

  lemma Regroup<T>(x: seq<T>, y: seq<T>, z: seq<T>)
    ensures (x + y) + z == x + (y + z)
  {
  }

  /** The header of a request: type, number of arguments, length, id and error, two bytes each. */
  const REQUEST_HEADER := 10

  /** Realigns the receiver in the bit codings, and marks an escape in the others. */
  const AT: byte := 64

  /** Ends the session when five come in a row, so no coding ever sends it. */
  const CAN: byte := 24

  /** nCtlX, the CANs in a row so far, and whether there have been five. */
  datatype Cans = Cans(run: nat, five: bool)

  function Count(k: Cans, c: byte): Cans {
    if c == CAN then Cans(k.run + 1, k.five || k.run + 1 >= 5) else Cans(0, k.five)
  }

  function CountAll(k: Cans, s: bytes): Cans
    decreases |s|
  {
    if s == [] then k else CountAll(Count(k, s[0]), s[1..])
  }

  lemma CountNext(k: Cans, s: bytes, i: nat)
    requires i < |s|
    ensures CountAll(k, s[i..]) == CountAll(Count(k, s[i]), s[i + 1..])
  {
    assert s[i..][1..] == s[i + 1..];
  }

  lemma CountKeepsFive(k: Cans, c: byte)
    ensures Count(k, c) == Cans(Count(k.(five := false), c).run, k.five || Count(k.(five := false), c).five)
  {
  }

  lemma CountNothing(k: Cans, s: bytes)
    requires s == []
    ensures CountAll(k, s) == k
  {
  }

  lemma {:induction false} NoCans(k: Cans, s: bytes)
    requires CAN !in s
    ensures CountAll(k, s).five == k.five
    decreases |s|
  {
    if s != [] { NoCans(Count(k, s[0]), s[1..]); }
  }

  /** Somewhere in the input there are five in a row. */
  ghost predicate FiveInARow(s: bytes) { exists i: nat :: FiveAt(s, i) }

  predicate FiveAt(s: bytes, i: nat) {
    i + 5 <= |s| && s[i] == 24 && s[i + 1] == 24 && s[i + 2] == 24 && s[i + 3] == 24 && s[i + 4] == 24
  }

  /** `n` CANs. */
  function Row(n: nat): (r: bytes)
    ensures |r| == n && forall i :: 0 <= i < n ==> r[i] == 24
  {
    seq(n, _ => 24)
  }

  /** Counting finds five in a row exactly if they are there. */
  lemma FiveExactlyIf(s: bytes)
    ensures CountAll(Cans(0, false), s).five <==> FiveInARow(s)
  {
    CountedExactlyIf(0, s);
    assert Row(0) + s == s;
  }

  lemma {:induction false} CountedExactlyIf(n: nat, s: bytes)
    requires n < 5
    ensures CountAll(Cans(n, false), s).five <==> FiveInARow(Row(n) + s)
    decreases |s|
  {
    if s == [] {
      assert |Row(n) + s| < 5;
    } else if s[0] == 24 {
      assert Row(n) + s == Row(n + 1) + s[1..];
      if n == 4 {
        FiveStays(Cans(5, true), s[1..]);
        assert FiveAt(Row(5) + s[1..], 0);
      } else {
        CountedExactlyIf(n + 1, s[1..]);
      }
    } else {
      CountedExactlyIf(0, s[1..]);
      assert Row(0) + s[1..] == s[1..];
      NotInFront(n, s);
    }
  }

  lemma {:induction false} FiveStays(k: Cans, s: bytes)
    requires k.five
    ensures CountAll(k, s).five
    decreases |s|
  {
    if s != [] { FiveStays(Count(k, s[0]), s[1..]); }
  }

  /** Fewer than five in front of another character do not count. */
  lemma NotInFront(n: nat, s: bytes)
    requires n < 5 && s != [] && s[0] != 24
    ensures FiveInARow(Row(n) + s) <==> FiveInARow(s[1..])
  {
    var all, rest := Row(n) + s, s[1..];
    assert all[n] == s[0];
    if FiveInARow(all) {
      var i: nat :| FiveAt(all, i);
      assert i > n;
      assert FiveAt(rest, i - n - 1);
    }
    if FiveInARow(rest) {
      var i: nat :| FiveAt(rest, i);
      assert FiveAt(all, n + 1 + i);
    }
  }

  method PutShort(m: array<byte>, at: nat, n: word)
    requires at + 2 <= m.Length
    modifies m
    ensures m[at..at + 2] == Short(n)
    ensures forall i | 0 <= i < m.Length && !(at <= i < at + 2) :: m[i] == old(m[i])
  {
    m[at] := n / 256;
    m[at + 1] := n % 256;
  }
}
