/** Frames on the line (struct packet), and the incremental parser of ProcessData. */
module Frames {
  import opened Bytes
  import Crc

  const HEADER := 8
  const DATA_MAX := 512
  const PT_DATA := 0
  const PT_ACK := 1

  /** The four 16-bit header fields, of which the length is that of the data, and the data. */
  datatype Frame = Frame(id: nat, crc: nat, kind: nat, data: bytes)

  /** What struct packet can hold: a session has fewer than 32768 packets. */
  predicate Fits(f: Frame) {
    f.id < 0x8000 && f.crc < 0x10000 && f.kind < 0x8000 && |f.data| <= DATA_MAX
  }

  function Encode(f: Frame): (b: bytes)
    requires Fits(f)
    ensures |b| == HEADER + |f.data|
  {
    Short(f.id) + Short(|f.data|) + Short(f.crc) + Short(f.kind) + f.data
  }

  /** The checksum a frame should carry: taken with the checksum field zero. */
  function Seal(f: Frame): (n: nat)
    requires Fits(f)
    ensures n < 0x10000
  {
    Crc.Checksum(Encode(f.(crc := 0)))
  }

  /** The frame passes the receiver's test. */
  predicate Sealed(f: Frame) {
    Fits(f) && f.crc == Seal(f)
  }

  function DataFrame(id: nat, data: bytes): (f: Frame)
    requires id < 0x8000 && |data| <= DATA_MAX
    ensures Sealed(f)
  {
    var f := Frame(id, 0, PT_DATA, data);
    f.(crc := Seal(f))
  }

  function AckFrame(id: nat): (f: Frame)
    requires id < 0x8000
    ensures Sealed(f)
  {
    var f := Frame(id, 0, PT_ACK, []);
    f.(crc := Seal(f))
  }

  // ---------------------------------------------------------------------------------------------
  // Parsing
  // ---------------------------------------------------------------------------------------------

  /** The length field, read as a signed short, is negative or too large. */
  predicate Insane(b: bytes)
    requires |b| >= HEADER
  {
    ShortAt(b, 2) > DATA_MAX
  }

  function SizeOf(b: bytes): nat
    requires |b| >= HEADER
  {
    HEADER + ShortAt(b, 2)
  }

  function Zeroed(b: bytes): (z: bytes)
    requires |b| >= HEADER
    ensures |z| == |b|
  {
    b[4 := 0][5 := 0]
  }

  /** The test of ProcessData: the checksum of the frame with its checksum field zeroed. */
  predicate Passes(b: bytes)
    requires |b| >= HEADER
  {
    Crc.Checksum(Zeroed(b)) == ShortAt(b, 4)
  }

  function Decode(b: bytes): Frame
    requires |b| >= HEADER
  {
    Frame(ShortAt(b, 0), ShortAt(b, 4), ShortAt(b, 6), b[HEADER..])
  }

  /** The stream stops in the middle of a frame whose header, if complete, is sane. */
  predicate Incomplete(b: bytes) {
    |b| < HEADER || (!Insane(b) && |b| < SizeOf(b))
  }

  /** Frames that passed, bytes not used yet, and whether a bad frame made the parser flush its input. */
  datatype Parsed = Parsed(frames: seq<Frame>, rest: bytes, flushed: bool)

  /** The reference: what the stream from a frame boundary onwards holds, up to the first bad frame. */
  function Parse(b: bytes): (p: Parsed)
    ensures Incomplete(p.rest)
    decreases |b|
  {
    if Incomplete(b) then Parsed([], b, false)
    else if Insane(b) || !Passes(b[..SizeOf(b)]) then Parsed([], [], true)
    else Prepend(Decode(b[..SizeOf(b)]), Parse(b[SizeOf(b)..]))
  }

  /** The low half of the complemented register after bitwise division, started at 0xffff: the checksum of packet.c. */
  function BitwiseSum(data: bytes): int {
    var register := Crc.Divide(0xffff, seq(|data|, i requires 0 <= i < |data| => data[i] as bv8));
    ((!register & 0xffff) as bv16) as int
  }

  /**
   What becomes of a stream, on its bytes: a header announces more than 512 bytes of data, or a
   negative number, and the input is flushed; the frame is not complete, and is kept; bytes 4 and 5 are
   its checksum, taken with these two zero, and it is found; or they are not, and the input is flushed.
   */
  lemma FrameByFrame(b: bytes)
    ensures |b| < 8 ==> Parse(b) == Parsed([], b, false)
    ensures |b| >= 8 ==>
      var n: nat := 256 * b[2] as int + b[3] as int;
      if n > 512 then Parse(b) == Parsed([], [], true)
      else if |b| < 8 + n then Parse(b) == Parsed([], b, false)
      else if 256 * b[4] as int + b[5] as int == BitwiseSum(b[..4] + [0, 0] + b[6..8 + n]) then
        var p := Parse(b[8 + n..]);
        var f := Frame(256 * b[0] as int + b[1] as int, 256 * b[4] as int + b[5] as int,
                       256 * b[6] as int + b[7] as int, b[8..8 + n]);
        Parse(b) == Parsed([f] + p.frames, p.rest, p.flushed)
      else Parse(b) == Parsed([], [], true)
  {
    hide BitwiseSum, Insane, SizeOf, Passes, Decode;
    if |b| >= HEADER {
      HeaderOnBytes(b);
      if !Insane(b) && |b| >= SizeOf(b) { PassesExactlyIf(b); }
    }
  }

  lemma HeaderOnBytes(b: bytes)
    requires |b| >= HEADER
    ensures var n: nat := 256 * b[2] as int + b[3] as int;
      && (Insane(b) <==> n > 512) && SizeOf(b) == 8 + n
      && (|b| >= SizeOf(b) ==>
            Decode(b[..SizeOf(b)]) == Frame(256 * b[0] as int + b[1] as int, 256 * b[4] as int + b[5] as int,
                                            256 * b[6] as int + b[7] as int, b[8..8 + n]))
  {
  }

  lemma PassesExactlyIf(b: bytes)
    requires |b| >= HEADER && |b| >= SizeOf(b)
    ensures Passes(b[..SizeOf(b)]) <==>
      256 * b[4] as int + b[5] as int == BitwiseSum(b[..4] + [0, 0] + b[6..SizeOf(b)])
  {
    hide BitwiseSum, Crc.Checksum;
    var m := b[..SizeOf(b)];
    SumIsBitwise(Zeroed(m));
    assert Zeroed(m) == b[..4] + [0, 0] + b[6..SizeOf(b)];
  }

  lemma SumIsBitwise(data: bytes)
    ensures Crc.Checksum(data) == BitwiseSum(data)
  {
    hide Crc.Divide;
    assert Crc.Octets(data) == seq(|data|, i requires 0 <= i < |data| => data[i] as bv8);
  }

  function Prepend(f: Frame, p: Parsed): Parsed { p.(frames := [f] + p.frames) }

  lemma SameHeader(b: bytes, more: bytes)
    requires |b| >= HEADER
    ensures Insane(b + more) <==> Insane(b)
    ensures SizeOf(b + more) == SizeOf(b)
  {
  }

  /** One frame is parsed on its own. */
  lemma FirstFrame(b: bytes, rest: bytes)
    requires |b| >= HEADER && !Insane(b) && |b| == SizeOf(b)
    ensures Parse(b + rest) ==
      if Passes(b) then Prepend(Decode(b), Parse(rest)) else Parsed([], [], true)
  {
    hide Decode, Passes;
    SameHeader(b, rest);
    assert (b + rest)[..|b|] == b && (b + rest)[|b|..] == rest;
  }

  lemma FirstInsane(b: bytes, more: bytes)
    requires |b| >= HEADER && Insane(b)
    ensures Parse(b + more) == Parsed([], [], true)
  {
    SameHeader(b, more);
  }

  lemma NotYet(b: bytes)
    requires Incomplete(b)
    ensures Parse(b) == Parsed([], b, false)
  {
  }

  function Join(p: Parsed, q: Parsed): Parsed { Parsed(p.frames + q.frames, q.rest, q.flushed) }

  lemma JoinPrepend(f: Frame, p: Parsed, q: Parsed)
    ensures Join(Prepend(f, p), q) == Prepend(f, Join(p, q))
  {
    assert ([f] + p.frames) + q.frames == [f] + (p.frames + q.frames);
  }

  /** What was parsed so far need not be looked at again; after a bad frame the rest is ignored. */
  lemma {:induction false} Resume(b: bytes, more: bytes)
    ensures Parse(b + more) ==
      if Parse(b).flushed then Parse(b) else Join(Parse(b), Parse(Parse(b).rest + more))
    decreases |b|
  {
    hide Parse, Decode, Passes, SizeOf, Insane, Prepend;
    if Incomplete(b) {
      NotYet(b);
      assert [] + Parse(b + more).frames == Parse(b + more).frames;
    } else if Insane(b) {
      FirstInsane(b, []);
      FirstInsane(b, more);
      assert b + [] == b;
    } else {
      var m, rest := FrontFrame(b);
      FirstFrame(m, rest);
      FirstFrame(m, rest + more);
      Regroup(m, rest, more);
      Resume(rest, more);
      PrependFields(Decode(m), Parse(rest));
      JoinPrepend(Decode(m), Parse(rest), Parse(Parse(rest).rest + more));
    }
  }

  lemma PrependFields(f: Frame, p: Parsed)
    ensures Prepend(f, p).flushed == p.flushed && Prepend(f, p).rest == p.rest
  {
  }

  lemma FrontFrame(b: bytes) returns (m: bytes, rest: bytes)
    requires !Incomplete(b) && !Insane(b)
    ensures b == m + rest && |m| >= HEADER && !Insane(m) && |m| == SizeOf(m) == SizeOf(b) && |rest| < |b|
  {
    m, rest := b[..SizeOf(b)], b[SizeOf(b)..];
    SameHeader(m, rest);
    assert b == m + rest;
  }

  // ---------------------------------------------------------------------------------------------
  // Well-formed frames, and input in pieces
  // ---------------------------------------------------------------------------------------------

  lemma EncodedFrame(f: Frame)
    requires Sealed(f)
    ensures var b := Encode(f); !Insane(b) && SizeOf(b) == |b| && Passes(b) && Decode(b) == f
  {
    assert Zeroed(Encode(f)) == Encode(f.(crc := 0));
  }

  ghost predicate AllSealed(fs: seq<Frame>) { forall i :: 0 <= i < |fs| ==> Sealed(fs[i]) }

  function EncodeAll(fs: seq<Frame>): bytes
    requires AllSealed(fs)
  {
    if fs == [] then [] else Encode(fs[0]) + EncodeAll(fs[1..])
  }

  /** ProcessData called once for each piece, until it finds a bad frame. */
  function Feed(rest: bytes, pieces: seq<bytes>): Parsed
    decreases |pieces|
  {
    if pieces == [] then Parsed([], rest, false)
    else
      var p := Parse(rest + pieces[0]);
      if p.flushed then p else Join(p, Feed(p.rest, pieces[1..]))
  }

  /** How the input is cut into pieces does not matter, whatever the input. */
  lemma {:induction false} PiecesDoNotMatter(rest: bytes, pieces: seq<bytes>)
    requires Incomplete(rest)
    ensures Feed(rest, pieces) == Parse(rest + Concat(pieces))
    decreases |pieces|
  {
    hide Parse, Incomplete;
    if pieces == [] {
      assert rest + Concat(pieces) == rest;
      NotYet(rest);
    } else {
      Regroup(rest, pieces[0], Concat(pieces[1..]));
      Resume(rest + pieces[0], Concat(pieces[1..]));
      PiecesDoNotMatter(Parse(rest + pieces[0]).rest, pieces[1..]);
    }
  }

  /** A bad frame takes with it what came before and after. */
  lemma {:induction false} BadLeavesNothing(b: bytes)
    ensures Parse(b).flushed ==> Parse(b).rest == []
    decreases |b|
  {
    if !Incomplete(b) && !(Insane(b) || !Passes(b[..SizeOf(b)])) {
      BadLeavesNothing(b[SizeOf(b)..]);
    }
  }

  /** The header fields and the data determine the bytes. */
  lemma EncodesBack(b: bytes)
    requires |b| >= HEADER && !Insane(b) && |b| == SizeOf(b) && Sealed(Decode(b))
    ensures Encode(Decode(b)) == b
  {
    hide Seal;
    ShortBack(b, 0);
    ShortBack(b, 2);
    ShortBack(b, 4);
    ShortBack(b, 6);
    hide Short, ShortAt;
    assert |b| - HEADER == ShortAt(b, 2);
    assert b == b[0..2] + b[2..4] + b[4..6] + b[6..8] + b[8..];
  }

  lemma ShortBack(b: bytes, at: nat)
    requires at + 2 <= |b|
    ensures Short(ShortAt(b, at)) == b[at..at + 2]
  {
  }

  /** A good frame is the first one found exactly if the stream starts with its bytes. */
  lemma FoundFirst(b: bytes, f: Frame)
    requires Sealed(f)
    ensures Parse(b).frames != [] && Parse(b).frames[0] == f <==> Encode(f) <= b
  {
    hide Encode, Parse, Decode, Passes, Insane, SizeOf;
    if Encode(f) <= b {
      EncodedFrame(f);
      FirstFrame(Encode(f), b[|Encode(f)|..]);
      assert b == Encode(f) + b[|Encode(f)|..];
    } else if Incomplete(b) {
      NotYet(b);
    } else if Insane(b) {
      FirstInsane(b, []);
      assert b + [] == b;
    } else {
      var m, rest := FrontFrame(b);
      FirstFrame(m, rest);
      if Decode(m) == f { EncodesBack(m); }
    }
  }

  lemma {:induction false} ParsesBack(fs: seq<Frame>)
    requires AllSealed(fs)
    ensures Parse(EncodeAll(fs)) == Parsed(fs, [], false)
  {
    hide Encode, Parse, Decode, Passes, Insane, SizeOf;
    if fs == [] {
      NotYet([]);
    } else {
      EncodedFrame(fs[0]);
      FirstFrame(Encode(fs[0]), EncodeAll(fs[1..]));
      ParsesBack(fs[1..]);
      assert fs == [fs[0]] + fs[1..];
    }
  }

  /**
   Any concatenation of good frames, zero-length acknowledgements included, cut into any pieces: the
   parser finds exactly those frames, in order, and has nothing left over.
   */
  lemma GoodFramesComeThrough(fs: seq<Frame>, pieces: seq<bytes>)
    requires AllSealed(fs) && Concat(pieces) == EncodeAll(fs)
    ensures Feed([], pieces) == Parsed(fs, [], false)
  {
    assert [] + Concat(pieces) == Concat(pieces);
    PiecesDoNotMatter([], pieces);
    ParsesBack(fs);
  }

  // ---------------------------------------------------------------------------------------------
  // ProcessData
  // ---------------------------------------------------------------------------------------------

  class FrameParser {
    /** The part of `pkt` that has been filled; nBytes is its length. */
    var pkt: bytes

    ghost predicate Valid()
      reads this
    {
      Incomplete(pkt)
    }

    constructor ()
      ensures Valid() && pkt == []
    {
      pkt := [];
    }

    /** A receive timeout: what there is of a frame is forgotten. */
    method ReceiveTimeout()
      modifies this
      ensures Valid() && pkt == []
    {
      pkt := [];
    }

    /** Finds the frames to dispatch; `flushed` tells that it ended at a bad frame. */
    method ProcessData(data: bytes) returns (frames: seq<Frame>, flushed: bool)
      requires Valid()
      modifies this
      ensures Valid()
      ensures Parsed(frames, pkt, flushed) == Parse(old(pkt) + data)
    {
      hide Parse, Prepend, Passes, Decode, Insane, SizeOf;
      var i := 0;
      frames, flushed := [], false;
      assert data[i..] == data;
      JoinNothing(Parse(pkt + data));
      while i < |data|
        invariant i <= |data| && !flushed && Valid()
        invariant Join(Parsed(frames, [], false), Parse(pkt + data[i..])) == Parse(old(pkt) + data)
        decreases |data| - i
      {
        var f: seq<Frame>;
        i, f, flushed := Receive(data, i);
        frames := frames + f;
        if flushed {
          return;
        }
      }
      assert pkt + data[i..] == pkt;
      NotYet(pkt);
      assert frames + [] == frames;
    }

    /** One turn of ProcessData's loop: at most one frame is completed. */
    method Receive(data: bytes, i: nat) returns (i': nat, f: seq<Frame>, flushed: bool)
      requires i < |data| && Valid()
      modifies this
      ensures i < i' <= |data| && Valid()
      ensures Parse(old(pkt) + data[i..]) ==
        if flushed then Parsed(f, pkt, true) else Join(Parsed(f, [], false), Parse(pkt + data[i'..]))
      ensures flushed ==> f == []
    {
      hide Parse, Prepend, Passes, Decode, Insane, SizeOf;
      i', f, flushed := i, [], false;
      if |pkt| < HEADER {
        i' := Copy(HEADER, data, i');
      }
      if |pkt| < HEADER {
        JoinNothing(Parse(pkt + data[i'..]));
        return;
      }
      if Insane(pkt) {
        FirstInsane(pkt, data[i'..]);
        pkt, flushed := [], true;
        return;
      }
      var iLen := SizeOf(pkt);
      HeaderFits(pkt);
      i' := Copy(iLen, data, i');
      JoinNothing(Parse(pkt + data[i'..]));
      if |pkt| == iLen {
        FirstFrame(pkt, data[i'..]);
        if Passes(pkt) {
          f := [Decode(pkt)];
          PrependIsJoin(Decode(pkt), Parse(data[i'..]));
          pkt := [];
          assert pkt + data[i'..] == data[i'..];
        } else {
          pkt, flushed := [], true;
        }
      }
    }

    /** Copies input until `pkt` has `size` bytes or the input is used up. */
    method Copy(size: nat, data: bytes, i: nat) returns (i': nat)
      requires i <= |data| && |pkt| <= size
      modifies `pkt
      ensures i <= i' <= |data| && pkt + data[i'..] == old(pkt) + data[i..]
      ensures |pkt| == old(|pkt|) + i' - i && old(pkt) <= pkt
      ensures |pkt| == size || (i' == |data| && |pkt| < size)
      ensures old(|pkt|) >= HEADER ==> Insane(pkt) == old(Insane(pkt)) && SizeOf(pkt) == old(SizeOf(pkt))
    {
      var nToCopy := size - |pkt|;
      if nToCopy > |data| - i {
        nToCopy := |data| - i;
      }
      if |pkt| >= HEADER { SameHeader(pkt, data[i..i + nToCopy]); }
      pkt := pkt + data[i..i + nToCopy];
      i' := i + nToCopy;
    }
  }

  lemma JoinNothing(p: Parsed)
    ensures Join(Parsed([], [], false), p) == p
  {
    assert [] + p.frames == p.frames;
  }

  lemma PrependIsJoin(f: Frame, p: Parsed)
    ensures Prepend(f, p) == Join(Parsed([f], [], false), p)
  {
  }

  lemma HeaderFits(b: bytes)
    requires Incomplete(b) || |b| == HEADER
    requires |b| >= HEADER && !Insane(b)
    ensures |b| <= SizeOf(b)
  {
  }
}
