/** The way in: what is decoded, parsed and found, what stays pending, and when it is forgotten. */
module Reception {
  import opened Bytes
  import opened Frames
  import BitCoding
  import EscapeCoding

  // Characters come in pieces and are decoded, and the bytes go to the frame parser.  Part of a frame sets
  // one timer, a bad frame starts the flushing of the input and sets another.

  /** The line encoding; the two ends of an escaping one may have settings of their own. */
  datatype Coding = Bits(n: BitCoding.Width) | Escapes(sent: EscapeCoding.Mode, read: EscapeCoding.Mode)

  /** What PacketReceiveData and ProcessData remember, and whether input is thrown away. */
  datatype Ear = Ear(partial: BitCoding.bits, escaping: bool, rest: bytes, flushing: bool)

  /** While input is thrown away there is no part of a frame: the two timers never both run. */
  predicate Possible(e: Ear) { |e.partial| < 8 && Incomplete(e.rest) && (e.flushing ==> e.rest == []) }

  const IDLE := Ear([], false, [], false)

  /**
   The receive timer runs exactly while there is part of a frame, the flush timer exactly while input
   is thrown away (LinkEndpoint.Endpoint.TimersRunExactlyWhileNeeded); one that does not run does not fire.
   */
  datatype Event =
    | Comes(piece: bytes)
    | ReceiveTimer
    | FlushTimer

  /** PacketReceiveData's part. */
  function Decoded(c: Coding, e: Ear, piece: bytes): bytes
    requires Possible(e)
  {
    match c
    case Bits(n) => BitCoding.Heard(n, e.partial, piece).bytes
    case Escapes(_, r) => EscapeCoding.DecodeAll(r, e.escaping, piece).bytes
  }

  function AfterDecoding(c: Coding, e: Ear, piece: bytes): (e': Ear)
    requires Possible(e)
    ensures Possible(e') && e'.rest == e.rest && e'.flushing == e.flushing
    ensures if c.Bits? then e'.escaping == e.escaping else e'.partial == e.partial
  {
    match c
    case Bits(n) => e.(partial := BitCoding.Heard(n, e.partial, piece).rest)
    case Escapes(_, r) => e.(escaping := EscapeCoding.DecodeAll(r, e.escaping, piece).escaping)
  }

  function Hear(c: Coding, e: Ear, ev: Event): (e': Ear)
    requires Possible(e)
    ensures Possible(e')
  {
    match ev
    case Comes(piece) =>
      if e.flushing then e
      else
        BadLeavesNothing(e.rest + Decoded(c, e, piece));
        var p := Parse(e.rest + Decoded(c, e, piece));
        AfterDecoding(c, e, piece).(rest := p.rest, flushing := p.flushed)
    case ReceiveTimer => if e.rest == [] then e else IDLE
    case FlushTimer => e.(flushing := false)
  }

  /** The frames that are dispatched. */
  function Found(c: Coding, e: Ear, ev: Event): seq<Frame>
    requires Possible(e)
  {
    if ev.Comes? && !e.flushing then Parse(e.rest + Decoded(c, e, ev.piece)).frames else []
  }

  function HearAll(c: Coding, e: Ear, evs: seq<Event>): (e': Ear)
    requires Possible(e)
    ensures Possible(e')
    decreases |evs|
  {
    if evs == [] then e else HearAll(c, Hear(c, e, evs[0]), evs[1..])
  }

  function FoundInAll(c: Coding, e: Ear, evs: seq<Event>): seq<Frame>
    requires Possible(e)
    decreases |evs|
  {
    if evs == [] then [] else Found(c, e, evs[0]) + FoundInAll(c, Hear(c, e, evs[0]), evs[1..])
  }

  function Coming(pieces: seq<bytes>): (evs: seq<Event>)
    ensures |evs| == |pieces| && forall i :: 0 <= i < |pieces| ==> evs[i] == Comes(pieces[i])
  {
    seq(|pieces|, i requires 0 <= i < |pieces| => Comes(pieces[i]))
  }

  // ---------------------------------------------------------------------------------------------
  // Good frames in, good frames out
  // ---------------------------------------------------------------------------------------------

  /** Each frame's bytes: TransmitData is called once for each. */
  ghost function Encodings(fs: seq<Frame>): (r: seq<bytes>)
    requires AllSealed(fs)
  {
    if fs == [] then [] else [Encode(fs[0])] + Encodings(fs[1..])
  }

  lemma {:induction false} EncodingsJoined(fs: seq<Frame>)
    requires AllSealed(fs)
    ensures Concat(Encodings(fs)) == EncodeAll(fs)
  {
    if fs != [] {
      hide Encode;
      EncodingsJoined(fs[1..]);
      assert Encodings(fs)[1..] == Encodings(fs[1..]);
    }
  }

  /** What the frames put on the line. */
  ghost function OnLine(c: Coding, fs: seq<Frame>): bytes
    requires AllSealed(fs)
  {
    match c
    case Bits(n) => BitCoding.EncodeAll(n, Encodings(fs))
    case Escapes(m, _) => EscapeCoding.EncodeAll(m, EncodeAll(fs))
  }

  ghost predicate Works(c: Coding) { c.Escapes? ==> EscapeCoding.Usable(c.sent, c.read) }

  /** Nothing pending; the bit codings mind no leftover bits. */
  predicate Ready(c: Coding, e: Ear) {
    Possible(e) && !e.flushing && e.rest == [] && (c.Escapes? ==> !e.escaping)
  }

  /** The decoder's state after the pieces; what has been parsed stays. */
  function AfterAll(c: Coding, e: Ear, pieces: seq<bytes>): (e': Ear)
    requires Possible(e)
    ensures Possible(e') && e'.rest == e.rest && e'.flushing == e.flushing
    decreases |pieces|
  {
    if pieces == [] then e else AfterAll(c, AfterDecoding(c, e, pieces[0]), pieces[1..])
  }

  /** The bytes that each piece decodes to. */
  function Chunks(c: Coding, e: Ear, pieces: seq<bytes>): seq<bytes>
    requires Possible(e)
    decreases |pieces|
  {
    if pieces == [] then []
    else [Decoded(c, e, pieces[0])] + Chunks(c, AfterDecoding(c, e, pieces[0]), pieces[1..])
  }

  lemma {:induction false} ChunksJoined(c: Coding, e: Ear, pieces: seq<bytes>)
    requires Possible(e)
    ensures Concat(Chunks(c, e, pieces)) ==
      match c
      case Bits(n) => BitCoding.HeardInPieces(n, e.partial, pieces).bytes
      case Escapes(_, r) => EscapeCoding.DecodeInPieces(r, e.escaping, pieces).bytes
    ensures c.Escapes? ==>
      AfterAll(c, e, pieces).escaping == EscapeCoding.DecodeInPieces(c.read, e.escaping, pieces).escaping
    decreases |pieces|
  {
    if pieces != [] {
      var e' := AfterDecoding(c, e, pieces[0]);
      ChunksJoined(c, e', pieces[1..]);
      assert Chunks(c, e, pieces)[1..] == Chunks(c, e', pieces[1..]);
    }
  }

  /** While input is thrown away nothing is found. */
  lemma {:induction false} NothingFound(c: Coding, e: Ear, pieces: seq<bytes>)
    requires Possible(e) && e.flushing
    ensures FoundInAll(c, e, Coming(pieces)) == [] && HearAll(c, e, Coming(pieces)) == e
    decreases |pieces|
  {
    if pieces != [] {
      assert Coming(pieces)[1..] == Coming(pieces[1..]);
      NothingFound(c, e, pieces[1..]);
    }
  }

  /** The decoder and the parser, piece by piece, are the parser fed with the decoded chunks. */
  lemma {:induction false} HearsAsFed(c: Coding, e: Ear, pieces: seq<bytes>)
    requires Possible(e) && !e.flushing
    ensures var p := Feed(e.rest, Chunks(c, e, pieces)); var e' := HearAll(c, e, Coming(pieces));
      && FoundInAll(c, e, Coming(pieces)) == p.frames && e'.rest == p.rest && e'.flushing == p.flushed
      && (!p.flushed ==> e' == AfterAll(c, e, pieces).(rest := p.rest))
    decreases |pieces|
  {
    if pieces != [] {
      hide Parse, Incomplete, Decoded, AfterDecoding;
      var evs := Coming(pieces);
      assert evs[1..] == Coming(pieces[1..]);
      var e1 := Hear(c, e, evs[0]);
      var cs := Chunks(c, e, pieces);
      assert cs[0] == Decoded(c, e, pieces[0]) && cs[1..] == Chunks(c, AfterDecoding(c, e, pieces[0]), pieces[1..]);
      if e1.flushing {
        NothingFound(c, e1, pieces[1..]);
        assert Found(c, e, evs[0]) + [] == Found(c, e, evs[0]);
      } else {
        HearsAsFed(c, e1, pieces[1..]);
        ChunksAlike(c, e1, AfterDecoding(c, e, pieces[0]), pieces[1..]);
      }
    }
  }

  /** What has been parsed makes no difference to the decoder. */
  lemma {:induction false} ChunksAlike(c: Coding, e: Ear, f: Ear, pieces: seq<bytes>)
    requires Possible(e) && Possible(f) && e.partial == f.partial && e.escaping == f.escaping
    ensures Chunks(c, e, pieces) == Chunks(c, f, pieces)
    ensures var x, y := AfterAll(c, e, pieces), AfterAll(c, f, pieces); x.partial == y.partial && x.escaping == y.escaping
    decreases |pieces|
  {
    if pieces != [] {
      ChunksAlike(c, AfterDecoding(c, e, pieces[0]), AfterDecoding(c, f, pieces[0]), pieces[1..]);
    }
  }

  /** The frames found are those of the bytes decoded, however the characters are cut into pieces. */
  lemma FoundAtOnce(c: Coding, e: Ear, pieces: seq<bytes>)
    requires Possible(e) && !e.flushing && e.rest == [] && c.Escapes?
    ensures FoundInAll(c, e, Coming(pieces)) == Parse(EscapeCoding.DecodeAll(c.read, e.escaping, Concat(pieces)).bytes).frames
  {
    hide FoundInAll, HearAll, Chunks, Feed, Parse;
    HearsAsFed(c, e, pieces);
    ChunksJoined(c, e, pieces);
    EscapeCoding.PiecesDoNotMatter(c.read, e.escaping, pieces);
    PiecesDoNotMatter([], Chunks(c, e, pieces));
    var d := Concat(Chunks(c, e, pieces));
    assert [] + d == d;
  }

  /** Any good frames, encoded and cut into any pieces: exactly these are found, and nothing is pending. */
  lemma GoodFramesAreFound(c: Coding, e: Ear, fs: seq<Frame>, pieces: seq<bytes>)
    requires Works(c) && Ready(c, e) && AllSealed(fs) && Concat(pieces) == OnLine(c, fs)
    ensures FoundInAll(c, e, Coming(pieces)) == fs
    ensures Ready(c, HearAll(c, e, Coming(pieces)))
  {
    hide FoundInAll, HearAll, Chunks, AfterAll, EncodeAll, Feed, BitCoding.EncodeAll, BitCoding.HeardInPieces,
         EscapeCoding.EncodeAll, EscapeCoding.DecodeInPieces, EscapeCoding.Usable;
    HearsAsFed(c, e, pieces);
    ChunksJoined(c, e, pieces);
    match c {
      case Bits(n) =>
        BitCoding.LineIsTransparent(n, e.partial, Encodings(fs), pieces);
        EncodingsJoined(fs);
      case Escapes(m, r) =>
        EscapeCoding.LineIsTransparent(m, r, EncodeAll(fs), pieces);
    }
    GoodFramesComeThrough(fs, Chunks(c, e, pieces));
  }

  /** No good frame ends the session by accident. */
  lemma NoCanOnLine(c: Coding, fs: seq<Frame>, k: Cans)
    requires Works(c) && AllSealed(fs)
    ensures CountAll(k, OnLine(c, fs)).five == k.five
  {
    hide Encodings, EncodeAll, BitCoding.EncodeAll, EscapeCoding.EncodeAll, EscapeCoding.Usable;
    match c {
      case Bits(n) => BitCoding.NoCanIsSent(n, Encodings(fs));
      case Escapes(m, r) => EscapeCoding.NoCanIsSent(m, r, EncodeAll(fs));
    }
    NoCans(k, OnLine(c, fs));
  }

  // ---------------------------------------------------------------------------------------------
  // After bad ones
  // ---------------------------------------------------------------------------------------------

  /** Nothing comes for a while: the timer that runs, if one does, fires. */
  function Quiet(c: Coding, e: Ear): (e': Ear)
    requires Possible(e)
    ensures Possible(e') && !e'.flushing && e'.rest == []
    ensures e'.escaping <==> e.escaping && e.rest == []
  {
    Hear(c, e, if e.flushing then FlushTimer else ReceiveTimer)
  }

  /** Of any good frames, in any pieces, exactly these are found. */
  ghost predicate AllComeThrough(c: Coding, e: Ear)
    requires Possible(e)
  {
    forall fs, pieces :: AllSealed(fs) && Concat(pieces) == OnLine(c, fs) ==> FoundInAll(c, e, Coming(pieces)) == fs
  }

  /**
   Behind a pending '@' the next good frame is lost, however it is cut up and whatever follows it,
   unless the substitutes of all its bytes are '@'.
   */
  lemma LostBehindAt(c: Coding, e: Ear, fs: seq<Frame>, pieces: seq<bytes>)
    requires Possible(e) && !e.flushing && e.rest == [] && c.Escapes? && e.escaping && Works(c)
    requires AllSealed(fs) && fs != [] && Concat(pieces) == OnLine(c, fs)
    ensures var found := FoundInAll(c, e, Coming(pieces));
      found != [] && found[0] == fs[0] <==> forall b <- Encode(fs[0]) :: EscapeCoding.SentAsTwoAts(c.sent, b)
  {
    hide Encode, FoundInAll, Parse, EscapeCoding.Usable, EscapeCoding.EncodeAll, EscapeCoding.DecodeAll,
         EscapeCoding.SentAsTwoAts;
    FoundAtOnce(c, e, pieces);
    var first, rest := Encode(fs[0]), EncodeAll(fs[1..]);
    EscapeCoding.EncodeAppend(c.sent, first, rest);
    EscapeCoding.GarbledBehindAt(c.sent, c.read, first, EscapeCoding.EncodeAll(c.sent, rest));
    FoundFirst(EscapeCoding.DecodeAll(c.read, true, Concat(pieces)).bytes, fs[0]);
  }

  lemma AckType(id: nat)
    requires id < 0x8000
    ensures 0 in Encode(AckFrame(id)) && 1 in Encode(AckFrame(id))
  {
    hide Seal;
    assert Encode(AckFrame(id))[6] == 0 && Encode(AckFrame(id))[7] == 1;
  }

  /** Not both bytes of an acknowledgement's type have the substitute '@'. */
  lemma AckIsLost(c: Coding, e: Ear, id: nat, pieces: seq<bytes>)
    requires Possible(e) && !e.flushing && e.rest == [] && c.Escapes? && e.escaping && Works(c)
    requires id < 0x8000 && Concat(pieces) == OnLine(c, [AckFrame(id)])
    ensures FoundInAll(c, e, Coming(pieces)) != [AckFrame(id)]
  {
    hide Encode, FoundInAll, OnLine, Works, AckFrame, EscapeCoding.SentAsTwoAts;
    LostBehindAt(c, e, [AckFrame(id)], pieces);
    AckType(id);
    EscapeCoding.DifferentSubstitutes(c.sent, 0, 1);
  }

  /**
   Whatever has come in, good or bad: once nothing has come for so long that the timer that runs has
   fired, all good frames come through again, except exactly if an '@' is pending and no part of a
   frame is in.  No timer runs then, or only the flush timer, and neither clears it.
   */
  lemma GoodFramesComeAgain(c: Coding, e: Ear)
    requires Possible(e) && Works(c)
    ensures AllComeThrough(c, Quiet(c, e)) <==> !(c.Escapes? && e.escaping && e.rest == [])
  {
    hide FoundInAll, Works, OnLine, AllSealed, Hear;
    var e' := Quiet(c, e);
    if c.Escapes? && e'.escaping {
      AllAreSealed(AckFrame(0));
      var pieces := [OnLine(c, [AckFrame(0)])];
      OnePiece(pieces[0]);
      AckIsLost(c, e', 0, pieces);
    } else {
      forall fs, pieces | AllSealed(fs) && Concat(pieces) == OnLine(c, fs)
        ensures FoundInAll(c, e', Coming(pieces)) == fs
      {
        GoodFramesAreFound(c, e', fs, pieces);
      }
    }
  }

  lemma AllAreSealed(f: Frame)
    requires Sealed(f)
    ensures AllSealed([f])
  {
  }

  lemma OnePiece(piece: bytes)
    ensures Concat([piece]) == piece
  {
    assert piece + Concat([]) == piece;
  }

  /**
   The same of the input: behind a piece that leaves no part of a frame (a bad frame leaves none) the
   escaping encodings are ready again exactly if the piece does not end in an odd number of '@'.
   */
  lemma ReadyAfterPiece(c: Coding, e: Ear, piece: bytes)
    requires Possible(e) && !e.flushing && Works(c)
    ensures var e' := Hear(c, e, Comes(piece));
      && (e'.flushing ==> e'.rest == [])
      && (AllComeThrough(c, Quiet(c, e')) <==>
            c.Bits? || e'.rest != [] || !EscapeCoding.EndsOdd(c.read, e.escaping, piece))
  {
    hide AllComeThrough, Works, EscapeCoding.EndsOdd;
    GoodFramesComeAgain(c, Hear(c, e, Comes(piece)));
    if c.Escapes? { EscapeCoding.PendingExactlyIf(c.read, e.escaping, piece); }
  }

  /** The next acknowledgement is lost, whichever it is. */
  ghost predicate LosesAck(c: Coding, e: Ear, id: nat)
    requires Possible(e) && id < 0x8000
  {
    FoundInAll(c, e, Coming([OnLine(c, [AckFrame(id)])])) != [AckFrame(id)]
  }

  lemma PendingLosesAck(m: EscapeCoding.Mode, r: EscapeCoding.Mode, id: nat)
    requires EscapeCoding.Usable(m, r) && id < 0x8000
    ensures LosesAck(Escapes(m, r), Ear([], true, [], false), id)
  {
    hide OnLine, FoundInAll, EscapeCoding.Usable;
    var line := OnLine(Escapes(m, r), [AckFrame(id)]);
    OnePiece(line);
    AckIsLost(Escapes(m, r), Ear([], true, [], false), id, [line]);
  }

  /** It takes no bad frame: after a stray '@' no timer runs, and the next acknowledgement is lost. */
  lemma StrayAtLosesAck(m: EscapeCoding.Mode, r: EscapeCoding.Mode, id: nat)
    requires EscapeCoding.Usable(m, r) && id < 0x8000
    ensures var c := Escapes(m, r); var e := Hear(c, IDLE, Comes([AT]));
      e == Quiet(c, e) == Ear([], true, [], false) && LosesAck(c, e, id)
  {
    hide LosesAck, EscapeCoding.Usable;
    EscapeCoding.UsableForAll(m, r, AT);
    EscapeCoding.AtIsSent(m, r);
    EscapeCoding.DecodeOne(r, false, AT);
    assert [] + Decoded(Escapes(m, r), IDLE, [AT]) == [];
    PendingLosesAck(m, r, id);
  }

  /** A bad frame and an '@' behind it: the flushing ends, the '@' stays pending. */
  lemma BadFrameLosesAck(bad: bytes, id: nat)
    requires bad == [0, 0, 255, 255, 0, 0, 0, 0] && id < 0x8000
    ensures var c := Escapes(EscapeCoding.E8Bit, EscapeCoding.E8Bit); var e := Hear(c, IDLE, Comes(bad + [AT]));
      e == Ear([], true, [], true) && Quiet(c, e) == Ear([], true, [], false) && LosesAck(c, Quiet(c, e), id)
  {
    hide Parse, LosesAck, EscapeCoding.DecodeAll, EscapeCoding.Usable;
    var c, m := Escapes(EscapeCoding.E8Bit, EscapeCoding.E8Bit), EscapeCoding.E8Bit;
    EscapeCoding.DecodeAppend(m, false, bad, [AT]);
    EscapeCoding.PlainIsDecoded(bad);
    EscapeCoding.DecodeOne(m, false, AT);
    TooLong(bad);
    assert bad + [] == bad && [] + bad == bad;
    assert IDLE.rest + Decoded(c, IDLE, bad + [AT]) == bad;
    EscapeCoding.FixedModesAreUsable(m);
    PendingLosesAck(m, m, id);
  }

  lemma TooLong(b: bytes)
    requires b == [0, 0, 255, 255, 0, 0, 0, 0]
    ensures Parse(b) == Parsed([], [], true)
  {
    hide Parse;
    FirstInsane(b, []);
    assert b + [] == b;
  }
}
