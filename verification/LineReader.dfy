/**
 PacketReceiveData in all encodings: one of two decoders is in use.  In the C code both are branches of
 one procedure with variables in common; a session never changes its encoding, so what one branch leaves
 in them the other never sees.  What is decoded, and what stays pending, is said by module Reception,
 which this module ties to the decoders.
 */
module LineReader {
  import opened Bytes
  import opened Reception
  import BitCoding
  import EscapeCoding

  class Reader {
    const coding: Coding
    const rotating: BitCoding.LineDecoder?
    const escapes: EscapeCoding.EscapeDecoder?

    ghost predicate Valid()
      reads this, rotating, escapes
    {
      match coding
      case Bits(n) => rotating != null && rotating.nBitsCode == n && rotating.Valid()
      case Escapes(_, r) => escapes != null && escapes.mode == r && escapes.Valid()
    }

    ghost function Partial(): (b: BitCoding.bits)
      reads this, rotating, escapes
      requires Valid()
      ensures |b| < 8
    {
      if coding.Bits? then rotating.Partial() else []
    }

    predicate Escaping()
      reads this, rotating, escapes
      requires Valid()
    {
      coding.Escapes? && escapes.nBits == 1
    }

    /** The CANs in a row so far. */
    function CtlX(): nat
      reads this, rotating, escapes
      requires Valid()
    {
      if coding.Bits? then rotating.nCtlX else escapes.nCtlX
    }

    constructor (c: Coding)
      ensures Valid() && coding == c && Partial() == [] && !Escaping() && CtlX() == 0
      ensures fresh(if c.Bits? then {rotating as object?} else {escapes as object?})
    {
      coding := c;
      match c {
        case Bits(n) =>
          var d := new BitCoding.LineDecoder(n);
          rotating, escapes := d, null;
        case Escapes(_, r) =>
          var d := new EscapeCoding.EscapeDecoder(r);
          rotating, escapes := null, d;
      }
    }

    /** PacketReceiveData(0, 0), for the decoder's part: what is pending is forgotten. */
    method ReceiveTimeout()
      requires Valid()
      modifies rotating, escapes
      ensures Valid() && Partial() == [] && !Escaping() && CtlX() == old(CtlX())
    {
      match coding
      case Bits(_) => rotating.ReceiveTimeout();
      case Escapes(_, _) => escapes.ReceiveTimeout();
    }

    /** The input is decoded; `exits` tells that there were five CANs in a row. */
    method PacketReceiveData(data: bytes, ghost e: Ear) returns (out: bytes, exits: bool)
      requires Valid() && Possible(e) && e.partial == Partial() && e.escaping == Escaping()
      modifies rotating, escapes
      ensures Valid() && Cans(CtlX(), exits) == CountAll(Cans(old(CtlX()), false), data)
      ensures out == Decoded(coding, e, data)
      ensures Partial() == AfterDecoding(coding, e, data).partial
      ensures Escaping() == AfterDecoding(coding, e, data).escaping
    {
      match coding
      case Bits(_) => out, exits := rotating.PacketReceiveData(data);
      case Escapes(_, _) => out, exits := escapes.PacketReceiveData(data);
    }
  }
}
