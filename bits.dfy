/** Bytes as the AVR registers hold them, and their MSB-first bit sequences
    (section 3.1.5 of NXP UM10204: a byte on the bus is 8 bits, most significant first). */
module ByteBits {

  type byte = bv8

  /** The byte with only bit `j` set (0 = least significant). */
  function Mask(j: nat): byte
    requires j < 8
  {
    match j
    case 0 => 0x01 case 1 => 0x02 case 2 => 0x04 case 3 => 0x08
    case 4 => 0x10 case 5 => 0x20 case 6 => 0x40 case _ => 0x80
  }

  /** Bit `j` (0 = least significant) of `v`. */
  function Bit(v: byte, j: nat): bool
    requires j < 8
  {
    v & Mask(j) != 0
  }

  /** The 8 bits of `v` in transmission order, most significant first. */
  function Bits(v: byte): (s: seq<bool>)
    ensures |s| == 8
    ensures forall i :: 0 <= i < 8 ==> s[i] == Bit(v, 7 - i)
  {
    [v & 0x80 != 0, v & 0x40 != 0, v & 0x20 != 0, v & 0x10 != 0,
     v & 0x08 != 0, v & 0x04 != 0, v & 0x02 != 0, v & 0x01 != 0]
  }

  function BitValue(b: bool): byte { if b then 1 else 0 }

  /** One step of a receiving shift register: `x` moves up a place and `b` enters at the bottom. */
  function ShiftIn(x: byte, b: bool): byte { (x << 1) | BitValue(b) }

  /** Assembles bits received most significant first, the way a receiver shifts them in:
      each new bit enters at the bottom and everything before moves up one place. */
  function Pack(s: seq<bool>): byte
    requires |s| <= 8
  {
    if s == [] then 0 else ShiftIn(Pack(s[..|s| - 1]), s[|s| - 1])
  }

  /** Fewer than 8 bits occupy only the low |s| positions. */
  lemma {:induction false} PackBound(s: seq<bool>)
    requires |s| <= 7
    ensures Pack(s) < Mask(|s|)
  {
    if s != [] {
      PackBound(s[..|s| - 1]);
      ShiftedBound(Pack(s[..|s| - 1]), |s| - 1, s[|s| - 1]);
    }
  }

  lemma ShiftedBound(x: byte, k: nat, b: bool)
    requires k <= 6
    requires x < Mask(k)
    ensures ShiftIn(x, b) < Mask(k + 1)
  {
  }

  lemma PackStep(s: seq<bool>, k: nat)
    requires k < |s| <= 8
    ensures Pack(s[..k + 1]) == ShiftIn(Pack(s[..k]), s[k])
  {
    assert s[..k + 1][..k] == s[..k];
  }

  lemma PackPrefixes(s: seq<bool>)
    requires |s| == 8
    ensures Pack(s) == ShiftIn(ShiftIn(ShiftIn(ShiftIn(ShiftIn(ShiftIn(ShiftIn(
      BitValue(s[0]), s[1]), s[2]), s[3]), s[4]), s[5]), s[6]), s[7])
  {
    assert s[..0] == [];
    PackStep(s, 0); PackStep(s, 1); PackStep(s, 2); PackStep(s, 3);
    PackStep(s, 4); PackStep(s, 5); PackStep(s, 6); PackStep(s, 7);
    assert s[..8] == s;
  }

  /** Receiving the bits of a byte gives that byte back. */
  lemma BitsRoundTrip(v: byte)
    ensures Pack(Bits(v)) == v
  {
    PackPrefixes(Bits(v));
  }

  /** Sending the packed byte sends the same bits. */
  lemma PackRoundTrip(s: seq<bool>)
    requires |s| == 8
    ensures Bits(Pack(s)) == s
  {
    PackPrefixes(s);
  }

  /** The 8 zero bits. */
  function Zeros(n: nat): (s: seq<bool>)
    ensures |s| == n && forall i :: 0 <= i < n ==> !s[i]
  {
    seq(n, i => false)
  }

  /** Shifting changes the bits by dropping the top one and appending `b`. */
  lemma BitsShiftIn(x: byte, b: bool)
    ensures Bits(ShiftIn(x, b)) == Bits(x)[1..] + [b]
  {
  }

  /** A byte is zero exactly when none of its bits is set. */
  lemma ZeroIffNoBits(x: byte)
    ensures x == 0 <==> Bits(x) == Zeros(8)
  {
    if Bits(x) == Zeros(8) {
      BitsRoundTrip(x);
      PackPrefixes(Zeros(8));
    }
  }
}
