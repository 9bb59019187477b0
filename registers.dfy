/** The two shift registers of the byte routines, with their sentinel bits.

    Sending (`i2c_write`): `sec; rol r24` moves the most significant data bit into the carry
    and plants a 1 at the bottom of r24; each later `lsl r24` moves the next bit into the
    carry. The register becomes zero (the `breq` to the acknowledge phase) exactly after the
    shift that pushes the planted 1 out, that is after the eighth data bit.

    Receiving (`i2c_read`): r23 starts as 0x01; each `rol r23` shifts one received bit in at
    the bottom. The carry out of the shift that brings in the eighth bit is the planted 1
    (`brcc` leaves the loop), and r23 then holds exactly the 8 received bits. */
module ShiftRegisters {
  import opened ByteBits

  /** The transmit frame as the bus sees it: the data bits, then the acknowledge slot in which
      the transmitter releases SDA (a 1). */
  function FrameBits(v: byte): (s: seq<bool>)
    ensures |s| == 9 && s[..8] == Bits(v) && s[8]
  {
    Bits(v) + [true]
  }

  /** r24 after the `rol` and `i` further `lsl` instructions. */
  function Transmit(v: byte, i: nat): byte
    requires i <= 8
  {
    if i == 0 then ShiftIn(v, true) else ShiftIn(Transmit(v, i - 1), false)
  }

  /** The remaining content of r24: the frame bits not yet shifted out, then zeros. */
  lemma {:induction false} TransmitBits(v: byte, i: nat)
    requires i <= 8
    ensures Bits(Transmit(v, i)) == FrameBits(v)[i + 1..] + Zeros(i)
  {
    if i == 0 {
      BitsShiftIn(v, true);
      assert Bits(v)[1..] + [true] == FrameBits(v)[1..];
    } else {
      var prev := Transmit(v, i - 1);
      TransmitBits(v, i - 1);
      BitsShiftIn(prev, false);
      SlideZeros(FrameBits(v)[i..], i - 1);
    }
  }

  lemma SlideZeros(rest: seq<bool>, n: nat)
    requires |rest| >= 1
    ensures (rest + Zeros(n))[1..] + [false] == rest[1..] + Zeros(n + 1)
  {
    assert (rest + Zeros(n))[1..] == rest[1..] + Zeros(n);
    assert Zeros(n) + [false] == Zeros(n + 1);
  }

  /** The carry produced by the shift that yields `Transmit(v, i)` is frame bit `i`: the top
      bit of `Transmit(v, i)` is the next frame bit, `i + 1`, to go out. */
  lemma TransmitCarry(v: byte, i: nat)
    requires i < 8
    ensures Bit(Transmit(v, i), 7) == FrameBits(v)[i + 1]
  {
    var x := Transmit(v, i);
    var rest := FrameBits(v)[i + 1..];
    assert Bits(x) == rest + Zeros(i) by { TransmitBits(v, i); }
    assert Bits(x)[0] == rest[0];
  }

  /** Every shift after the first is a plain `lsl`. */
  lemma TransmitShift(v: byte, i: nat)
    requires i < 8
    ensures Transmit(v, i + 1) == Transmit(v, i) << 1
  {
    assert BitValue(false) == 0;
  }

  /** r24 is empty exactly when all 8 data bits have been sent. */
  lemma TransmitEmpty(v: byte, i: nat)
    requires i <= 8
    ensures Transmit(v, i) == 0 <==> i == 8
  {
    TransmitBits(v, i);
    ZeroIffNoBits(Transmit(v, i));
    if i < 8 {
      assert Bits(Transmit(v, i))[7 - i] == FrameBits(v)[8];
    } else {
      assert Bits(Transmit(v, i)) == Zeros(8);
    }
  }

  /** r23 after the bits `got` have been shifted in. */
  function Receive(got: seq<bool>): byte
    requires |got| <= 8
  {
    if got == [] then 1 else ShiftIn(Receive(got[..|got| - 1]), got[|got| - 1])
  }

  /** Before the eighth bit r23 holds the planted 1 followed by the bits received so far. */
  lemma {:induction false} ReceivePartial(got: seq<bool>)
    requires |got| < 8
    ensures Receive(got) == Pack([true] + got)
  {
    if got != [] {
      var k := |got| - 1;
      ReceivePartial(got[..k]);
      assert ([true] + got)[..k + 1] == [true] + got[..k];
    } else {
      assert Pack([true]) == ShiftIn(Pack([]), true);
    }
  }

  /** After the eighth bit r23 holds exactly the 8 received bits. */
  lemma ReceiveFull(got: seq<bool>)
    requires |got| == 8
    ensures Receive(got) == Pack(got)
  {
    var init, r := got[..7], Receive(got);
    var s := [true] + init;
    assert r == ShiftIn(Pack(s), got[7]) by { ReceivePartial(init); }
    assert Bits(r) == got by {
      PackRoundTrip(s);
      BitsShiftIn(Pack(s), got[7]);
      assert s[1..] + [got[7]] == got;
    }
    BitsRoundTrip(r);
  }

  /** The carry out of the next `rol` is set exactly when the eighth bit goes in. */
  lemma ReceiveSentinel(got: seq<bool>)
    requires |got| < 8
    ensures Bit(Receive(got), 7) <==> |got| == 7
  {
    ReceivePartial(got);
    if |got| == 7 {
      PackRoundTrip([true] + got);
      assert Bits(Receive(got))[0];
    } else {
      PackBound([true] + got);
    }
  }
}
