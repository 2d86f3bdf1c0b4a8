/**
 Bit codec of the LCD driver: the helpers that map a signal line onto a bit
 position of a Go `int`.

 On a 64-bit target Go's `int` is a 64-bit two's-complement integer (on a
 32-bit target it has 32 bits); it is modelled as the 64-bit one, `bv64`,
 whose `|`, `&`, `^`, `!` and `<<` agree with Go's on every value. A bit
 position is used only through `uint(pos)`, so it is held as the same 64 bits
 read unsigned: a negative position is a huge shift amount. Go's shift
 `1 << uint(pos)` is 0 once the amount reaches 64, which `Mask` writes out.
 */
module BitCodec {

  /** `1 << uint(pos)` on a 64-bit Go int. */
  function Mask(pos: bv64): bv64 {
    if pos < 64 then 1 << pos else 0
  }

  /** Go's signed comparison `v > 0` on a 64-bit int: not zero, sign bit clear. */
  predicate IsPositive(v: bv64) {
    v != 0 && v & 0x8000_0000_0000_0000 == 0
  }

  /** `hasBit`: `n & (1 << uint(pos)) > 0`. */
  predicate HasBit(n: bv64, pos: bv64) {
    IsPositive(n & Mask(pos))
  }

  /** `setBit`: `n | (1 << uint(pos))`. */
  function SetBit(n: bv64, pos: bv64): bv64 {
    n | Mask(pos)
  }

  /** `clearBit`: `n & ^(1 << uint(pos))`. */
  function ClearBit(n: bv64, pos: bv64): bv64 {
    n & !Mask(pos)
  }

  /** Go's `byte(x)` conversion: keep the low eight bits. */
  function Byte(x: bv64): bv8 {
    (x & 0xFF) as bv8
  }

  /** A byte read back as a Go int (zero-extended). */
  function Widen(b: bv8): bv64 {
    b as bv64
  }

  /**
   hasBit sees positions 0..62 only and there tests the raw bit: because its
   comparison is signed, the sign bit 63 always reads as clear.
   */
  lemma HasBitRange(n: bv64, pos: bv64)
    ensures HasBit(n, pos) <==> pos < 63 && (n >> pos) & 1 == 1
  {
    if pos < 63 {
      HasBitBelowSign(n, pos);
    } else {
      HasBitFromSign(n, pos);
    }
  }

  /** Below the sign bit, hasBit is the raw bit. */
  lemma HasBitBelowSign(n: bv64, pos: bv64)
    requires pos < 63
    ensures HasBit(n, pos) <==> (n >> pos) & 1 == 1
  {
  }

  /** From the sign bit up, hasBit is false. */
  lemma HasBitFromSign(n: bv64, pos: bv64)
    requires 63 <= pos
    ensures !HasBit(n, pos)
  {
  }

  /** setBit at `p` leaves position `q` as it was. */
  lemma SetBitKeeps(n: bv64, p: bv64, q: bv64)
    requires q != p
    ensures HasBit(SetBit(n, p), q) == HasBit(n, q)
  {
  }

  /** clearBit at `p` leaves position `q` as it was. */
  lemma ClearBitKeeps(n: bv64, p: bv64, q: bv64)
    requires q != p
    ensures HasBit(ClearBit(n, p), q) == HasBit(n, q)
  {
  }

  /** setBit makes hasBit true at `p` and leaves every other position as it was. */
  lemma SetBitSpec(n: bv64, p: bv64)
    ensures p < 63 ==> HasBit(SetBit(n, p), p)
    ensures forall q :: q != p ==> HasBit(SetBit(n, p), q) == HasBit(n, q)
  {
    forall q | q != p
      ensures HasBit(SetBit(n, p), q) == HasBit(n, q)
    {
      SetBitKeeps(n, p, q);
    }
  }

  /** clearBit makes hasBit false at `p` and leaves every other position as it was. */
  lemma ClearBitSpec(n: bv64, p: bv64)
    ensures !HasBit(ClearBit(n, p), p)
    ensures forall q :: q != p ==> HasBit(ClearBit(n, p), q) == HasBit(n, q)
  {
    forall q | q != p
      ensures HasBit(ClearBit(n, p), q) == HasBit(n, q)
    {
      ClearBitKeeps(n, p, q);
    }
  }

  /** `byte(x)` keeps exactly the bits 0..7 of `x`. */
  lemma ByteSpec(x: bv64)
    ensures forall q :: q < 8 ==> HasBit(Widen(Byte(x)), q) == HasBit(x, q)
    ensures forall q :: 8 <= q ==> !HasBit(Widen(Byte(x)), q)
  {
  }
}
