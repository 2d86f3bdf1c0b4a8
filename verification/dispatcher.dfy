/**
 Serializing dispatcher of the LCD driver: the single writer that takes queued
 writes in submission order and drives the enable line.

 Each queued write becomes two bytes on the bus: the payload with the enable
 bit set, then the payload with the enable bit cleared (the controller latches
 on that falling edge). Go's `byte(...)` keeps the low eight bits of each.
 */
module Dispatcher {
  import opened BitCodec
  import opened Protocol

  /** The two bus bytes of `timedByteWrite(c)`: enable high, then enable low. */
  function Pulse(en: bv64, c: LCDCommand): seq<bv8> {
    [Byte(SetBit(c.data, en)), Byte(ClearBit(c.data, en))]
  }

  /** Everything the writer puts on the bus while draining `q`, in queue order. */
  function BusBytes(en: bv64, q: seq<LCDCommand>): (bus: seq<bv8>)
    ensures |bus| == 2 * |q|
  {
    if q == [] then [] else Pulse(en, q[0]) + BusBytes(en, q[1..])
  }

  /** Draining two queues one after the other writes their bytes one after the other. */
  lemma {:induction false} BusBytesAppend(en: bv64, a: seq<LCDCommand>, b: seq<LCDCommand>)
    ensures BusBytes(en, a + b) == BusBytes(en, a) + BusBytes(en, b)
  {
    if a == [] {
      assert a + b == b;
    } else {
      assert (a + b)[0] == a[0];
      assert (a + b)[1..] == a[1..] + b;
      BusBytesAppend(en, a[1..], b);
    }
  }

  /** The k-th queued write is the bus bytes 2k (enable high) and 2k + 1 (enable low). */
  lemma {:induction false} BusBytesAt(en: bv64, q: seq<LCDCommand>, k: nat)
    requires k < |q|
    ensures BusBytes(en, q)[2 * k] == Byte(SetBit(q[k].data, en))
    ensures BusBytes(en, q)[2 * k + 1] == Byte(ClearBit(q[k].data, en))
  {
    if k > 0 {
      BusBytesAt(en, q[1..], k - 1);
      assert BusBytes(en, q)[2..] == BusBytes(en, q[1..]);
    }
  }

  /**
   With the enable line on the bus byte, the first byte of a pulse has it set,
   the second has it clear, and every other bus bit is the payload's.
   */
  lemma PulseBits(en: bv64, c: LCDCommand)
    requires en < 8
    ensures HasBit(Widen(Pulse(en, c)[0]), en)
    ensures !HasBit(Widen(Pulse(en, c)[1]), en)
    ensures forall b :: b < 8 && b != en ==>
      HasBit(Widen(Pulse(en, c)[0]), b) == HasBit(c.data, b) == HasBit(Widen(Pulse(en, c)[1]), b)
  {
    var hi, lo := SetBit(c.data, en), ClearBit(c.data, en);
    SetBitSpec(c.data, en);
    ClearBitSpec(c.data, en);
    ByteSpec(hi);
    ByteSpec(lo);
  }

  /**
   The bus carries a pulse for each queued write, in queue order, and nothing
   else: the enable bit high then low, the other bits those of the payload.
   */
  lemma WriterPulses(en: bv64, q: seq<LCDCommand>)
    requires en < 8
    ensures |BusBytes(en, q)| == 2 * |q|
    ensures forall k :: 0 <= k < |q| ==>
      && HasBit(Widen(BusBytes(en, q)[2 * k]), en)
      && !HasBit(Widen(BusBytes(en, q)[2 * k + 1]), en)
    ensures forall k, b :: 0 <= k < |q| && b < 8 && b != en ==>
      && HasBit(Widen(BusBytes(en, q)[2 * k]), b) == HasBit(q[k].data, b)
      && HasBit(Widen(BusBytes(en, q)[2 * k + 1]), b) == HasBit(q[k].data, b)
  {
    forall k | 0 <= k < |q|
      ensures HasBit(Widen(BusBytes(en, q)[2 * k]), en)
      ensures !HasBit(Widen(BusBytes(en, q)[2 * k + 1]), en)
      ensures forall b :: b < 8 && b != en ==>
        && HasBit(Widen(BusBytes(en, q)[2 * k]), b) == HasBit(q[k].data, b)
        && HasBit(Widen(BusBytes(en, q)[2 * k + 1]), b) == HasBit(q[k].data, b)
    {
      BusBytesAt(en, q, k);
      PulseBits(en, q[k]);
    }
  }

  /**
   What the controller latches from the bus: on each falling edge of enable
   (the second byte of a pulse) one nibble, two pulses per logical byte.
   */
  function DecodeBus(rs: bv64, bus: seq<bv8>): seq<Transfer>
    decreases |bus|
  {
    if |bus| < 4 then [] else [DecodePair(rs, Widen(bus[1]), Widen(bus[3]))] + DecodeBus(rs, bus[4..])
  }

  /** Clearing an enable bit in 0..3 keeps the data nibble and the register-select bit of a byte. */
  lemma EnableLowKeeps(x: bv64, en: bv64, rs: bv64)
    requires en < 4 && rs < 4 && en != rs
    ensures Byte(Widen(Byte(ClearBit(x, en)))) & 0xF0 == Byte(x) & 0xF0
    ensures HasBit(Widen(Byte(ClearBit(x, en))), rs) == HasBit(x, rs)
  {
    ClearBitSpec(x, en);
    ByteSpec(ClearBit(x, en));
  }

  /** The pair the controller reads depends only on the nibbles and register-select. */
  lemma DecodePairSame(rs: bv64, hi: bv64, lo: bv64, hi': bv64, lo': bv64)
    requires Byte(hi') & 0xF0 == Byte(hi) & 0xF0 && Byte(lo') & 0xF0 == Byte(lo) & 0xF0
    requires HasBit(hi', rs) == HasBit(hi, rs)
    ensures DecodePair(rs, hi', lo') == DecodePair(rs, hi, lo)
  {
    assert Byte(lo') >> 4 == (Byte(lo') & 0xF0) >> 4;
    assert Byte(lo) >> 4 == (Byte(lo) & 0xF0) >> 4;
  }

  /** On the falling edges of one frame's two pulses the controller reads the frame's byte. */
  lemma LatchedFrame(rs: bv64, bl: bv64, en: bv64, t: Transfer)
    requires FlagPins(rs, bl) && en < 4 && en != rs && IsByte(t)
    ensures var f := Frame(rs, bl, t);
      DecodePair(rs, Widen(Byte(ClearBit(f[0].data, en))), Widen(Byte(ClearBit(f[1].data, en)))) == t
  {
    var f := Frame(rs, bl, t);
    FrameDecodes(rs, bl, t);
    EnableLowKeeps(f[0].data, en, rs);
    EnableLowKeeps(f[1].data, en, rs);
    DecodePairSame(rs, f[0].data, f[1].data,
      Widen(Byte(ClearBit(f[0].data, en))), Widen(Byte(ClearBit(f[1].data, en))));
  }

  /**
   End to end: for any sequence of bytes, what the writer puts on the bus is
   latched by the controller as exactly that sequence, in order.
   */
  lemma {:induction false} BusDecodes(rs: bv64, bl: bv64, en: bv64, ts: seq<Transfer>)
    requires FlagPins(rs, bl) && en < 4 && en != rs && AllBytes(ts)
    ensures DecodeBus(rs, BusBytes(en, Encode(rs, bl, ts))) == ts
  {
    if ts != [] {
      var f, rest := Frame(rs, bl, ts[0]), Encode(rs, bl, ts[1..]);
      assert Encode(rs, bl, ts) == f + rest;
      BusBytesAppend(en, f, rest);
      FramePulses(en, f);
      var bus := BusBytes(en, f) + BusBytes(en, rest);
      assert bus[1] == Byte(ClearBit(f[0].data, en)) && bus[3] == Byte(ClearBit(f[1].data, en));
      DropFirst(BusBytes(en, f), BusBytes(en, rest));
      assert ts[0] in ts;
      LatchedFrame(rs, bl, en, ts[0]);
      BusDecodes(rs, bl, en, ts[1..]);
    }
  }

  /**
   The first four bus bytes are the two mode-switch pulses. Read from byte 4
   on, two pulses per byte, the initialization traffic is the documented
   commands and blank rows.

   The pairing from byte 4 assumes the controller was already in 4-bit mode
   and nibble-aligned when the first mode-switch pulse arrived: then the two
   pulses together are one instruction. `ColdStartMisread` shows what happens
   from power-on reset instead.
   */
  lemma InitOnBus(rs: bv64, bl: bv64, en: bv64, d5: bv64)
    requires FlagPins(rs, bl) && en < 4 && en != rs
    ensures var ms := LCDCommand(ModeSwitch(d5, bl), ModeSwitchHold);
      BusBytes(en, InitWrites(rs, bl, d5))[..4] == Pulse(en, ms) + Pulse(en, ms)
    ensures DecodeBus(rs, BusBytes(en, InitWrites(rs, bl, d5))[4..]) == InitSchedule()
  {
    var fs := ModeSwitch(d5, bl);
    var modeSwitch := [LCDCommand(fs, ModeSwitchHold), LCDCommand(fs, ModeSwitchHold)];
    var body := Encode(rs, bl, InitTransfers());
    BusBytesAppend(en, modeSwitch, body);
    FramePulses(en, modeSwitch);
    SliceOfFirst(BusBytes(en, modeSwitch), BusBytes(en, body));
    DropFirst(BusBytes(en, modeSwitch), BusBytes(en, body));
    InitTransfersSpelledOut();
    InitScheduleBytes();
    BusDecodes(rs, bl, en, InitSchedule());
  }

  /**
   After power-on reset the controller is in 8-bit mode. Its first latch is
   then a whole instruction: the first mode-switch pulse alone switches it to
   4 bits, and it pairs nibbles from the second pulse (bus byte 2) on. On the
   usual backpack wiring (RS on bit 0, enable on bit 2, backlight on bit 3,
   d5 on bit 5) the first byte it reads that way is 0x22, where the schedule
   begins with function set 0x28: every later byte is one nibble off.
   */
  lemma ColdStartMisread()
    ensures DecodeBus(0, BusBytes(2, InitWrites(0, 3, 5))[2..])[0] == Command(0x22)
    ensures InitSchedule()[0] == Command(FunctionSet) != Command(0x22)
  {
    var bus := BusBytes(2, InitWrites(0, 3, 5));
    SecondPulsePairing(0, 3, 2, 5);
    DecodeBusHead(0, bus[2..]);
    assert bus[2..][1] == bus[3] && bus[2..][3] == bus[5];
    ColdStartFirstByte();
    InitTransfersHead();
    InitTransfersSpelledOut();
  }

  /** The first byte the controller reads is the pair latched on bus bytes 1 and 3. */
  lemma DecodeBusHead(rs: bv64, bus: seq<bv8>)
    requires |bus| >= 4
    ensures DecodeBus(rs, bus)[0] == DecodePair(rs, Widen(bus[1]), Widen(bus[3]))
  {
  }

  /**
   Bus bytes 3 and 5 are the falling edges of the second mode-switch pulse and
   of the high nibble of function set.
   */
  lemma SecondPulsePairing(rs: bv64, bl: bv64, en: bv64, d5: bv64)
    ensures var bus := BusBytes(en, InitWrites(rs, bl, d5));
      && |bus| >= 6
      && bus[3] == Byte(ClearBit(ModeSwitch(d5, bl), en))
      && bus[5] == Byte(ClearBit(NibbleWrites(rs, bl, FunctionSet, true)[0].data, en))
  {
    var writes := InitWrites(rs, bl, d5);
    FirstInitWrites(rs, bl, d5);
    BusBytesAt(en, writes, 1);
    BusBytesAt(en, writes, 2);
  }

  /** The second queued write is the mode switch; the third is the high half of function set. */
  lemma FirstInitWrites(rs: bv64, bl: bv64, d5: bv64)
    ensures var writes := InitWrites(rs, bl, d5);
      && |writes| >= 3
      && writes[1].data == ModeSwitch(d5, bl)
      && writes[2] == NibbleWrites(rs, bl, FunctionSet, true)[0]
  {
    InitTransfersHead();
    EncodeHead(rs, bl, InitTransfers());
  }

  /** `Initialize` starts its schedule with function set. */
  lemma InitTransfersHead()
    ensures |InitTransfers()| > 0 && InitTransfers()[0] == Command(FunctionSet)
  {
  }

  /** The first write of a sequence of sends is the first write of its first frame. */
  lemma EncodeHead(rs: bv64, bl: bv64, ts: seq<Transfer>)
    requires |ts| > 0
    ensures Encode(rs, bl, ts)[0] == Frame(rs, bl, ts[0])[0]
  {
  }

  /** On the usual wiring, that misaligned pair reads as instruction 0x22. */
  lemma ColdStartFirstByte()
    ensures DecodePair(0, Widen(Byte(ClearBit(ModeSwitch(5, 3), 2))),
      Widen(Byte(ClearBit(NibbleWrites(0, 3, FunctionSet, true)[0].data, 2)))) == Command(0x22)
  {
  }

  /** The bus bytes of a two-write frame are its two pulses. */
  lemma FramePulses(en: bv64, f: seq<LCDCommand>)
    requires |f| == 2
    ensures BusBytes(en, f) == Pulse(en, f[0]) + Pulse(en, f[1])
  {
    assert f[1..][1..] == [];
  }
}
