/**
 The `LCD` object of the driver: its pin wiring, the channel the public
 operations queue timed writes on, and the writer that drains that channel
 onto the bus.

 The unbuffered Go channel `commChan` is modelled as the sequence `queue` of
 writes handed to it and not yet put on the bus, in the order they were sent;
 the I2C port writer is modelled as the log `bus` of the bytes written to it.
 Pins are Go ints, held as `bv64` like every other Go int here.
 */
module Lcd {
  import opened BitCodec
  import opened Protocol
  import opened Dispatcher

  class LCD {
    const rsPin: bv64
    const rwpin: bv64
    const enPin: bv64
    const d4Pin: bv64
    const d5Pin: bv64
    const d6Pin: bv64
    const d7Pin: bv64
    const backlightPin: bv64
    /** Writes sent on `commChan` and not yet taken by the writer, oldest first. */
    var queue: seq<LCDCommand>
    /** Every byte the port writer has been given, oldest first. */
    var bus: seq<bv8>

    /**
     `NewSI2C`: records the wiring and initializes the display, so the new
     object has exactly the initialization writes pending and nothing on the bus.
     */
    constructor NewSI2C(rsPin: bv64, rwpin: bv64, enPin: bv64, d4Pin: bv64, d5Pin: bv64,
                        d6Pin: bv64, d7Pin: bv64, backlightPin: bv64)
      ensures this.rsPin == rsPin && this.rwpin == rwpin && this.enPin == enPin
      ensures this.d4Pin == d4Pin && this.d5Pin == d5Pin && this.d6Pin == d6Pin && this.d7Pin == d7Pin
      ensures this.backlightPin == backlightPin
      ensures queue == InitWrites(rsPin, backlightPin, d5Pin)
      ensures bus == []
    {
      this.rsPin := rsPin;
      this.rwpin := rwpin;
      this.enPin := enPin;
      this.d4Pin := d4Pin;
      this.d5Pin := d5Pin;
      this.d6Pin := d6Pin;
      this.d7Pin := d7Pin;
      this.backlightPin := backlightPin;
      queue := [];
      new;
      Initialize();
      AppendEmpty(InitWrites(rsPin, backlightPin, d5Pin));
      bus := [];
    }

    /**
     `Initialize`: the mode switch clocked twice with a 5 ms hold, then
     function set, display on, clear, home, and both rows blanked.
     */
    method Initialize()
      modifies this`queue
      ensures queue == old(queue) + InitWrites(rsPin, backlightPin, d5Pin)
    {
      var funcSet: bv64 := 0;
      funcSet := SetBit(funcSet, d5Pin);
      funcSet := SetBit(funcSet, backlightPin);
      ClockByte(funcSet, ModeSwitchHold);
      ClockByte(funcSet, ModeSwitchHold);
      ghost var start := queue;
      ghost var modeSwitch := [LCDCommand(funcSet, ModeSwitchHold), LCDCommand(funcSet, ModeSwitchHold)];
      assert start == old(queue) + modeSwitch;
      ghost var sent: seq<Transfer> := [];
      assert queue == start + Encode(rsPin, backlightPin, sent);
      SendCommand(FunctionSet);
      EncodeOne(rsPin, backlightPin, Command(FunctionSet));
      EncodeExtend(rsPin, backlightPin, start, sent, [Command(FunctionSet)]);
      sent := sent + [Command(FunctionSet)];
      SendCommand(DisplayOn);
      EncodeOne(rsPin, backlightPin, Command(DisplayOn));
      EncodeExtend(rsPin, backlightPin, start, sent, [Command(DisplayOn)]);
      sent := sent + [Command(DisplayOn)];
      SendCommand(ClearDisplay);
      EncodeOne(rsPin, backlightPin, Command(ClearDisplay));
      EncodeExtend(rsPin, backlightPin, start, sent, [Command(ClearDisplay)]);
      sent := sent + [Command(ClearDisplay)];
      SendCommand(ReturnHome);
      EncodeOne(rsPin, backlightPin, Command(ReturnHome));
      EncodeExtend(rsPin, backlightPin, start, sent, [Command(ReturnHome)]);
      sent := sent + [Command(ReturnHome)];
      FourInOrder(Command(FunctionSet), Command(DisplayOn), Command(ClearDisplay), Command(ReturnHome));
      PrintRow1("");
      EncodeExtend(rsPin, backlightPin, start, sent, RowTransfers(Row1Address, ""));
      sent := sent + RowTransfers(Row1Address, "");
      PrintRow2("");
      EncodeExtend(rsPin, backlightPin, start, sent, RowTransfers(Row2Address, ""));
      sent := sent + RowTransfers(Row2Address, "");
      assert sent == InitTransfers();
      AppendAssoc(old(queue), modeSwitch, Encode(rsPin, backlightPin, sent));
    }

    /** `PrintRow1`: set the address to the start of row 1, then print the text. */
    method PrintRow1(str: string)
      modifies this`queue
      ensures queue == old(queue) + Encode(rsPin, backlightPin, RowTransfers(Row1Address, str))
    {
      SendCommand(Row1Address);
      PrintText(str);
      RowStep(rsPin, backlightPin, Row1Address, str);
      AppendAssoc(old(queue), NibbleWrites(rsPin, backlightPin, Row1Address, true),
        Encode(rsPin, backlightPin, TextTransfers(str)));
    }

    /** `PrintRow2`: set the address to the start of row 2, then print the text. */
    method PrintRow2(str: string)
      modifies this`queue
      ensures queue == old(queue) + Encode(rsPin, backlightPin, RowTransfers(Row2Address, str))
    {
      SendCommand(Row2Address);
      PrintText(str);
      RowStep(rsPin, backlightPin, Row2Address, str);
      AppendAssoc(old(queue), NibbleWrites(rsPin, backlightPin, Row2Address, true),
        Encode(rsPin, backlightPin, TextTransfers(str)));
    }

    /** `PrintText`: pad to 17 characters, then send each character as data, in order. */
    method PrintText(str: string)
      modifies this`queue
      ensures queue == old(queue) + Encode(rsPin, backlightPin, TextTransfers(str))
    {
      var padded := Padded(str);
      var i := 0;
      while i < |padded|
        invariant 0 <= i <= |padded|
        invariant queue == old(queue) + Encode(rsPin, backlightPin, Characters(padded[..i]))
      {
        SendData(CharCode(padded[i]), false);
        TextStep(rsPin, backlightPin, padded, i);
        AppendAssoc(old(queue), Encode(rsPin, backlightPin, Characters(padded[..i])),
          NibbleWrites(rsPin, backlightPin, CharCode(padded[i]), false));
        i := i + 1;
      }
      assert padded[..i] == padded;
    }

    /** `SendCommand`: send a byte with register-select low. */
    method SendCommand(data: bv64)
      modifies this`queue
      ensures queue == old(queue) + NibbleWrites(rsPin, backlightPin, data, true)
    {
      SendData(data, true);
    }

    /**
     `SendData`: build the flag bits, clock out the high nibble, then the low
     nibble over the same flags, each held 1 ms.
     */
    method SendData(data: bv64, command: bool)
      modifies this`queue
      ensures queue == old(queue) + NibbleWrites(rsPin, backlightPin, data, command)
    {
      var nib: bv64 := 0;
      if !command {
        nib := SetBit(nib, rsPin);
      }
      nib := SetBit(nib, backlightPin);
      nib := PutHigh(nib, data);
      ClockByte(nib, DefaultHold);
      nib := ClearHigh(nib);
      nib := PutLow(nib, data);
      ClockByte(nib, DefaultHold);
    }

    /** `clockByte`: hand one timed write to the writer. */
    method ClockByte(data: bv64, hold: int)
      modifies this`queue
      ensures queue == old(queue) + [LCDCommand(data, hold)]
    {
      queue := queue + [LCDCommand(data, hold)];
    }

    /**
     `lcdWriter`: take the pending writes one at a time, in the order they were
     sent, and put each on the bus.
     */
    method LcdWriter()
      modifies this`queue, this`bus
      ensures queue == []
      ensures bus == old(bus) + BusBytes(enPin, old(queue))
    {
      ghost var taken: seq<LCDCommand> := [];
      while queue != []
        invariant old(queue) == taken + queue
        invariant bus == old(bus) + BusBytes(enPin, taken)
        decreases |queue|
      {
        var msg := queue[0];
        queue := queue[1..];
        TimedByteWrite(msg);
        BusBytesAppend(enPin, taken, [msg]);
        assert BusBytes(enPin, [msg]) == Pulse(enPin, msg) by {
          assert [msg][1..] == [];
        }
        taken := taken + [msg];
      }
      assert old(queue) == taken;
    }

    /** `timedByteWrite`: the payload with enable set, then with enable cleared. */
    method TimedByteWrite(c: LCDCommand)
      modifies this`bus
      ensures bus == old(bus) + Pulse(enPin, c)
    {
      var enHigh := SetBit(c.data, enPin);
      bus := bus + [Byte(enHigh)];
      enHigh := ClearBit(c.data, enPin);
      bus := bus + [Byte(enHigh)];
    }
  }

  /** Bit `i` of `data`, read directly off the two's-complement word. */
  predicate BitAt(data: bv64, i: int)
    requires 0 <= i < 64
  {
    (data >> i as bv64) & 1 == 1
  }

  /**
   `printInt`: the low eight bits of `data`, most significant first, `1` for a
   set bit and `-` for a clear one.
   */
  method PrintInt(data: bv64) returns (s: string)
    ensures |s| == 8
    ensures forall k :: 0 <= k < 8 ==> s[k] == (if BitAt(data, 7 - k) then '1' else '-')
  {
    s := "";
    var i := 7;
    while i > -1
      invariant -1 <= i <= 7
      invariant |s| == 7 - i
      invariant forall k :: 0 <= k < |s| ==> s[k] == (if BitAt(data, 7 - k) then '1' else '-')
    {
      HasBitRange(data, i as bv64);
      if HasBit(data, i as bv64) {
        s := s + "1";
      } else {
        s := s + "-";
      }
      i := i - 1;
    }
  }
}
