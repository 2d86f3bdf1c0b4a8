# embd-lcd: a Dafny model of the HD44780 driver core

`lcd.go` drives a character LCD with an HD44780 controller through an I2C port
expander. The controller runs in its 4-bit interface mode. Every logical byte is
sent as two bus writes: the high nibble first, then the low nibble. Each write
carries the data nibble on bus bits 4..7. Register-select (RS) and the backlight
sit on low bits that are chosen at construction. Public operations queue timed
writes on a channel. A single writer goroutine takes them in order. For each
write it puts two bytes on the port: the payload with the enable line high, then
the payload with enable low. The controller latches on that falling edge.

The model has four modules:

- `BitCodec` (`bit_codec.dfy`) models `hasBit`, `setBit` and `clearBit` on a
  Go `int` as it is on a 64-bit target: a 64-bit two's-complement word
  (`bv64`). Positions go through `uint(pos)`, so a negative position becomes a
  shift of 64 or more, which Go evaluates to 0. `byte(x)` keeps the low eight bits.
- `Protocol` (`protocol.dfy`) covers what `SendData`, `PrintText`, the row
  prints and `Initialize` queue. They are pure functions from logical bytes
  (`Transfer`: a command or a data byte) to the queued `LCDCommand`s. It also
  has a decoder: what the controller reads back from the RS bit and the two
  nibbles.
- `Dispatcher` (`dispatcher.dfy`) covers the writer, `lcdWriter` and
  `timedByteWrite`. It maps the queue to the bytes on the bus, and reads the
  controller's view back off the falling edges.
- `Lcd` (`lcd.dfy`) holds the `LCD` object as a class:
  - the eight pins are constant fields;
  - the channel is the field `queue`, holding the writes sent and not yet
    taken;
  - the port writer is the field `bus`, a log of the bytes written;
  - every method is step-by-step imperative code, proved against the
    `Protocol` and `Dispatcher` functions.

The main results:

- Round trip. For any pin wiring with RS and backlight in bits 0..3 and
  distinct (`FlagPins`), decoding the writes of any byte sequence gives the
  sequence back (`DecodeEncode`).
- End to end. With the enable line also in bits 0..3 and distinct from RS, the
  controller's view of the bus gives that sequence back too (`BusDecodes`).
- Initialization. `Initialize` queues exactly 82 writes:
  - two mode-switch writes, held 5 ms;
  - function set 0x28, display on 0x0C, clear 0x01 and home 0x02;
  - row 1 (0x80) and row 2 (0xA8), each blanked with 17 spaces.

  Every write after the mode switch is held 1 ms (`InitSequence`, `InitDecodes`,
  `InitOnBus`).

These readings pair the writes from the first mode-switch write on. They hold
when the controller is already in 4-bit mode and nibble-aligned as
`Initialize` starts, as after an earlier initialization. From power-on reset
the controller is in 8-bit mode and takes the first mode-switch write alone,
so it pairs from the second one on. On the usual wiring, the first byte it then
reads is 0x22 instead of 0x28 (`ColdStartMisread`).

The mode switch is clocked twice. The comment above those lines in
`lcd.go:43` says "3 times", and the two further calls are commented out. The
model follows the code.

## Model

| member | source | states |
|---|---|---|
| `BitCodec.HasBitRange` | lcd.go:142-145 | `hasBit(n, pos)` holds exactly when `pos < 63` and bit `pos` of `n` is 1. Because the comparison `> 0` is signed, the sign bit and every shift of 64 or more read as clear. |
| `BitCodec.SetBitSpec` | lcd.go:147-150 | After `setBit(n, p)`, `hasBit` is true at `p` (for `p < 63`), and every other position reads as before. |
| `BitCodec.ClearBitSpec` | lcd.go:152-156 | After `clearBit(n, p)`, `hasBit` is false at `p`, and every other position reads as before. |
| `BitCodec.ByteSpec` | lcd.go:120 | `byte(x)` keeps bits 0..7 of `x` exactly and clears every higher bit. |
| `Protocol.NibbleWrites` | lcd.go:81-97 | `SendData` queues exactly two writes, each held 1 ms. |
| `Protocol.NibblesCarryData` | lcd.go:88-95 | For any `data`, bits 7..4 of the first write's byte are bits 7..4 of `data`. Bits 7..4 of the second write's byte are bits 3..0 of `data`. The bytes on the bus also carry the enable line; see `PulseBits` and `LatchedFrame`. |
| `Protocol.NibbleRoundTrip` | lcd.go:81-97 | For a byte, the two nibbles put back together give the byte. |
| `Protocol.FlagsSpec` | lcd.go:82-87 | The flag word lies in bits 0..3. It has RS set exactly for data and the backlight always. |
| `Protocol.NibbleFlagBits` | lcd.go:82-95 | Bits 0..3 of both writes equal the flag word. So RS is set in both exactly when sending data, and the backlight is set in both. |
| `Protocol.FrameDecodes` | lcd.go:81-97 | The controller reads one frame back as the logical byte it was made from, and as the right kind (command or data). |
| `Protocol.Encode` | lcd.go:72-74 | A sequence of sends queues two writes per logical byte, all held 1 ms. |
| `Protocol.EncodeAppend` | lcd.go:60-68 | Sending `a` and then `b` queues the writes of `a`, then those of `b`. |
| `Protocol.DecodeEncode` | lcd.go:77-97 | Decoding the queued writes of any sequence of bytes gives that sequence back. |
| `Protocol.EncodeAt` | lcd.go:100-103 | The writes of the k-th logical byte are at queue positions 2k and 2k+1. |
| `Protocol.Padded` | lcd.go:71 | `%-17s` keeps the text whole and in front. It pads with spaces to 17 characters and never truncates. |
| `Protocol.TextTransfersSpec` | lcd.go:70-75 | `PrintText(s)` sends max(\|s\|, 17) data bytes: the characters of `s` in order, then spaces (0x20). |
| `Protocol.BlankRowPrint` | lcd.go:56-68 | A blank row print queues 36 writes. The controller reads them as the address command followed by 17 spaces. |
| `Protocol.ModeSwitchNibble` | lcd.go:40-45 | With d5 on bit 5, the mode-switch byte's data nibble is 0x2, the high nibble of "function set, 4-bit". The backlight stays on. |
| `Protocol.InitTransfersSpelledOut` | lcd.go:50-57 | After the mode switch, `Initialize` sends 0x28, 0x0C, 0x01, 0x02, 0x80, 17 spaces, 0xA8, 17 spaces. |
| `Protocol.InitSequence` | lcd.go:38-58 | `Initialize` queues 82 writes. The first two are the mode-switch byte held 5 ms. The other 80 are held 1 ms and encode the schedule above. |
| `Protocol.InitScheduleBytes` | lcd.go:50-57 | Every byte of the initialization schedule fits the eight data lines. |
| `Protocol.InitDecodes` | lcd.go:38-58 | The controller reads the 80 writes after the mode switch as exactly the initialization schedule. |
| `Dispatcher.BusBytes` | lcd.go:105-115 | Draining the queue writes exactly two bus bytes per queued write. |
| `Dispatcher.BusBytesAppend` | lcd.go:105-115 | Draining two queues in turn writes their bytes in turn, so the writer preserves submission order. |
| `Dispatcher.BusBytesAt` | lcd.go:117-123 | The k-th queued write becomes bus bytes 2k (enable set) and 2k+1 (enable cleared). |
| `Dispatcher.PulseBits` | lcd.go:117-123 | The first byte of a pulse has enable high and the second has it low. Every other bus bit is the payload's. |
| `Dispatcher.WriterPulses` | lcd.go:105-126 | The bus holds one enable pulse per queued write, in queue order, each carrying that write's payload bits. |
| `Dispatcher.LatchedFrame` | lcd.go:117-126 | On the two falling edges of a frame, the controller reads the frame's logical byte. |
| `Dispatcher.BusDecodes` | lcd.go:105-126 | End to end: what the writer puts on the bus is latched as exactly the sent byte sequence, in order. |
| `Dispatcher.InitOnBus` | lcd.go:38-58 | The first four bus bytes are the two mode-switch pulses. The controller reads the rest of the initialization traffic as the documented schedule. |
| `Dispatcher.SecondPulsePairing` | lcd.go:40-50 | Bus byte 3 is the falling edge of the second mode-switch write, and bus byte 5 that of the high nibble of function set. |
| `Dispatcher.ColdStartMisread` | lcd.go:40-50 | On the usual wiring (RS bit 0, enable bit 2, backlight bit 3, d5 bit 5), a controller pairing from the second mode-switch write reads 0x22 as its first command, while the schedule begins with 0x28. |
| `Lcd.LCD.NewSI2C` | lcd.go:30-36 | A new object records the wiring. It has exactly the initialization writes pending and nothing on the bus. |
| `Lcd.LCD.Initialize` | lcd.go:38-58 | Queues the mode switch twice, then the four commands and both blank rows (`InitWrites`), after what was pending. |
| `Lcd.LCD.PrintRow1` | lcd.go:60-63 | Queues address 0x80, then the padded text. |
| `Lcd.LCD.PrintRow2` | lcd.go:65-68 | Queues address 0xA8, then the padded text. |
| `Lcd.LCD.PrintText` | lcd.go:70-75 | The loop queues the frames of the padded text, one character at a time, in order. |
| `Lcd.LCD.SendCommand` | lcd.go:77-79 | Queues the two writes of `data` with RS clear. |
| `Lcd.LCD.SendData` | lcd.go:81-97 | The step-by-step `nib` updates queue exactly the two nibble writes. |
| `Lcd.LCD.ClockByte` | lcd.go:100-103 | Appends one timed write to the pending queue. |
| `Lcd.LCD.LcdWriter` | lcd.go:105-115 | Takes every pending write in order. Afterwards nothing is pending, and the bus has gained the bytes of every write taken. |
| `Lcd.LCD.TimedByteWrite` | lcd.go:117-126 | Writes the payload with enable set, then with enable cleared. |
| `Lcd.PrintInt` | lcd.go:128-140 | Returns 8 characters. Character k is `1` exactly when bit 7-k of `data` is set, and `-` otherwise. |

## Left out

- Concurrency is not modelled. The goroutine that `Initialize` starts and the unbuffered channel's blocking handoff are replaced by a queue of pending writes. `LcdWriter` drains that queue when called.
- Interleaving between writers is not modelled. Calling `Initialize` again starts a second writer, and the two would race for the channel.
- The writer's exit when the channel is closed (and its `fmt.Println`) has no counterpart, because the channel is never closed in `lcd.go`.
- The I2C port writer (`portwriter.NewSharedI2CWriter`, `WriteByte`) is a log of bytes (`bus`). The `i2cPort` and `i2cAddr` arguments of `NewSI2C` are not modelled, because they only select that writer. Port errors are not modelled.
- `delayMilli` and `time.Sleep` are left out. Only the hold time recorded with each write is kept.
- `printInt` returns its string instead of printing it.
- Go's `range` over a string decodes UTF-8, and `%-17s` counts runes. The model takes a string as a sequence of characters (runes), so invalid UTF-8 is not modelled.
- `SendData` sends any rune's low byte. The round-trip lemmas are stated for bytes (`AllBytes`), since the controller has only eight data lines.
- `BitCodec.HasBitRange`, `BitCodec.SetBitSpec`: the model fixes a 64-bit `int`. On a 32-bit target the sign bit is bit 31 and shifts of 32 or more give 0, which is not modelled. The results about bytes, nibbles, the writer and initialization use only pins 0..7 and byte truncation, so they do not depend on the width.
- No pin is validated in `lcd.go`. The lemmas that need a sensible wiring say so in their `requires`: RS and backlight in bits 0..3 and distinct, the enable bit in 0..3 (or 0..7) and distinct from RS, and d5 on bit 5 for the mode-switch results (`ModeSwitchNibble`, `ColdStartMisread`). The methods accept any pins, as the source does.
- `DecodeBus`, `InitOnBus` and `InitDecodes` assume the controller is in 4-bit mode and nibble-aligned when `Initialize` starts. The power-on state (8-bit mode) is not modelled beyond `ColdStartMisread`, which shows the misalignment that two mode-switch writes leave from there. The model keeps the two writes of `lcd.go`.
- `DecodePair`, `Decode` and `DecodeBus` model the controller's side of the bus, which is not part of `lcd.go`. They exist to state the round trips.
