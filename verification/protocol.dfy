/**
 Protocol engine of the LCD driver: how a logical command or data byte becomes
 two timed writes in the HD44780's 4-bit mode, how text is padded and
 addressed to a row, and the fixed initialization sequence.

 A timed write is an `LCDCommand`: the Go int to put on the bus and the hold
 time in milliseconds. The data lines are wired to bits 4..7 of the bus byte;
 register-select and backlight are bit positions chosen at construction.
 */
module Protocol {
  import opened BitCodec

  /** One queued bus write: payload and hold time in milliseconds. */
  datatype LCDCommand = LCDCommand(data: bv64, hold: int)

  /** A logical byte sent to the controller: an instruction or a character. */
  datatype Transfer = Command(value: bv64) | Data(value: bv64)

  /** Hold time of every write after the mode switch. */
  const DefaultHold: int := 1
  /** Hold time of the two mode-switch writes. */
  const ModeSwitchHold: int := 5
  /** `%-17s`: the field width text is padded to. */
  const RowWidth: nat := 17
  /** Character code of the padding space. */
  const Space: bv64 := 0x20

  /** Function set: 4-bit interface, two lines, 5x8 font. */
  const FunctionSet: bv64 := 0x28
  /** Display on, cursor off. */
  const DisplayOn: bv64 := 0x0C
  /** Clear display. */
  const ClearDisplay: bv64 := 0x01
  /** Return home. */
  const ReturnHome: bv64 := 0x02
  /** Set DDRAM address 0x00: start of row 1. */
  const Row1Address: bv64 := 0x80
  /** Set DDRAM address 0x28: start of row 2. */
  const Row2Address: bv64 := 0xA8

  /** Pin wiring the nibble properties need: flags in bits 0..3, distinct. */
  predicate FlagPins(rs: bv64, bl: bv64) {
    rs < 4 && bl < 4 && rs != bl
  }

  /** The register-select and backlight bits `SendData` starts from. */
  function Flags(rs: bv64, bl: bv64, command: bool): bv64 {
    SetBit(if command then 0 else SetBit(0, rs), bl)
  }

  /**
   `nib ^ ((data >> 4) << 4)`: bits 7..4 of `data` onto the flag bits.
   Dafny's `>>` on `bv64` is logical while Go's on a signed `int` is
   arithmetic; they differ only in the four top bits the shift fills, and
   `<< 4` discards exactly those, so the result is Go's for every `data`.
   */
  function PutHigh(nib: bv64, data: bv64): bv64 {
    nib ^ ((data >> 4) << 4)
  }

  /** `nib &^ (255 << 4)`: clear bits 4..11, keep the rest. */
  function ClearHigh(nib: bv64): bv64 {
    nib & !(255 << 4)
  }

  /** `nib ^ (data << 4)`: bits 3..0 of `data` (and the rest, shifted) onto bits 7..4. */
  function PutLow(nib: bv64, data: bv64): bv64 {
    nib ^ (data << 4)
  }

  /** The two writes of `SendData(data, command)`: high nibble, then low nibble. */
  function NibbleWrites(rs: bv64, bl: bv64, data: bv64, command: bool): (ws: seq<LCDCommand>)
    ensures |ws| == 2 && ws[0].hold == DefaultHold && ws[1].hold == DefaultHold
  {
    var hi := PutHigh(Flags(rs, bl, command), data);
    var lo := PutLow(ClearHigh(hi), data);
    [LCDCommand(hi, DefaultHold), LCDCommand(lo, DefaultHold)]
  }

  /** The writes of one logical byte. */
  function Frame(rs: bv64, bl: bv64, t: Transfer): seq<LCDCommand> {
    NibbleWrites(rs, bl, t.value, t.Command?)
  }

  /** The writes of a sequence of logical bytes, in order. */
  function Encode(rs: bv64, bl: bv64, ts: seq<Transfer>): (ws: seq<LCDCommand>)
    ensures |ws| == 2 * |ts|
    ensures forall k :: 0 <= k < |ws| ==> ws[k].hold == DefaultHold
  {
    if ts == [] then [] else Frame(rs, bl, ts[0]) + Encode(rs, bl, ts[1..])
  }

  /** What the controller reads from one high/low pair: kind from register-select, byte from the two nibbles. */
  function DecodePair(rs: bv64, hi: bv64, lo: bv64): Transfer {
    var v := ((Byte(hi) & 0xF0) | (Byte(lo) >> 4)) as bv64;
    if HasBit(hi, rs) then Data(v) else Command(v)
  }

  /** Reads a stream of writes back as logical bytes, two writes per byte. */
  function Decode(rs: bv64, ws: seq<LCDCommand>): seq<Transfer>
    decreases |ws|
  {
    if |ws| < 2 then [] else [DecodePair(rs, ws[0].data, ws[1].data)] + Decode(rs, ws[2..])
  }

  /** A logical byte that fits the controller's eight data lines. */
  predicate IsByte(t: Transfer) {
    t.value < 256
  }

  /** Every logical byte of a sequence fits eight data lines. */
  predicate AllBytes(ts: seq<Transfer>) {
    forall t | t in ts :: IsByte(t)
  }

  lemma AllBytesAppend(a: seq<Transfer>, b: seq<Transfer>)
    requires AllBytes(a) && AllBytes(b)
    ensures AllBytes(a + b)
  {
  }

  /** `%-17s`: right-pad with spaces to 17 characters; longer text is kept whole. */
  function Padded(s: string): (r: string)
    ensures |r| == if |s| < RowWidth then RowWidth else |s|
    ensures r[..|s|] == s
    ensures forall k :: |s| <= k < |r| ==> r[k] == ' '
  {
    if |s| < RowWidth then s + seq(RowWidth - |s|, _ => ' ') else s
  }

  /** Go's `int(r)` for a rune (an `int32`, never negative for a character). */
  function CharCode(c: char): bv64 {
    (c as bv32) as bv64
  }

  /** The character codes of a string, as data bytes. */
  function Characters(s: string): seq<Transfer> {
    seq(|s|, k requires 0 <= k < |s| => Data(CharCode(s[k])))
  }

  /** What `PrintText(s)` sends: the padded text as data bytes. */
  function TextTransfers(s: string): seq<Transfer> {
    Characters(Padded(s))
  }

  /** What a row print sends: the row's address command, then its text. */
  function RowTransfers(address: bv64, s: string): seq<Transfer> {
    [Command(address)] + TextTransfers(s)
  }

  /** `funcSet`: the data line d5 and the backlight, the 4-bit mode-switch pattern. */
  function ModeSwitch(d5: bv64, bl: bv64): bv64 {
    SetBit(SetBit(0, d5), bl)
  }

  /** The logical bytes `Initialize` sends after the mode switch. */
  function InitTransfers(): seq<Transfer> {
    [Command(FunctionSet), Command(DisplayOn), Command(ClearDisplay), Command(ReturnHome)]
      + RowTransfers(Row1Address, "") + RowTransfers(Row2Address, "")
  }

  /** Every write `Initialize` queues: two mode-switch writes, then the commands and blank rows. */
  function InitWrites(rs: bv64, bl: bv64, d5: bv64): seq<LCDCommand> {
    var fs := ModeSwitch(d5, bl);
    [LCDCommand(fs, ModeSwitchHold), LCDCommand(fs, ModeSwitchHold)] + Encode(rs, bl, InitTransfers())
  }

  /**
   Bits 4..7 of the high write are bits 4..7 of `data`, and bits 4..7 of the
   low write are bits 0..3 of `data`, once `byte(...)` has truncated them.
   Holds for every `data`, not just bytes.
   */
  lemma NibblesCarryData(rs: bv64, bl: bv64, data: bv64, command: bool)
    requires rs < 4 && bl < 4
    ensures Byte(NibbleWrites(rs, bl, data, command)[0].data) & 0xF0 == Byte(data) & 0xF0
    ensures Byte(NibbleWrites(rs, bl, data, command)[1].data) & 0xF0 == Byte(data) << 4
  {
  }

  /** For a byte, the two nibbles put back together give the byte. */
  lemma NibbleRoundTrip(rs: bv64, bl: bv64, data: bv64, command: bool)
    requires rs < 4 && bl < 4 && data < 256
    ensures var ws := NibbleWrites(rs, bl, data, command);
      ((Byte(ws[0].data) & 0xF0) | (Byte(ws[1].data) >> 4)) as bv64 == data
  {
    NibblesCarryData(rs, bl, data, command);
  }

  /**
   Bits 0..3 of both writes are the same and hold only the flags:
   register-select exactly for data, backlight always.
   */
  lemma NibbleFlagBits(rs: bv64, bl: bv64, data: bv64, command: bool)
    requires FlagPins(rs, bl)
    ensures var ws := NibbleWrites(rs, bl, data, command);
      && ws[0].data & 0xF == ws[1].data & 0xF == Flags(rs, bl, command)
      && HasBit(ws[0].data, rs) == HasBit(ws[1].data, rs) == !command
      && HasBit(ws[0].data, bl) && HasBit(ws[1].data, bl)
  {
    var ws := NibbleWrites(rs, bl, data, command);
    FlagsSpec(rs, bl, command);
    assert ws[0].data & 0xF == Flags(rs, bl, command);
    assert ws[1].data & 0xF == Flags(rs, bl, command);
    LowNibbleDecides(ws[0].data, Flags(rs, bl, command), rs);
    LowNibbleDecides(ws[1].data, Flags(rs, bl, command), rs);
    LowNibbleDecides(ws[0].data, Flags(rs, bl, command), bl);
    LowNibbleDecides(ws[1].data, Flags(rs, bl, command), bl);
  }

  /** The flag word has register-select exactly for data, and backlight always, in bits 0..3 only. */
  lemma FlagsSpec(rs: bv64, bl: bv64, command: bool)
    requires FlagPins(rs, bl)
    ensures Flags(rs, bl, command) < 16
    ensures HasBit(Flags(rs, bl, command), rs) == !command
    ensures HasBit(Flags(rs, bl, command), bl)
  {
  }

  /** A test of a bit in 0..3 only looks at the low nibble. */
  lemma LowNibbleDecides(x: bv64, f: bv64, p: bv64)
    requires x & 0xF == f && p < 4
    ensures HasBit(x, p) == HasBit(f, p)
  {
  }

  /** The controller reads back the logical byte a frame was made from. */
  lemma FrameDecodes(rs: bv64, bl: bv64, t: Transfer)
    requires FlagPins(rs, bl) && IsByte(t)
    ensures DecodePair(rs, Frame(rs, bl, t)[0].data, Frame(rs, bl, t)[1].data) == t
  {
    NibbleRoundTrip(rs, bl, t.value, t.Command?);
    NibbleFlagBits(rs, bl, t.value, t.Command?);
  }

  /** Encoding distributes over concatenation. */
  lemma {:induction false} EncodeAppend(rs: bv64, bl: bv64, a: seq<Transfer>, b: seq<Transfer>)
    ensures Encode(rs, bl, a + b) == Encode(rs, bl, a) + Encode(rs, bl, b)
  {
    if a == [] {
      assert a + b == b;
    } else {
      assert (a + b)[0] == a[0];
      assert (a + b)[1..] == a[1..] + b;
      EncodeAppend(rs, bl, a[1..], b);
    }
  }

  /** The writes of a single logical byte are its frame. */
  lemma EncodeOne(rs: bv64, bl: bv64, t: Transfer)
    ensures Encode(rs, bl, [t]) == Frame(rs, bl, t)
  {
    assert [t][1..] == [];
  }

  /** Sending one more logical byte appends its frame. */
  lemma EncodeSnoc(rs: bv64, bl: bv64, ts: seq<Transfer>, t: Transfer)
    ensures Encode(rs, bl, ts + [t]) == Encode(rs, bl, ts) + Frame(rs, bl, t)
  {
    EncodeAppend(rs, bl, ts, [t]);
    EncodeOne(rs, bl, t);
  }

  /** Queues grow by concatenation; regrouping a concatenation changes nothing. */
  lemma AppendAssoc(a: seq<LCDCommand>, b: seq<LCDCommand>, c: seq<LCDCommand>)
    ensures (a + b) + c == a + (b + c)
  {
  }

  /** Appending to an empty queue gives the appended writes. */
  lemma AppendEmpty(q: seq<LCDCommand>)
    ensures [] + q == q
  {
  }

  /** Four logical bytes sent one at a time are the four in order. */
  lemma FourInOrder(a: Transfer, b: Transfer, c: Transfer, d: Transfer)
    ensures [] + [a] + [b] + [c] + [d] == [a, b, c, d]
  {
  }

  /** Sending the next character of a text appends that character's data frame. */
  lemma TextStep(rs: bv64, bl: bv64, p: string, i: nat)
    requires i < |p|
    ensures Encode(rs, bl, Characters(p[..i + 1]))
      == Encode(rs, bl, Characters(p[..i])) + NibbleWrites(rs, bl, CharCode(p[i]), false)
  {
    assert Characters(p[..i + 1]) == Characters(p[..i]) + [Data(CharCode(p[i]))];
    EncodeSnoc(rs, bl, Characters(p[..i]), Data(CharCode(p[i])));
  }

  /** A row print is the address command's frame followed by the text's frames. */
  lemma RowStep(rs: bv64, bl: bv64, address: bv64, s: string)
    ensures Encode(rs, bl, RowTransfers(address, s))
      == NibbleWrites(rs, bl, address, true) + Encode(rs, bl, TextTransfers(s))
  {
    EncodeAppend(rs, bl, [Command(address)], TextTransfers(s));
    EncodeOne(rs, bl, Command(address));
  }

  /** Queueing the writes of more logical bytes extends the encoded sequence. */
  lemma EncodeExtend(rs: bv64, bl: bv64, q: seq<LCDCommand>, sent: seq<Transfer>, more: seq<Transfer>)
    ensures (q + Encode(rs, bl, sent)) + Encode(rs, bl, more) == q + Encode(rs, bl, sent + more)
  {
    EncodeAppend(rs, bl, sent, more);
    AppendAssoc(q, Encode(rs, bl, sent), Encode(rs, bl, more));
  }

  /** Decoding the writes of any sequence of bytes gives that sequence back. */
  lemma {:induction false} DecodeEncode(rs: bv64, bl: bv64, ts: seq<Transfer>)
    requires FlagPins(rs, bl) && AllBytes(ts)
    ensures Decode(rs, Encode(rs, bl, ts)) == ts
  {
    if ts != [] {
      var ws := Encode(rs, bl, ts);
      assert ts[0] in ts;
      FrameDecodes(rs, bl, ts[0]);
      assert ws[2..] == Encode(rs, bl, ts[1..]);
      DecodeEncode(rs, bl, ts[1..]);
      assert ws[0] == Frame(rs, bl, ts[0])[0] && ws[1] == Frame(rs, bl, ts[0])[1];
    }
  }

  /** A slice inside the second part of a concatenation is a slice of that part. */
  lemma SliceOfSecond<T>(a: seq<T>, b: seq<T>, i: nat, j: nat)
    requires |a| <= i <= j <= |a| + |b|
    ensures (a + b)[i..j] == b[i - |a|..j - |a|]
  {
  }

  /** The leading slice of a concatenation is its first part. */
  lemma SliceOfFirst<T>(a: seq<T>, b: seq<T>)
    ensures (a + b)[0..|a|] == a
  {
  }

  /** Dropping the first part of a concatenation leaves the second. */
  lemma DropFirst<T>(a: seq<T>, b: seq<T>)
    ensures (a + b)[|a|..] == b
  {
  }

  /** The writes of the k-th logical byte sit at positions 2k and 2k + 1. */
  lemma {:induction false} EncodeAt(rs: bv64, bl: bv64, ts: seq<Transfer>, k: nat)
    requires k < |ts|
    ensures Encode(rs, bl, ts)[2 * k .. 2 * k + 2] == Frame(rs, bl, ts[k])
  {
    var first, rest := Frame(rs, bl, ts[0]), Encode(rs, bl, ts[1..]);
    assert Encode(rs, bl, ts) == first + rest;
    if k == 0 {
      SliceOfFirst(first, rest);
    } else {
      EncodeAt(rs, bl, ts[1..], k - 1);
      SliceOfSecond(first, rest, 2 * k, 2 * k + 2);
    }
  }

  /** The padding character's code. */
  lemma SpaceCode()
    ensures CharCode(' ') == Space
  {
  }

  /**
   `PrintText(s)` sends max(|s|, 17) characters: those of `s` in order, then
   spaces. Longer text is not truncated.
   */
  lemma TextTransfersSpec(s: string)
    ensures |TextTransfers(s)| == if |s| < RowWidth then RowWidth else |s|
    ensures forall k :: 0 <= k < |s| ==> TextTransfers(s)[k] == Data(CharCode(s[k]))
    ensures forall k :: |s| <= k < |TextTransfers(s)| ==> TextTransfers(s)[k] == Data(Space)
  {
    SpaceCode();
    var p := Padded(s);
    forall k | 0 <= k < |s|
      ensures TextTransfers(s)[k] == Data(CharCode(s[k]))
    {
      assert p[..|s|][k] == p[k];
    }
  }

  /** Seventeen spaces, as data bytes. */
  function BlankRow(): seq<Transfer> {
    seq(RowWidth, _ => Data(Space))
  }

  /**
   A blank row print sends the address command and seventeen spaces: 36
   writes, which the controller reads back as exactly that.
   */
  lemma BlankRowPrint(rs: bv64, bl: bv64, address: bv64)
    requires FlagPins(rs, bl) && address < 256
    ensures |Encode(rs, bl, RowTransfers(address, ""))| == 36
    ensures Decode(rs, Encode(rs, bl, RowTransfers(address, ""))) == [Command(address)] + BlankRow()
  {
    TextTransfersSpec("");
    assert RowTransfers(address, "") == [Command(address)] + BlankRow();
    DecodeEncode(rs, bl, RowTransfers(address, ""));
  }

  /**
   On the usual wiring (d5 at bit 5, backlight in bits 0..3) the mode-switch
   byte's data nibble is 0x2, the high nibble of "function set, 4-bit".
   */
  lemma ModeSwitchNibble(d5: bv64, bl: bv64)
    requires d5 == 5 && bl < 4
    ensures Byte(ModeSwitch(d5, bl)) & 0xF0 == 0x20
    ensures (FunctionSet & 0xF0) as bv8 == 0x20
    ensures HasBit(ModeSwitch(d5, bl), bl)
  {
  }

  /** The logical bytes after the mode switch, spelled out. */
  function InitSchedule(): seq<Transfer> {
    [Command(0x28), Command(0x0C), Command(0x01), Command(0x02), Command(0x80)] + BlankRow()
      + [Command(0xA8)] + BlankRow()
  }

  /** The bytes `Initialize` sends after the mode switch are the documented ones. */
  lemma InitTransfersSpelledOut()
    ensures InitTransfers() == InitSchedule()
  {
    TextTransfersSpec("");
    assert TextTransfers("") == BlankRow();
  }

  /**
   `Initialize` queues 82 writes: two mode-switch writes held 5 ms, then
   function set, display on, clear, home, blank row 1 and blank row 2, every
   one held 1 ms.
   */
  lemma InitSequence(rs: bv64, bl: bv64, d5: bv64)
    ensures |InitWrites(rs, bl, d5)| == 82
    ensures InitWrites(rs, bl, d5)[0] == InitWrites(rs, bl, d5)[1] == LCDCommand(ModeSwitch(d5, bl), ModeSwitchHold)
    ensures forall k :: 2 <= k < 82 ==> InitWrites(rs, bl, d5)[k].hold == DefaultHold
    ensures InitWrites(rs, bl, d5)[2..] == Encode(rs, bl, InitSchedule())
  {
    InitTransfersSpelledOut();
    var ws := InitWrites(rs, bl, d5);
    assert ws[2..] == Encode(rs, bl, InitTransfers());
  }

  /** Every byte of the initialization schedule fits eight data lines. */
  lemma InitScheduleBytes()
    ensures AllBytes(InitSchedule())
  {
    var head := [Command(0x28), Command(0x0C), Command(0x01), Command(0x02), Command(0x80)];
    var blank := BlankRow();
    assert forall t | t in head :: t.value <= 0x80;
    AllBytesAppend(head, blank);
    AllBytesAppend(head + blank, [Command(0xA8)]);
    AllBytesAppend(head + blank + [Command(0xA8)], blank);
  }

  /**
   The controller reads the initialization writes after the mode switch back as
   the documented commands and blank rows. Reading them in pairs from there on
   assumes the controller was in 4-bit mode and nibble-aligned before the mode
   switch, so that its two writes form one instruction.
   */
  lemma InitDecodes(rs: bv64, bl: bv64, d5: bv64)
    requires FlagPins(rs, bl)
    ensures Decode(rs, InitWrites(rs, bl, d5)[2..]) == InitSchedule()
  {
    InitSequence(rs, bl, d5);
    InitScheduleBytes();
    DecodeEncode(rs, bl, InitSchedule());
  }
}
