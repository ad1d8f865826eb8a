/**
  The byte transport of `gd_epaper.c`: `spi_write`, `write_command` and
  `write_data`. The driver touches hardware only through the device's
  function pointers, so a write is modelled as the trace of calls it makes.
  The panel's side of the wire is modelled by `Receive`, a shift register
  that samples MOSI on each rising clock edge while chip select is low; the
  round-trip lemmas show that it recovers every byte the driver sends.
 */
module Transport {
  import opened Defs

  /** The GPIOs of `gd_epaper_display_dev`. */
  datatype Pin = Busy | Reset | DataCommand | Mosi | Clock | ChipSelect

  /** One call through a function pointer of the device. */
  datatype Signal =
    | Write(pin: Pin, level: Level)        // gpio_write_fptr(pin, level)
    | Transmit(data: seq<Byte>, len: nat)  // spi_write_fptr(data, len)
    | Read(pin: Pin, level: Level)         // gpio_read_fptr(pin) returning level
    | Sleep(us: nat)                       // the delay function pointer

  /** What the controller latches: one byte, marked as command or data. */
  datatype Word = Word(isCommand: bool, value: Byte)

  // ---------------------------------------------------------------------
  // Bit order on the wire

  /** The eight levels of `v` on the wire, most significant bit first. */
  function BitLevels(v: Byte): (ls: seq<Level>)
    ensures |ls| == 8
  {
    [LevelOf(BitSet(v, 7)), LevelOf(BitSet(v, 6)), LevelOf(BitSet(v, 5)), LevelOf(BitSet(v, 4)),
     LevelOf(BitSet(v, 3)), LevelOf(BitSet(v, 2)), LevelOf(BitSet(v, 1)), LevelOf(BitSet(v, 0))]
  }

  lemma BitLevelsAt(v: Byte, i: nat)
    requires i < 8
    ensures BitLevels(v)[i] == LevelOf(BitSet(v, 7 - i))
  {
    if i < 4 {
      if i == 0 {} else if i == 1 {} else if i == 2 {} else {}
    } else {
      if i == 4 {} else if i == 5 {} else if i == 6 {} else {}
    }
  }

  /** The panel's shift register: each level sampled is shifted in at bit 0. */
  function FromLevels(ls: seq<Level>): Byte {
    if ls == [] then 0
    else (FromLevels(ls[..|ls| - 1]) << 1) | LevelValue(ls[|ls| - 1])
  }

  /** Shifting left by one and or-ing in a level: the level lands in bit 0, every other bit moves up one. */
  lemma ShiftInBit(w: Byte, l: Level, k: nat)
    requires k < 8
    ensures BitSet((w << 1) | LevelValue(l), k) == if k == 0 then l == High else BitSet(w, k - 1)
  {
  }

  /** Bit `k` of the shift register is the level sampled `k` samples before the last. */
  lemma {:induction false} FromLevelsBit(ls: seq<Level>, k: nat)
    requires |ls| <= 8 && k < |ls|
    ensures BitSet(FromLevels(ls), k) == (ls[|ls| - 1 - k] == High)
    decreases |ls|
  {
    var init := ls[..|ls| - 1];
    ShiftInBit(FromLevels(init), ls[|ls| - 1], k);
    if k > 0 {
      FromLevelsBit(init, k - 1);
    }
  }

  /** A byte is determined by its eight bits. */
  lemma BitsDetermineByte(a: Byte, b: Byte)
    requires forall k | 0 <= k < 8 :: BitSet(a, k) == BitSet(b, k)
    ensures a == b
  {
    assert BitSet(a, 0) == BitSet(b, 0) && BitSet(a, 1) == BitSet(b, 1);
    assert BitSet(a, 2) == BitSet(b, 2) && BitSet(a, 3) == BitSet(b, 3);
    assert BitSet(a, 4) == BitSet(b, 4) && BitSet(a, 5) == BitSet(b, 5);
    assert BitSet(a, 6) == BitSet(b, 6) && BitSet(a, 7) == BitSet(b, 7);
  }

  /** Shifting in the eight levels of `v`, most significant first, rebuilds `v`. */
  lemma FromBitLevels(v: Byte)
    ensures FromLevels(BitLevels(v)) == v
  {
    var ls := BitLevels(v);
    forall k | 0 <= k < 8
      ensures BitSet(FromLevels(ls), k) == BitSet(v, k)
    {
      FromLevelsBit(ls, k);
      BitLevelsAt(v, 7 - k);
    }
    BitsDetermineByte(FromLevels(ls), v);
  }

  /** `v << n`, one shift at a time as the send loop does it. */
  function ShiftLeft(v: Byte, n: nat): Byte {
    if n == 0 then v else ShiftLeft(v, n - 1) << 1
  }

  lemma ShiftBit(w: Byte, k: nat)
    requires 1 <= k < 8
    ensures BitSet(w << 1, k) == BitSet(w, k - 1)
  {
  }

  /** After `n` shifts, bit `k` holds what was bit `k - n`. */
  lemma {:induction false} ShiftLeftBit(v: Byte, n: nat, k: nat)
    requires n <= k < 8
    ensures BitSet(ShiftLeft(v, n), k) == BitSet(v, k - n)
  {
    if n > 0 {
      ShiftBit(ShiftLeft(v, n - 1), k);
      ShiftLeftBit(v, n - 1, k - 1);
    }
  }

  /** `value & 0x80` tests bit 7. */
  lemma TopBit(w: Byte)
    ensures (w & 0x80 != 0) == BitSet(w, 7)
  {
  }

  /** After `i` shifts, `value & 0x80` is the `i`-th level on the wire. */
  lemma TopLevel(value: Byte, i: nat)
    requires i < 8
    ensures (ShiftLeft(value, i) & 0x80 != 0) == (BitLevels(value)[i] == High)
  {
    TopBit(ShiftLeft(value, i));
    ShiftLeftBit(value, i, 7);
    BitLevelsAt(value, i);
  }

  // ---------------------------------------------------------------------
  // What spi_write puts on the bus

  /** One software clock cycle: CLK low, MOSI to the level, CLK high. */
  function Clocked(l: Level): seq<Signal> {
    [Write(Clock, Low), Write(Mosi, l), Write(Clock, High)]
  }

  /** One clock cycle per level, in order. */
  function ClockedAll(ls: seq<Level>): (r: seq<Signal>)
    ensures |r| == 3 * |ls|
  {
    if ls == [] then [] else Clocked(ls[0]) + ClockedAll(ls[1..])
  }

  lemma {:induction false} ClockedAllConcat(a: seq<Level>, b: seq<Level>)
    ensures ClockedAll(a + b) == ClockedAll(a) + ClockedAll(b)
    decreases |a|
  {
    if a == [] {
      assert a + b == b;
    } else {
      assert (a + b)[0] == a[0];
      assert (a + b)[1..] == a[1..] + b;
      ClockedAllConcat(a[1..], b);
    }
  }

  lemma {:induction false} ClockedAllAppend(ls: seq<Level>, l: Level)
    ensures ClockedAll(ls + [l]) == ClockedAll(ls) + Clocked(l)
  {
    if ls == [] {
      assert [] + [l] == [l];
      assert ClockedAll([l]) == Clocked(l) + ClockedAll([]);
    } else {
      assert (ls + [l])[0] == ls[0];
      assert (ls + [l])[1..] == ls[1..] + [l];
      ClockedAllAppend(ls[1..], l);
    }
  }

  /** Clocking one more level out extends the signals by one cycle. */
  lemma ClockedAllStep(ls: seq<Level>, i: nat)
    requires i < |ls|
    ensures ClockedAll(ls[..i + 1]) == ClockedAll(ls[..i]) + Clocked(ls[i])
  {
    assert ls[..i + 1] == ls[..i] + [ls[i]];
    ClockedAllAppend(ls[..i], ls[i]);
  }

  /** Chip select low, one clock cycle per level, chip select high. */
  function Selected(ls: seq<Level>): seq<Signal> {
    [Write(ChipSelect, Low)] + ClockedAll(ls) + [Write(ChipSelect, High)]
  }

  /** The levels clocked out for one byte: the discriminator first in 3-wire mode, then the byte. */
  function WireLevels(wiring: Wiring, value: Byte, isCommand: bool): (ls: seq<Level>)
    ensures |ls| == if wiring == ThreeWire then 9 else 8
  {
    (if wiring == ThreeWire then [Discriminator(isCommand)] else []) + BitLevels(value)
  }

  /** The 3-wire leading bit: low for a command, high for data. */
  function Discriminator(isCommand: bool): (l: Level)
    ensures l == Low <==> isCommand
  {
    if isCommand then Low else High
  }

  /** The first byte of a hardware 3-wire transfer, `(!is_command) & 0x01`. */
  function FlagByte(isCommand: bool): (b: Byte)
    ensures b == 0 <==> isCommand
    ensures b & 1 == b
  {
    if isCommand then 0 else 1
  }

  /**
    The signals one `spi_write(value, is_command)` should produce in each
    mode. Software: chip select low, in 3-wire the discriminator clocked
    out, the eight bits of `value` clocked out most significant first, chip
    select high. Hardware 4-wire: one 8-bit transfer of `value`. Hardware
    3-wire: one 9-bit transfer of the flag byte followed by `value`.
   */
  function SpiFrame(mode: Mode, value: Byte, isCommand: bool): seq<Signal> {
    match mode.bus
    case Software => Selected(WireLevels(mode.wiring, value, isCommand))
    case Hardware =>
      if mode.wiring == FourWire then [Transmit([value], 8)]
      else [Transmit([FlagByte(isCommand), value], 9)]
  }

  /** In 4-wire modes the byte is preceded by DC low (command) or high (data). */
  function DcFrame(mode: Mode, isCommand: bool): seq<Signal> {
    if mode.wiring == FourWire then [Write(DataCommand, if isCommand then Low else High)] else []
  }

  /** Everything `write_command` (isCommand) or `write_data` puts on the bus. */
  function ByteFrame(mode: Mode, value: Byte, isCommand: bool): seq<Signal> {
    DcFrame(mode, isCommand) + SpiFrame(mode, value, isCommand)
  }

  /**
    `spi_write`, following the C: the software path sets MOSI from
    `value & 0x80` and shifts `value` left once per bit; the hardware path
    hands a buffer and a bit count to the SPI driver.
   */
  method SpiWrite(mode: Mode, value: Byte, isCommand: bool) returns (trace: seq<Signal>)
    ensures trace == SpiFrame(mode, value, isCommand)
  {
    if mode.bus == Software {
      trace := [Write(ChipSelect, Low)];
      ghost var lead: seq<Level> := [];
      if mode.wiring == ThreeWire {
        trace := trace + [Write(Clock, Low)];
        if isCommand {
          trace := trace + [Write(Mosi, Low)];
        } else {
          trace := trace + [Write(Mosi, High)];
        }
        trace := trace + [Write(Clock, High)];
        lead := [Discriminator(isCommand)];
        ClockedAllAppend([], Discriminator(isCommand));
      }
      var bits := ClockOut(value);
      trace := trace + bits + [Write(ChipSelect, High)];
      ClockedAllConcat(lead, BitLevels(value));
    } else if mode.wiring == FourWire {
      trace := [Transmit([value], 8)];
    } else {
      var cmdData: Byte := if isCommand then 0 else 1;
      trace := [Transmit([cmdData, value], 9)];
    }
  }

  /**
    The bit loop of the software path: for each of the eight bits, CLK low,
    MOSI from `value & 0x80`, `value <<= 1`, CLK high.
   */
  method ClockOut(value: Byte) returns (trace: seq<Signal>)
    ensures trace == ClockedAll(BitLevels(value))
  {
    ghost var bits := BitLevels(value);
    trace := [];
    var v := value;
    for i := 0 to 8
      invariant v == ShiftLeft(value, i)
      invariant trace == ClockedAll(bits[..i])
    {
      TopLevel(value, i);
      ClockedAllStep(bits, i);
      var cycle;
      cycle, v := ClockBit(v);
      trace := trace + cycle;
    }
    assert bits[..8] == bits;
  }

  /** One pass of the bit loop: the cycle for the top bit of `v`, and `v` shifted left. */
  method ClockBit(v: Byte) returns (cycle: seq<Signal>, next: Byte)
    ensures cycle == Clocked(if v & 0x80 != 0 then High else Low)
    ensures next == v << 1
  {
    cycle := [Write(Clock, Low)];
    if v & 0x80 != 0 {
      cycle := cycle + [Write(Mosi, High)];
    } else {
      cycle := cycle + [Write(Mosi, Low)];
    }
    next := v << 1;
    cycle := cycle + [Write(Clock, High)];
  }

  /** `write_command`: in 4-wire modes DC low first, then `spi_write(value, true)`. */
  method WriteCommand(mode: Mode, value: Byte) returns (trace: seq<Signal>)
    ensures trace == ByteFrame(mode, value, true)
  {
    trace := [];
    if mode.wiring == FourWire {
      trace := [Write(DataCommand, Low)];
    }
    var spi := SpiWrite(mode, value, true);
    trace := trace + spi;
  }

  /** `write_data`: in 4-wire modes DC high first, then `spi_write(value, false)`. */
  method WriteData(mode: Mode, value: Byte) returns (trace: seq<Signal>)
    ensures trace == ByteFrame(mode, value, false)
  {
    trace := [];
    if mode.wiring == FourWire {
      trace := [Write(DataCommand, High)];
    }
    var spi := SpiWrite(mode, value, false);
    trace := trace + spi;
  }

  // ---------------------------------------------------------------------
  // Shape of a byte write

  /** Pulling CLK high: the edge on which the panel samples MOSI. */
  predicate RisingClock(s: Signal) {
    s == Write(Clock, High)
  }

  /** The number of CLK-high writes in a trace. */
  function ClockEdges(t: seq<Signal>): nat {
    if t == [] then 0 else (if RisingClock(t[0]) then 1 else 0) + ClockEdges(t[1..])
  }

  lemma {:induction false} ClockEdgesAppend(a: seq<Signal>, b: seq<Signal>)
    ensures ClockEdges(a + b) == ClockEdges(a) + ClockEdges(b)
    decreases |a|
  {
    if a == [] {
      assert a + b == b;
    } else {
      assert (a + b)[0] == a[0];
      assert (a + b)[1..] == a[1..] + b;
      ClockEdgesAppend(a[1..], b);
    }
  }

  lemma ClockedEdges(l: Level)
    ensures ClockEdges(Clocked(l)) == 1
  {
    var c := Clocked(l);
    assert c[1..][1..][1..] == [];
  }

  lemma {:induction false} ClockedAllEdges(ls: seq<Level>)
    ensures ClockEdges(ClockedAll(ls)) == |ls|
    decreases |ls|
  {
    if ls != [] {
      ClockEdgesAppend(Clocked(ls[0]), ClockedAll(ls[1..]));
      ClockedEdges(ls[0]);
      ClockedAllEdges(ls[1..]);
    }
  }

  /** Cycle `i` of `ClockedAll(ls)`: CLK low, MOSI to `ls[i]`, CLK high. */
  lemma {:induction false} ClockedAllLayout(ls: seq<Level>, i: nat)
    requires i < |ls|
    ensures ClockedAll(ls)[3 * i] == Write(Clock, Low)
    ensures ClockedAll(ls)[3 * i + 1] == Write(Mosi, ls[i])
    ensures ClockedAll(ls)[3 * i + 2] == Write(Clock, High)
    decreases i
  {
    if i > 0 {
      ClockedAllLayout(ls[1..], i - 1);
    }
  }

  /** Cycle `n` of a chip-select frame puts `l` on MOSI and then raises CLK. */
  predicate CarriesAt(t: seq<Signal>, n: nat, l: Level) {
    3 * n + 3 < |t| && t[3 * n + 2] == Write(Mosi, l) && t[3 * n + 3] == Write(Clock, High)
  }

  /**
    A chip-select frame: CS low first and high last, CS touched nowhere
    else, one rising clock edge per level, and the level written to MOSI
    just before the `i`-th rising edge is `ls[i]`.
   */
  lemma SelectedShape(ls: seq<Level>)
    ensures var t := Selected(ls);
      && |t| == 3 * |ls| + 2
      && t[0] == Write(ChipSelect, Low) && t[|t| - 1] == Write(ChipSelect, High)
      && (forall j | 0 < j < |t| - 1 :: t[j].Write? ==> t[j].pin in {Clock, Mosi})
      && ClockEdges(t) == |ls|
      && (forall i | 0 <= i < |ls| :: CarriesAt(t, i, ls[i]))
  {
    var t := Selected(ls);
    var body := ClockedAll(ls);
    ClockEdgesAppend([Write(ChipSelect, Low)] + body, [Write(ChipSelect, High)]);
    ClockEdgesAppend([Write(ChipSelect, Low)], body);
    ClockedAllEdges(ls);
    assert ClockEdges([Write(ChipSelect, High)]) == 0;
    forall i | 0 <= i < |ls|
      ensures CarriesAt(t, i, ls[i])
    {
      ClockedAllLayout(ls, i);
    }
    forall j | 0 < j < |t| - 1 && t[j].Write?
      ensures t[j].pin in {Clock, Mosi}
    {
      ClockedAllLayout(ls, (j - 1) / 3);
    }
  }

  /**
    A software byte write: 8 rising clock edges (9 in 3-wire mode, the
    first carrying the discriminator, low for a command), and the level on
    MOSI before the `i`-th data edge is bit `7 - i` of the value.
   */
  lemma SoftwareFrameShape(wiring: Wiring, value: Byte, isCommand: bool)
    ensures var t := SpiFrame(Mode(Software, wiring), value, isCommand);
      var lead := if wiring == ThreeWire then 1 else 0;
      && t == Selected(WireLevels(wiring, value, isCommand))
      && ClockEdges(t) == 8 + lead
      && (wiring == ThreeWire ==> CarriesAt(t, 0, Discriminator(isCommand)))
      && (forall i | 0 <= i < 8 :: CarriesAt(t, lead + i, BitLevels(value)[i]))
  {
    var ls := WireLevels(wiring, value, isCommand);
    var lead := if wiring == ThreeWire then 1 else 0;
    SelectedShape(ls);
    forall i | 0 <= i < 8
      ensures ls[lead + i] == BitLevels(value)[i]
    {
    }
  }

  /**
    A hardware byte write is a single transfer and drives no GPIO of its
    own: `[value]` with 8 bits in 4-wire mode, `[flag, value]` with 9 bits in
    3-wire mode, the flag 0 for a command and 1 for data.
   */
  lemma HardwareFrameShape(wiring: Wiring, value: Byte, isCommand: bool)
    ensures var t := SpiFrame(Mode(Hardware, wiring), value, isCommand);
      && |t| == 1 && t[0].Transmit?
      && (wiring == FourWire ==> t[0] == Transmit([value], 8))
      && (wiring == ThreeWire ==> t[0].len == 9 && t[0].data[1] == value && (t[0].data[0] == 0 <==> isCommand))
  {
  }

  /**
    DC is written exactly in 4-wire modes, once and first: low before a
    command, high before data. In 3-wire modes no write touches DC.
   */
  lemma DcDiscipline(mode: Mode, value: Byte, isCommand: bool)
    ensures var t := ByteFrame(mode, value, isCommand);
      && (mode.wiring == FourWire ==> t[0] == Write(DataCommand, if isCommand then Low else High))
      && (forall j | |DcFrame(mode, isCommand)| <= j < |t| :: t[j].Write? ==> t[j].pin != DataCommand)
      && |DcFrame(mode, isCommand)| == (if mode.wiring == FourWire then 1 else 0)
  {
    var t := ByteFrame(mode, value, isCommand);
    var dc := DcFrame(mode, isCommand);
    var spi := SpiFrame(mode, value, isCommand);
    if mode.bus == Software {
      SelectedShape(WireLevels(mode.wiring, value, isCommand));
    }
    forall j | |dc| <= j < |t| && t[j].Write?
      ensures t[j].pin != DataCommand
    {
      assert t[j] == spi[j - |dc|];
    }
  }

  // ---------------------------------------------------------------------
  // The panel's side of the wire

  /**
    What the controller's serial interface remembers between signals: chip
    select asserted, the last CLK, MOSI and DC levels, and the levels
    sampled since chip select went low.
   */
  datatype Receiver = Receiver(selected: bool, clock: Level, mosi: Level, dc: Level, sampled: seq<Level>)

  /** Between byte writes chip select is released. */
  predicate Idle(rx: Receiver) {
    !rx.selected
  }

  /**
    The word a finished chip-select frame holds, if the frame is complete:
    in 3-wire mode nine samples, the first of which is the discriminator;
    in 4-wire mode eight samples, marked by the DC level.
   */
  function Latch(wiring: Wiring, rx: Receiver): seq<Word> {
    if wiring == ThreeWire then
      if |rx.sampled| == 9 then [Word(rx.sampled[0] == Low, FromLevels(rx.sampled[1..]))] else []
    else
      if |rx.sampled| == 8 then [Word(rx.dc == Low, FromLevels(rx.sampled))] else []
  }

  /** A hardware transfer as the controller reads it. */
  function Transfer(wiring: Wiring, rx: Receiver, data: seq<Byte>, len: nat): seq<Word> {
    if wiring == FourWire then
      if |data| == 1 && len == 8 then [Word(rx.dc == Low, data[0])] else []
    else
      if |data| == 2 && len == 9 then [Word(data[0] & 1 == 0, data[1])] else []
  }

  /** The receiver's response to one signal: its next state and the words it latches. */
  function Feed(mode: Mode, rx: Receiver, s: Signal): (Receiver, seq<Word>) {
    match s
    case Write(ChipSelect, Low) => (rx.(selected := true, sampled := []), [])
    case Write(ChipSelect, High) =>
      (rx.(selected := false, sampled := []), if rx.selected then Latch(mode.wiring, rx) else [])
    case Write(Clock, l) =>
      var edge := rx.selected && rx.clock == Low && l == High;
      (rx.(clock := l, sampled := if edge then rx.sampled + [rx.mosi] else rx.sampled), [])
    case Write(Mosi, l) => (rx.(mosi := l), [])
    case Write(DataCommand, l) => (rx.(dc := l), [])
    case Write(_, _) => (rx, [])
    case Transmit(data, len) =>
      (rx, if mode.bus == Hardware then Transfer(mode.wiring, rx, data, len) else [])
    case Read(_, _) => (rx, [])
    case Sleep(_) => (rx, [])
  }

  /** The receiver run over a trace: its final state and every word latched, in order. */
  function Receive(mode: Mode, rx: Receiver, t: seq<Signal>): (Receiver, seq<Word>)
    decreases |t|
  {
    if t == [] then (rx, [])
    else
      var (rx1, w1) := Feed(mode, rx, t[0]);
      var (rx2, w2) := Receive(mode, rx1, t[1..]);
      (rx2, w1 + w2)
  }

  /** Receiving `a + b` is receiving `a`, then `b` from where `a` left off. */
  lemma {:induction false} ReceiveAppend(mode: Mode, rx: Receiver, a: seq<Signal>, b: seq<Signal>)
    ensures Receive(mode, rx, a + b).0 == Receive(mode, Receive(mode, rx, a).0, b).0
    ensures Receive(mode, rx, a + b).1 == Receive(mode, rx, a).1 + Receive(mode, Receive(mode, rx, a).0, b).1
    decreases |a|
  {
    if a == [] {
      assert a + b == b;
    } else {
      assert (a + b)[0] == a[0];
      assert (a + b)[1..] == a[1..] + b;
      var (rx1, w1) := Feed(mode, rx, a[0]);
      ReceiveAppend(mode, rx1, a[1..], b);
    }
  }

  lemma ReceiveOne(mode: Mode, rx: Receiver, s: Signal)
    ensures Receive(mode, rx, [s]) == Feed(mode, rx, s)
  {
    assert [s][1..] == [];
    var (r, w) := Feed(mode, rx, s);
    assert w + [] == w;
  }

  /** One clock cycle with chip select asserted shifts exactly its level in. */
  lemma ReceiveClocked(mode: Mode, rx: Receiver, l: Level)
    requires rx.selected
    ensures Receive(mode, rx, Clocked(l)).1 == []
    ensures Receive(mode, rx, Clocked(l)).0 == rx.(clock := High, mosi := l, sampled := rx.sampled + [l])
  {
    var a, b, c := Write(Clock, Low), Write(Mosi, l), Write(Clock, High);
    var r1 := rx.(clock := Low);
    var r2 := r1.(mosi := l);
    assert Clocked(l) == [a] + [b] + [c];
    ReceiveAppend(mode, rx, [a] + [b], [c]);
    ReceiveAppend(mode, rx, [a], [b]);
    ReceiveOne(mode, rx, a);
    ReceiveOne(mode, r1, b);
    ReceiveOne(mode, r2, c);
  }

  /** Clocking out a sequence of levels appends them to the samples, in order. */
  lemma {:induction false} ReceiveClockedAll(mode: Mode, rx: Receiver, ls: seq<Level>)
    requires rx.selected
    ensures Receive(mode, rx, ClockedAll(ls)).1 == []
    ensures Receive(mode, rx, ClockedAll(ls)).0.selected
    ensures Receive(mode, rx, ClockedAll(ls)).0.dc == rx.dc
    ensures Receive(mode, rx, ClockedAll(ls)).0.sampled == rx.sampled + ls
    decreases |ls|
  {
    if ls == [] {
      assert rx.sampled + ls == rx.sampled;
    } else {
      ReceiveAppend(mode, rx, Clocked(ls[0]), ClockedAll(ls[1..]));
      ReceiveClocked(mode, rx, ls[0]);
      var rx1 := Receive(mode, rx, Clocked(ls[0])).0;
      ReceiveClockedAll(mode, rx1, ls[1..]);
      assert rx.sampled + [ls[0]] + ls[1..] == rx.sampled + ls;
    }
  }

  /**
    A chip-select frame seen from between frames: the receiver ends between
    frames again, having latched whatever the levels of the frame spell.
   */
  lemma ReceiveSelected(mode: Mode, rx: Receiver, ls: seq<Level>)
    requires Idle(rx)
    ensures Idle(Receive(mode, rx, Selected(ls)).0)
    ensures Receive(mode, rx, Selected(ls)).1 == Latch(mode.wiring, rx.(sampled := ls))
  {
    var open, close := [Write(ChipSelect, Low)], [Write(ChipSelect, High)];
    ReceiveAppend(mode, rx, open + ClockedAll(ls), close);
    ReceiveAppend(mode, rx, open, ClockedAll(ls));
    ReceiveOne(mode, rx, open[0]);
    var rx1 := Receive(mode, rx, open).0;
    assert rx1 == rx.(selected := true, sampled := []);
    ReceiveClockedAll(mode, rx1, ls);
    var rx2 := Receive(mode, rx1, ClockedAll(ls)).0;
    assert rx2.sampled == ls;
    ReceiveOne(mode, rx2, close[0]);
    assert Latch(mode.wiring, rx2) == Latch(mode.wiring, rx.(sampled := ls));
  }

  /** A complete frame of the levels for `value` latches `value`, marked by the discriminator or by DC. */
  lemma LatchBitLevels(wiring: Wiring, rx: Receiver, value: Byte, isCommand: bool)
    requires wiring == FourWire ==> rx.dc == (if isCommand then Low else High)
    ensures Latch(wiring, rx.(sampled := WireLevels(wiring, value, isCommand))) == [Word(isCommand, value)]
  {
    var ls := WireLevels(wiring, value, isCommand);
    FromBitLevels(value);
    if wiring == ThreeWire {
      assert ls[0] == Discriminator(isCommand);
      assert ls[1..] == BitLevels(value);
    } else {
      assert ls == BitLevels(value);
    }
  }

  /**
    Round trip of one byte write: a receiver between frames, fed everything
    `write_command` or `write_data` emits, latches exactly that byte with
    the right command/data marking, and is between frames again. This holds
    in all four modes.
   */
  lemma ByteRoundTrip(mode: Mode, rx: Receiver, value: Byte, isCommand: bool)
    requires Idle(rx)
    ensures Receive(mode, rx, ByteFrame(mode, value, isCommand)).1 == [Word(isCommand, value)]
    ensures Idle(Receive(mode, rx, ByteFrame(mode, value, isCommand)).0)
  {
    var dc := DcFrame(mode, isCommand);
    var spi := SpiFrame(mode, value, isCommand);
    ReceiveAppend(mode, rx, dc, spi);
    var rx1 := Receive(mode, rx, dc).0;
    assert Receive(mode, rx, dc).1 == [] && Idle(rx1);
    assert mode.wiring == FourWire ==> rx1.dc == (if isCommand then Low else High);
    if mode.bus == Software {
      var ls := WireLevels(mode.wiring, value, isCommand);
      ReceiveSelected(mode, rx1, ls);
      FromBitLevels(value);
      LatchBitLevels(mode.wiring, rx1, value, isCommand);
    } else {
      assert Receive(mode, rx1, spi).1 == [Word(isCommand, value)] by {
        ReceiveOne(mode, rx1, spi[0]);
      }
    }
  }
}
