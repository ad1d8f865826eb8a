/**
  The driver's protocol functions in `gd_epaper.c`: `wait_display`,
  `send_init`, `send_refresh`, `send_sleep` and `gd_epaper_update_screen`,
  as producers of command-level op sequences. The busy pin is an input: the
  sequence of levels successive reads will return. `Decode` is the
  controller's view of the byte stream, split into commands with their
  parameter bytes; the lemmas at the end state what a screen update looks
  like to the panel, through the transport, in every mode.
 */
module Protocol {
  import opened Defs
  import opened Transport
  import opened CommandChannel

  // Bytes the driver writes as literals rather than through the header.
  const OldData: Byte := 0x10
  const NewData: Byte := 0x13
  const PowerOff: Byte := 0x02
  const DeepSleep: Byte := 0x07
  const DeepSleepCheck: Byte := 0xA5
  const SleepInterval: Byte := 0xF7

  // Delay arguments, in the units of the device's delay function pointer.
  const ResetHold: nat := 15
  const PollPause: nat := 100
  const WaitSettle: nat := 200
  const RefreshPause: nat := 20

  // ---------------------------------------------------------------------
  // Commands and their parameters

  /** A command byte and the data bytes written after it. */
  datatype Frame = Frame(command: Byte, params: seq<Byte>)

  /** `write_data` once per byte, in order. */
  function DataOps(bs: seq<Byte>): (ops: seq<Op>)
    ensures |ops| == |bs|
    ensures forall i | 0 <= i < |bs| :: ops[i] == Data(bs[i])
  {
    seq(|bs|, i requires 0 <= i < |bs| => Data(bs[i]))
  }

  lemma DataOpsSnoc(bs: seq<Byte>, b: Byte)
    ensures DataOps(bs + [b]) == DataOps(bs) + [Data(b)]
  {
  }

  /** `write_command` of the frame's command, then `write_data` of each parameter. */
  function Send(f: Frame): seq<Op> {
    [Command(f.command)] + DataOps(f.params)
  }

  /** The frames sent one after another. */
  function Sends(fs: seq<Frame>): seq<Op>
    decreases |fs|
  {
    if fs == [] then [] else Send(fs[0]) + Sends(fs[1..])
  }

  /** `n` zero bytes. */
  function Zeros(n: nat): (z: seq<Byte>)
    ensures |z| == n
    ensures forall i | 0 <= i < n :: z[i] == 0
  {
    seq(n, _ => 0)
  }

  // ---------------------------------------------------------------------
  // The controller's view: words grouped into frames

  /** The words of data bytes. */
  function DataWords(bs: seq<Byte>): (ws: seq<Word>)
    ensures |ws| == |bs|
    ensures forall i | 0 <= i < |bs| :: ws[i] == Word(false, bs[i])
  {
    seq(|bs|, i requires 0 <= i < |bs| => Word(false, bs[i]))
  }

  /** The words the controller latches for a sequence of frames. */
  function Encode(fs: seq<Frame>): seq<Word>
    decreases |fs|
  {
    if fs == [] then [] else [Word(true, fs[0].command)] + DataWords(fs[0].params) + Encode(fs[1..])
  }

  /** The number of data words before the next command word. */
  function DataRun(ws: seq<Word>): (n: nat)
    ensures n <= |ws|
    ensures forall i | 0 <= i < n :: !ws[i].isCommand
    ensures n < |ws| ==> ws[n].isCommand
    decreases |ws|
  {
    if ws == [] || ws[0].isCommand then 0 else 1 + DataRun(ws[1..])
  }

  /** A stream of latched words is well formed when it starts with a command (or is empty). */
  predicate StartsWithCommand(ws: seq<Word>) {
    ws == [] || ws[0].isCommand
  }

  /**
    How the controller groups what it latches: every command word opens a
    frame and the data words after it, up to the next command, are that
    frame's parameters.
   */
  function Decode(ws: seq<Word>): seq<Frame>
    requires StartsWithCommand(ws)
    decreases |ws|
  {
    if ws == [] then []
    else
      var n := DataRun(ws[1..]);
      [Frame(ws[0].value, seq(n, i requires 0 <= i < n => ws[1 + i].value))] + Decode(ws[1 + n..])
  }

  lemma {:induction false} EncodeStartsWithCommand(fs: seq<Frame>)
    ensures StartsWithCommand(Encode(fs))
  {
  }

  /** Data words followed by a stream that starts with a command: the run is exactly the data. */
  lemma DataRunOfDataWords(bs: seq<Byte>, rest: seq<Word>)
    requires StartsWithCommand(rest)
    ensures DataRun(DataWords(bs) + rest) == |bs|
    decreases |bs|
  {
    var ws := DataWords(bs) + rest;
    if bs == [] {
      assert ws == rest;
    } else {
      assert ws[1..] == DataWords(bs[1..]) + rest;
      DataRunOfDataWords(bs[1..], rest);
    }
  }

  /** A command word, its data words and a stream that starts with a command: one frame, then the rest. */
  lemma DecodeStep(f: Frame, rest: seq<Word>)
    requires StartsWithCommand(rest)
    ensures var ws := [Word(true, f.command)] + DataWords(f.params) + rest;
      StartsWithCommand(ws) && Decode(ws) == [f] + Decode(rest)
  {
    var ws := [Word(true, f.command)] + DataWords(f.params) + rest;
    var n := |f.params|;
    assert ws[1..] == DataWords(f.params) + rest;
    DataRunOfDataWords(f.params, rest);
    assert ws[1 + n..] == rest;
    assert seq(n, i requires 0 <= i < n => ws[1 + i].value) == f.params;
  }

  /** The controller recovers every frame from the words it latches. */
  lemma {:induction false} DecodeEncode(fs: seq<Frame>)
    ensures Decode(Encode(fs)) == fs
    decreases |fs|
  {
    if fs != [] {
      EncodeStartsWithCommand(fs[1..]);
      DecodeStep(fs[0], Encode(fs[1..]));
      DecodeEncode(fs[1..]);
    }
  }

  lemma {:induction false} EncodeAppend(a: seq<Frame>, b: seq<Frame>)
    ensures Encode(a + b) == Encode(a) + Encode(b)
    decreases |a|
  {
    if a == [] {
      assert a + b == b;
    } else {
      assert (a + b)[0] == a[0];
      assert (a + b)[1..] == a[1..] + b;
      EncodeAppend(a[1..], b);
    }
  }

  lemma {:induction false} SendsAppend(a: seq<Frame>, b: seq<Frame>)
    ensures Sends(a + b) == Sends(a) + Sends(b)
    decreases |a|
  {
    if a == [] {
      assert a + b == b;
    } else {
      assert (a + b)[0] == a[0];
      assert (a + b)[1..] == a[1..] + b;
      SendsAppend(a[1..], b);
    }
  }

  lemma {:induction false} DataOpsWords(bs: seq<Byte>)
    ensures Words(DataOps(bs)) == DataWords(bs)
    decreases |bs|
  {
    if bs != [] {
      assert DataOps(bs)[1..] == DataOps(bs[1..]);
      DataOpsWords(bs[1..]);
      assert DataWords(bs) == [Word(false, bs[0])] + DataWords(bs[1..]);
    }
  }

  /** Sending frames makes the controller latch their encoding. */
  lemma {:induction false} SendsWords(fs: seq<Frame>)
    ensures Words(Sends(fs)) == Encode(fs)
    decreases |fs|
  {
    if fs != [] {
      var f := fs[0];
      WordsAppend(Send(f), Sends(fs[1..]));
      WordsAppend([Command(f.command)], DataOps(f.params));
      assert [Command(f.command)][1..] == [];
      DataOpsWords(f.params);
      SendsWords(fs[1..]);
    }
  }

  // ---------------------------------------------------------------------
  // wait_display

  /** The number of HIGH readings. */
  function HighCount(readings: seq<Level>): (n: nat)
    ensures n <= |readings|
    ensures n > 0 <==> High in readings
    decreases |readings|
  {
    if readings == [] then 0
    else (if readings[0] == High then 1 else 0) + HighCount(readings[1..])
  }

  /** The position of the first HIGH reading. */
  function FirstHigh(readings: seq<Level>): (k: nat)
    requires High in readings
    ensures k < |readings| && readings[k] == High
    ensures forall j | 0 <= j < k :: readings[j] == Low
    decreases |readings|
  {
    if readings[0] == High then 0
    else
      assert High in readings[1..];
      1 + FirstHigh(readings[1..])
  }

  /** The readings left after a wait has consumed the first HIGH. */
  function Waited(readings: seq<Level>): seq<Level>
    requires High in readings
  {
    readings[FirstHigh(readings) + 1..]
  }

  /** A wait consumes exactly one HIGH reading. */
  lemma {:induction false} WaitedHighCount(readings: seq<Level>)
    requires High in readings
    ensures HighCount(Waited(readings)) == HighCount(readings) - 1
    decreases |readings|
  {
    if readings[0] == Low {
      assert High in readings[1..];
      assert Waited(readings) == Waited(readings[1..]);
      WaitedHighCount(readings[1..]);
    }
  }

  /** One busy poll: the status command, one read of the busy pin, a 100 us pause. */
  function Poll(l: Level): seq<Op> {
    [Command(GetStatus), BusyRead(l), Delay(PollPause)]
  }

  /** One poll per reading, in order. */
  function Polls(ls: seq<Level>): (ops: seq<Op>)
    ensures |ops| == 3 * |ls|
    decreases |ls|
  {
    if ls == [] then [] else Poll(ls[0]) + Polls(ls[1..])
  }

  lemma {:induction false} PollsAppend(a: seq<Level>, b: seq<Level>)
    ensures Polls(a + b) == Polls(a) + Polls(b)
    decreases |a|
  {
    if a == [] {
      assert a + b == b;
    } else {
      assert (a + b)[0] == a[0];
      assert (a + b)[1..] == a[1..] + b;
      PollsAppend(a[1..], b);
    }
  }

  /** What `wait_display` does: poll up to and including the first HIGH reading, then pause 200 us. */
  function WaitOps(readings: seq<Level>): seq<Op>
    requires High in readings
  {
    Polls(readings[..FirstHigh(readings) + 1]) + [Delay(WaitSettle)]
  }

  /**
    `wait_display`, following the C do-while: issue the status command,
    read the busy pin, `busy = !(value & 0x01)`, pause; repeat while busy;
    then pause once more.
   */
  method WaitDisplay(readings: seq<Level>) returns (ops: seq<Op>, rest: seq<Level>)
    requires High in readings
    ensures ops == WaitOps(readings)
    ensures rest == Waited(readings)
  {
    ghost var k := FirstHigh(readings);
    ops := [];
    var i := 0;
    var busy := true;
    while busy
      invariant i <= k + 1
      invariant busy <==> i <= k
      invariant ops == Polls(readings[..i])
      decreases k + 1 - i
    {
      ops := ops + [Command(GetStatus)];
      var level := readings[i];
      ops := ops + [BusyRead(level)];
      var value := LevelValue(level);
      busy := value & 1 == 0;
      ops := ops + [Delay(PollPause)];
      assert readings[..i + 1] == readings[..i] + [level];
      PollsAppend(readings[..i], [level]);
      assert Polls([level]) == Poll(level) + Polls([]);
      i := i + 1;
    }
    ops := ops + [Delay(WaitSettle)];
    rest := readings[i..];
  }

  /** Cycle `j` of a run of polls: status command, read of `ls[j]`, pause. */
  lemma {:induction false} PollsLayout(ls: seq<Level>, j: nat)
    requires j < |ls|
    ensures Polls(ls)[3 * j] == Command(GetStatus)
    ensures Polls(ls)[3 * j + 1] == BusyRead(ls[j])
    ensures Polls(ls)[3 * j + 2] == Delay(PollPause)
    decreases j
  {
    if j > 0 {
      PollsLayout(ls[1..], j - 1);
    }
  }

  /** The number of busy-pin reads among some ops. */
  function BusyReads(ops: seq<Op>): nat
    decreases |ops|
  {
    if ops == [] then 0 else (if ops[0].BusyRead? then 1 else 0) + BusyReads(ops[1..])
  }

  lemma {:induction false} BusyReadsAppend(a: seq<Op>, b: seq<Op>)
    ensures BusyReads(a + b) == BusyReads(a) + BusyReads(b)
    decreases |a|
  {
    if a == [] {
      assert a + b == b;
    } else {
      assert (a + b)[0] == a[0];
      assert (a + b)[1..] == a[1..] + b;
      BusyReadsAppend(a[1..], b);
    }
  }

  /** A poll reads the busy pin once and sends the status command alone. */
  lemma PollFacts(l: Level)
    ensures BusyReads(Poll(l)) == 1
    ensures Words(Poll(l)) == [Word(true, GetStatus)]
  {
    var p := Poll(l);
    var tail := [BusyRead(l), Delay(PollPause)];
    assert p[1..] == tail;
    assert tail[1..] == [Delay(PollPause)];
    assert tail[1..][1..] == [];
    assert BusyReads(tail[1..]) == 0;
    assert BusyReads(tail) == 1;
    assert Words(tail[1..]) == [];
    assert Words(tail) == [];
  }

  lemma {:induction false} PollsBusyReads(ls: seq<Level>)
    ensures BusyReads(Polls(ls)) == |ls|
    decreases |ls|
  {
    if ls != [] {
      BusyReadsAppend(Poll(ls[0]), Polls(ls[1..]));
      PollFacts(ls[0]);
      PollsBusyReads(ls[1..]);
    }
  }

  /**
    With the first HIGH at position `k`, a wait polls exactly `k + 1`
    times, each poll the status command, a read and the 100 us pause: the
    first `k` reads return LOW, the last returns HIGH, and the
    wait ends with the 200 us pause.
   */
  lemma WaitPolls(readings: seq<Level>)
    requires High in readings
    ensures BusyReads(WaitOps(readings)) == FirstHigh(readings) + 1
    ensures |WaitOps(readings)| == 3 * (FirstHigh(readings) + 1) + 1
    ensures forall j | 0 <= j <= FirstHigh(readings) ::
      WaitOps(readings)[3 * j] == Command(GetStatus) && WaitOps(readings)[3 * j + 2] == Delay(PollPause)
    ensures forall j | 0 <= j < FirstHigh(readings) :: WaitOps(readings)[3 * j + 1] == BusyRead(Low)
    ensures WaitOps(readings)[3 * FirstHigh(readings) + 1] == BusyRead(High)
    ensures WaitOps(readings)[|WaitOps(readings)| - 1] == Delay(WaitSettle)
  {
    var k := FirstHigh(readings);
    var ls := readings[..k + 1];
    var ops := WaitOps(readings);
    PollsBusyReads(ls);
    BusyReadsAppend(Polls(ls), [Delay(WaitSettle)]);
    assert BusyReads([Delay(WaitSettle)]) == 0 by {
      assert [Delay(WaitSettle)][1..] == [];
    }
    forall j | 0 <= j < k
      ensures ops[3 * j + 1] == BusyRead(Low)
    {
      PollsLayout(ls, j);
      assert ls[j] == readings[j] == Low;
    }
    forall j | 0 <= j <= k
      ensures ops[3 * j] == Command(GetStatus) && ops[3 * j + 2] == Delay(PollPause)
    {
      PollsLayout(ls, j);
    }
    PollsLayout(ls, k);
  }

  /** Each poll is one status command: a wait sends `k + 1` of them, with no parameters. */
  lemma {:induction false} PollsWords(ls: seq<Level>)
    ensures Words(Polls(ls)) == Encode(StatusFrames(|ls|))
    decreases |ls|
  {
    if ls != [] {
      WordsAppend(Poll(ls[0]), Polls(ls[1..]));
      PollFacts(ls[0]);
      PollsWords(ls[1..]);
      assert StatusFrames(|ls|)[1..] == StatusFrames(|ls| - 1);
    }
  }

  /** `n` status commands. */
  function StatusFrames(n: nat): (fs: seq<Frame>)
    ensures |fs| == n
    ensures forall i | 0 <= i < n :: fs[i] == Frame(GetStatus, [])
  {
    seq(n, _ => Frame(GetStatus, []))
  }

  /** The number of status polls a wait on these readings makes. */
  function PollCount(readings: seq<Level>): nat
    requires High in readings
  {
    FirstHigh(readings) + 1
  }

  lemma WaitWords(readings: seq<Level>)
    requires High in readings
    ensures Words(WaitOps(readings)) == Encode(StatusFrames(PollCount(readings)))
  {
    var ls := readings[..FirstHigh(readings) + 1];
    WordsAppend(Polls(ls), [Delay(WaitSettle)]);
    assert [Delay(WaitSettle)][1..] == [];
    PollsWords(ls);
  }

  // ---------------------------------------------------------------------
  // send_init, send_refresh, send_sleep

  /** The reset pulse that opens `send_init`: reset low, 15, reset high, 15. */
  const ResetPulse: seq<Op> := [ResetPin(Low), Delay(ResetHold), ResetPin(High), Delay(ResetHold)]

  /** Power setting with its four parameters, then power on. */
  const PowerUp: seq<Frame> := [
    Frame(PowerSetting, [PowerSettingMode, PowerVghVgl, PowerVdh, PowerVdl]),
    Frame(PowerOn, [])]

  /** Panel setting, resolution, dual SPI, VCOM and data interval, TCON. */
  const Configuration: seq<Frame> := [
    Frame(PanelSetting, [PanelSettingMode]),
    Frame(ResolutionSetting, [HresHigh, HresLow, VresHigh, VresLow]),
    Frame(DualSpiSetting, [DualSpiMode]),
    Frame(VcomInterval, [VcomIntervalBorder, VcomIntervalData]),
    Frame(TconSetting, [TconValue])]

  /** Border setting for sleep, then power off. */
  const PowerDown: seq<Frame> := [Frame(VcomInterval, [SleepInterval]), Frame(PowerOff, [])]

  /** Deep sleep with its check byte. */
  const DeepSleepFrame: Frame := Frame(DeepSleep, [DeepSleepCheck])

  /** `send_init`: reset pulse, power up, wait, configuration. */
  function InitOps(readings: seq<Level>): seq<Op>
    requires High in readings
  {
    ResetPulse + Sends(PowerUp) + WaitOps(readings) + Sends(Configuration)
  }

  /** `send_refresh`: the refresh command, a 20 us pause, wait. */
  function RefreshOps(readings: seq<Level>): seq<Op>
    requires High in readings
  {
    Send(Frame(DisplayRefresh, [])) + [Delay(RefreshPause)] + WaitOps(readings)
  }

  /** `send_sleep`: power down, wait, deep sleep. */
  function SleepOps(readings: seq<Level>): seq<Op>
    requires High in readings
  {
    Sends(PowerDown) + WaitOps(readings) + Send(DeepSleepFrame)
  }

  lemma SendsOne(f: Frame)
    ensures Sends([f]) == Send(f)
  {
    assert [f][1..] == [];
    assert Sends([f]) == Send(f) + Sends([]);
  }

  lemma SendsTwo(f: Frame, f': Frame)
    ensures Sends([f, f']) == Send(f) + Send(f')
  {
    assert [f, f'][1..] == [f'];
    SendsOne(f');
  }

  /** `send_init`: the reset pulse, power up, wait, configuration, in the order of its statements. */
  method SendInit(readings: seq<Level>) returns (ops: seq<Op>, rest: seq<Level>)
    requires High in readings
    ensures ops == InitOps(readings)
    ensures rest == Waited(readings)
  {
    var reset := [ResetPin(Low), Delay(ResetHold), ResetPin(High), Delay(ResetHold)];
    var power := [
      Command(PowerSetting), Data(PowerSettingMode), Data(PowerVghVgl), Data(PowerVdh), Data(PowerVdl),
      Command(PowerOn)];
    var wait;
    wait, rest := WaitDisplay(readings);
    var config := [
      Command(PanelSetting), Data(PanelSettingMode),
      Command(ResolutionSetting), Data(HresHigh), Data(HresLow), Data(VresHigh), Data(VresLow),
      Command(DualSpiSetting), Data(DualSpiMode),
      Command(VcomInterval), Data(VcomIntervalBorder), Data(VcomIntervalData),
      Command(TconSetting), Data(TconValue)];
    PowerUpOps();
    ConfigurationOps();
    assert reset == ResetPulse;
    ops := reset + power + wait + config;
  }

  /** The power-up frames as the op sequence `send_init` writes out. */
  lemma PowerUpOps()
    ensures Sends(PowerUp) == [
      Command(PowerSetting), Data(PowerSettingMode), Data(PowerVghVgl), Data(PowerVdh), Data(PowerVdl),
      Command(PowerOn)]
  {
    SendsTwo(PowerUp[0], PowerUp[1]);
  }

  /** The configuration frames as the op sequence `send_init` writes out. */
  lemma ConfigurationOps()
    ensures Sends(Configuration) == [
      Command(PanelSetting), Data(PanelSettingMode),
      Command(ResolutionSetting), Data(HresHigh), Data(HresLow), Data(VresHigh), Data(VresLow),
      Command(DualSpiSetting), Data(DualSpiMode),
      Command(VcomInterval), Data(VcomIntervalBorder), Data(VcomIntervalData),
      Command(TconSetting), Data(TconValue)]
  {
    var c := Configuration;
    SendsTwo(c[3], c[4]);
    assert c[3..] == [c[3], c[4]];
    assert c[2..] == [c[2]] + c[3..];
    assert Sends(c[2..]) == Send(c[2]) + Sends(c[3..]);
    assert c[1..] == [c[1]] + c[2..];
    assert Sends(c[1..]) == Send(c[1]) + Sends(c[2..]);
    assert Sends(c) == Send(c[0]) + Sends(c[1..]);
  }

  /** `send_refresh`, statement by statement. */
  method SendRefresh(readings: seq<Level>) returns (ops: seq<Op>, rest: seq<Level>)
    requires High in readings
    ensures ops == RefreshOps(readings)
    ensures rest == Waited(readings)
  {
    ops := [Command(DisplayRefresh)];
    ops := ops + [Delay(RefreshPause)];
    var wait;
    wait, rest := WaitDisplay(readings);
    ops := ops + wait;
  }

  /** `send_sleep`, statement by statement. */
  method SendSleep(readings: seq<Level>) returns (ops: seq<Op>, rest: seq<Level>)
    requires High in readings
    ensures ops == SleepOps(readings)
    ensures rest == Waited(readings)
  {
    ops := [Command(VcomInterval), Data(SleepInterval)];
    ops := ops + [Command(PowerOff)];
    SendsTwo(PowerDown[0], PowerDown[1]);
    var wait;
    wait, rest := WaitDisplay(readings);
    ops := ops + wait;
    ops := ops + [Command(DeepSleep), Data(DeepSleepCheck)];
  }

  // ---------------------------------------------------------------------
  // gd_epaper_update_screen

  /** The readings in front of the second and third waits of a screen update. */
  lemma ThreeWaits(readings: seq<Level>)
    requires HighCount(readings) >= 3
    ensures High in readings
    ensures HighCount(Waited(readings)) >= 2 && High in Waited(readings)
    ensures HighCount(Waited(Waited(readings))) >= 1 && High in Waited(Waited(readings))
  {
    WaitedHighCount(readings);
    WaitedHighCount(Waited(readings));
  }

  /** The two transfers: one zero byte per buffer byte as the old image, then the buffer as the new one. */
  function Transfers(g: Geometry, buffer: seq<Byte>): seq<Frame> {
    [Frame(OldData, Zeros(BufferSize(g))), Frame(NewData, buffer)]
  }

  /**
    `gd_epaper_update_screen`: init, the two transfers, refresh, sleep. The
    three waits read the busy pin in turn.
   */
  function UpdateOps(g: Geometry, buffer: seq<Byte>, readings: seq<Level>): seq<Op>
    requires |buffer| == BufferSize(g)
    requires HighCount(readings) >= 3
  {
    ThreeWaits(readings);
    var r1 := Waited(readings);
    InitOps(readings) + Sends(Transfers(g, buffer)) + RefreshOps(r1) + SleepOps(Waited(r1))
  }

  /** The first transfer loop: `write_data(0x00)` `n` times. */
  method SendZeros(n: nat) returns (ops: seq<Op>)
    ensures ops == DataOps(Zeros(n))
  {
    ops := [];
    var i := 0;
    while i < n
      invariant i <= n
      invariant ops == DataOps(Zeros(i))
    {
      DataOpsSnoc(Zeros(i), 0);
      assert Zeros(i + 1) == Zeros(i) + [0];
      ops := ops + [Data(0)];
      i := i + 1;
    }
  }

  /** The second transfer loop: `write_data(screen_buffer[i])` for each byte, in order. */
  method SendBuffer(buffer: seq<Byte>) returns (ops: seq<Op>)
    ensures ops == DataOps(buffer)
  {
    ops := [];
    var i := 0;
    while i < |buffer|
      invariant i <= |buffer|
      invariant ops == DataOps(buffer[..i])
    {
      DataOpsSnoc(buffer[..i], buffer[i]);
      assert buffer[..i + 1] == buffer[..i] + [buffer[i]];
      ops := ops + [Data(buffer[i])];
      i := i + 1;
    }
    assert buffer[..|buffer|] == buffer;
  }

  /** `gd_epaper_update_screen`; the buffer is an input and is not written. */
  method UpdateScreen(g: Geometry, buffer: seq<Byte>, readings: seq<Level>) returns (ops: seq<Op>, rest: seq<Level>)
    requires |buffer| == BufferSize(g)
    requires HighCount(readings) >= 3
    ensures ops == UpdateOps(g, buffer, readings)
    ensures HighCount(rest) == HighCount(readings) - 3
  {
    ThreeWaits(readings);
    var init, r := SendInit(readings);
    var zeros := SendZeros(|buffer|);
    var data := SendBuffer(buffer);
    var transfers := [Command(OldData)] + zeros + [Command(NewData)] + data;
    TransfersOps(g, buffer);
    var refresh, sleep;
    refresh, r := SendRefresh(r);
    sleep, rest := SendSleep(r);
    ops := init + transfers + refresh + sleep;
    WaitedHighCount(readings);
    WaitedHighCount(Waited(readings));
    WaitedHighCount(Waited(Waited(readings)));
  }

  /** The two transfers as the ops the two loops write out. */
  lemma TransfersOps(g: Geometry, buffer: seq<Byte>)
    ensures Sends(Transfers(g, buffer))
      == [Command(OldData)] + DataOps(Zeros(BufferSize(g))) + [Command(NewData)] + DataOps(buffer)
  {
    var fs := Transfers(g, buffer);
    SendsTwo(fs[0], fs[1]);
  }

  /** The frames of `send_init` when its wait polls `polls` times. */
  function InitFrames(polls: nat): seq<Frame> {
    PowerUp + StatusFrames(polls) + Configuration
  }

  /** The frames of `send_refresh` when its wait polls `polls` times. */
  function RefreshFrames(polls: nat): seq<Frame> {
    [Frame(DisplayRefresh, [])] + StatusFrames(polls)
  }

  /** The frames of `send_sleep` when its wait polls `polls` times. */
  function SleepFrames(polls: nat): seq<Frame> {
    PowerDown + StatusFrames(polls) + [DeepSleepFrame]
  }

  /** Every command frame of a screen update, in order, given the number of status polls of each wait. */
  function UpdateFrames(g: Geometry, buffer: seq<Byte>, polls1: nat, polls2: nat, polls3: nat): seq<Frame> {
    InitFrames(polls1) + Transfers(g, buffer) + RefreshFrames(polls2) + SleepFrames(polls3)
  }

  /** The frames of an update whose three waits read the busy pin from `readings`. */
  function UpdateFramesFor(g: Geometry, buffer: seq<Byte>, readings: seq<Level>): seq<Frame>
    requires HighCount(readings) >= 3
  {
    ThreeWaits(readings);
    UpdateFrames(g, buffer, PollCount(readings), PollCount(Waited(readings)),
                 PollCount(Waited(Waited(readings))))
  }

  lemma Words3(a: seq<Op>, b: seq<Op>, c: seq<Op>)
    ensures Words(a + b + c) == Words(a) + Words(b) + Words(c)
  {
    WordsAppend(a + b, c);
    WordsAppend(a, b);
  }

  lemma Encode3(a: seq<Frame>, b: seq<Frame>, c: seq<Frame>)
    ensures Encode(a + b + c) == Encode(a) + Encode(b) + Encode(c)
  {
    EncodeAppend(a + b, c);
    EncodeAppend(a, b);
  }

  /** Three pieces of ops that latch the encodings of three runs of frames latch the encoding of all three. */
  lemma WordsOfPieces(a: seq<Op>, b: seq<Op>, c: seq<Op>, x: seq<Frame>, y: seq<Frame>, z: seq<Frame>)
    requires Words(a) == Encode(x) && Words(b) == Encode(y) && Words(c) == Encode(z)
    ensures Words(a + b + c) == Encode(x + y + z)
  {
    Words3(a, b, c);
    Encode3(x, y, z);
  }

  /** Quiet ops in front of frames latch just the frames. */
  lemma QuietThenSends(q: seq<Op>, fs: seq<Frame>)
    requires forall i | 0 <= i < |q| :: !IsByte(q[i])
    ensures Words(q + Sends(fs)) == Encode(fs)
  {
    QuietWords(q);
    WordsAppend(q, Sends(fs));
    SendsWords(fs);
  }

  /** `send_init` latches power up, one status command per poll, and the configuration. */
  lemma InitWords(readings: seq<Level>)
    requires High in readings
    ensures Words(InitOps(readings)) == Encode(InitFrames(PollCount(readings)))
  {
    QuietThenSends(ResetPulse, PowerUp);
    WaitWords(readings);
    SendsWords(Configuration);
    WordsOfPieces(ResetPulse + Sends(PowerUp), WaitOps(readings), Sends(Configuration),
                  PowerUp, StatusFrames(PollCount(readings)), Configuration);
  }

  /** `send_refresh` latches the refresh command and one status command per poll. */
  lemma RefreshWords(readings: seq<Level>)
    requires High in readings
    ensures Words(RefreshOps(readings)) == Encode(RefreshFrames(PollCount(readings)))
  {
    var f := Frame(DisplayRefresh, []);
    SendsOne(f);
    SendsWords([f]);
    QuietWords([Delay(RefreshPause)]);
    WaitWords(readings);
    WordsOfPieces(Send(f), [Delay(RefreshPause)], WaitOps(readings), [f], [], StatusFrames(PollCount(readings)));
    assert [f] + [] == [f];
  }

  /** `send_sleep` latches power down, one status command per poll, and deep sleep. */
  lemma SleepWords(readings: seq<Level>)
    requires High in readings
    ensures Words(SleepOps(readings)) == Encode(SleepFrames(PollCount(readings)))
  {
    SendsWords(PowerDown);
    WaitWords(readings);
    SendsOne(DeepSleepFrame);
    SendsWords([DeepSleepFrame]);
    WordsOfPieces(Sends(PowerDown), WaitOps(readings), Send(DeepSleepFrame),
                  PowerDown, StatusFrames(PollCount(readings)), [DeepSleepFrame]);
  }

  /**
    A screen update at the command level: what the controller latches is
    exactly the encoding of `UpdateFrames`, where the waits make as many
    status polls as the busy readings dictate.
   */
  lemma UpdateWords(g: Geometry, buffer: seq<Byte>, readings: seq<Level>)
    requires |buffer| == BufferSize(g)
    requires HighCount(readings) >= 3
    ensures Words(UpdateOps(g, buffer, readings)) == Encode(UpdateFramesFor(g, buffer, readings))
  {
    ThreeWaits(readings);
    var r1 := Waited(readings);
    var r2 := Waited(r1);
    var init, transfers := InitOps(readings), Sends(Transfers(g, buffer));
    InitWords(readings);
    SendsWords(Transfers(g, buffer));
    RefreshWords(r1);
    SleepWords(r2);
    Words3(init, transfers, RefreshOps(r1));
    WordsAppend(init + transfers + RefreshOps(r1), SleepOps(r2));
    var a, b := InitFrames(PollCount(readings)), Transfers(g, buffer);
    Encode3(a, b, RefreshFrames(PollCount(r1)));
    EncodeAppend(a + b + RefreshFrames(PollCount(r1)), SleepFrames(PollCount(r2)));
  }

  /**
    The screen update as the panel sees it, in every transport mode: a
    controller between frames, fed every device call of the update, groups
    what it latches into exactly the frames of `UpdateFrames`. In
    particular the old-data command is followed by exactly one zero byte
    per buffer byte and the new-data command by the buffer itself, in
    order.
   */
  lemma UpdateOnTheWire(mode: Mode, rx: Receiver, g: Geometry, buffer: seq<Byte>, readings: seq<Level>)
    requires Idle(rx)
    requires |buffer| == BufferSize(g)
    requires HighCount(readings) >= 3
    ensures var latched := Receive(mode, rx, LowerAll(mode, UpdateOps(g, buffer, readings))).1;
      && StartsWithCommand(latched)
      && Decode(latched) == UpdateFramesFor(g, buffer, readings)
  {
    ThreeWaits(readings);
    var ops := UpdateOps(g, buffer, readings);
    var fs := UpdateFramesFor(g, buffer, readings);
    ChannelRoundTrip(mode, rx, ops);
    UpdateWords(g, buffer, readings);
    EncodeStartsWithCommand(fs);
    DecodeEncode(fs);
  }

  /**
    Where the buffer goes: in the frame list of an update, the old-data
    frame is `BufferSize` zero bytes and the frame after it carries the
    buffer unchanged.
   */
  lemma UpdateTransfers(g: Geometry, buffer: seq<Byte>, polls1: nat, polls2: nat, polls3: nat)
    requires |buffer| == BufferSize(g)
    ensures var fs := UpdateFrames(g, buffer, polls1, polls2, polls3);
      var at := |PowerUp| + polls1 + |Configuration|;
      && at + 1 < |fs|
      && fs[at].command == OldData
      && |fs[at].params| == BufferSize(g)
      && (forall i | 0 <= i < |fs[at].params| :: fs[at].params[i] == 0)
      && fs[at + 1] == Frame(NewData, buffer)
  {
  }

  /** For the 800 x 480 panel the two transfers are 48000 bytes each. */
  lemma PanelTransfers(buffer: seq<Byte>, polls1: nat, polls2: nat, polls3: nat)
    requires |buffer| == BufferSize(Panel)
    ensures var fs := UpdateFrames(Panel, buffer, polls1, polls2, polls3);
      var at := 2 + polls1 + 5;
      && |fs[at].params| == 48000
      && |fs[at + 1].params| == 48000
  {
    PanelGeometry();
    UpdateTransfers(Panel, buffer, polls1, polls2, polls3);
  }

  /** The update opens with the reset pulse, before any byte reaches the controller. */
  lemma UpdateStartsWithReset(g: Geometry, buffer: seq<Byte>, readings: seq<Level>)
    requires |buffer| == BufferSize(g)
    requires HighCount(readings) >= 3
    ensures var ops := UpdateOps(g, buffer, readings);
      && |ops| > 4
      && ops[..4] == ResetPulse
  {
  }
}
