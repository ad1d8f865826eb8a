/**
  The command channel: the driver's protocol functions speak in commands,
  data bytes, reset-pin writes, delays and busy-pin reads. `Lower` maps
  each of these to the device calls that `write_command`, `write_data` and
  the device's function pointers make, and `ChannelRoundTrip` shows that the
  panel's serial interface recovers exactly the command and data bytes of
  any such sequence, in order, in every transport mode.
 */
module CommandChannel {
  import opened Defs
  import opened Transport

  /** One step of the driver at the command level. */
  datatype Op =
    | Command(value: Byte)     // write_command(value)
    | Data(value: Byte)        // write_data(value)
    | ResetPin(level: Level)   // gpio_write_fptr(reset_pin, level)
    | Delay(amount: nat)       // the delay function pointer, literal argument
    | BusyRead(level: Level)   // gpio_read_fptr(busy_pin) returning level

  /** The bytes an op puts on the serial interface, if any. */
  predicate IsByte(op: Op) {
    op.Command? || op.Data?
  }

  /** The device calls one op makes in `mode`. */
  function Lower(mode: Mode, op: Op): seq<Signal> {
    match op
    case Command(b) => ByteFrame(mode, b, true)
    case Data(b) => ByteFrame(mode, b, false)
    case ResetPin(l) => [Write(Reset, l)]
    case Delay(n) => [Sleep(n)]
    case BusyRead(l) => [Read(Busy, l)]
  }

  /** The device calls of a whole op sequence, op after op. */
  function LowerAll(mode: Mode, ops: seq<Op>): seq<Signal>
    decreases |ops|
  {
    if ops == [] then [] else Lower(mode, ops[0]) + LowerAll(mode, ops[1..])
  }

  /** The word the controller should latch for a byte op. */
  function WordOf(op: Op): Word
    requires IsByte(op)
  {
    Word(op.Command?, op.value)
  }

  /** The command and data bytes of an op sequence, in order, each marked as command or data. */
  function Words(ops: seq<Op>): (ws: seq<Word>)
    ensures |ws| <= |ops|
    decreases |ops|
  {
    if ops == [] then []
    else (if IsByte(ops[0]) then [WordOf(ops[0])] else []) + Words(ops[1..])
  }

  lemma {:induction false} LowerAllAppend(mode: Mode, a: seq<Op>, b: seq<Op>)
    ensures LowerAll(mode, a + b) == LowerAll(mode, a) + LowerAll(mode, b)
    decreases |a|
  {
    if a == [] {
      assert a + b == b;
    } else {
      assert (a + b)[0] == a[0];
      assert (a + b)[1..] == a[1..] + b;
      LowerAllAppend(mode, a[1..], b);
    }
  }

  lemma {:induction false} WordsAppend(a: seq<Op>, b: seq<Op>)
    ensures Words(a + b) == Words(a) + Words(b)
    decreases |a|
  {
    if a == [] {
      assert a + b == b;
    } else {
      var head: seq<Word> := if IsByte(a[0]) then [WordOf(a[0])] else [];
      assert (a + b)[0] == a[0];
      assert (a + b)[1..] == a[1..] + b;
      assert Words(a + b) == head + Words(a[1..] + b);
      WordsAppend(a[1..], b);
      assert Words(a) == head + Words(a[1..]);
    }
  }

  /** Ops without bytes latch nothing. */
  lemma {:induction false} QuietWords(ops: seq<Op>)
    requires forall i | 0 <= i < |ops| :: !IsByte(ops[i])
    ensures Words(ops) == []
    decreases |ops|
  {
    if ops != [] {
      QuietWords(ops[1..]);
    }
  }

  /** Reset-pin writes, delays and busy reads leave the serial interface alone. */
  lemma QuietOp(mode: Mode, rx: Receiver, op: Op)
    requires !IsByte(op)
    ensures Receive(mode, rx, Lower(mode, op)) == (rx, [])
  {
    ReceiveOne(mode, rx, Lower(mode, op)[0]);
  }

  /** One op seen from between frames: its word, if it has one, and between frames again. */
  lemma OpRoundTrip(mode: Mode, rx: Receiver, op: Op)
    requires Idle(rx)
    ensures Receive(mode, rx, Lower(mode, op)).1 == (if IsByte(op) then [WordOf(op)] else [])
    ensures Idle(Receive(mode, rx, Lower(mode, op)).0)
  {
    if IsByte(op) {
      ByteRoundTrip(mode, rx, op.value, op.Command?);
    } else {
      QuietOp(mode, rx, op);
    }
  }

  /**
    End to end: a receiver between frames, fed the device calls of any op
    sequence, latches exactly the command and data bytes of the sequence in
    order, with their command/data marking, and ends between frames.
   */
  lemma {:induction false} ChannelRoundTrip(mode: Mode, rx: Receiver, ops: seq<Op>)
    requires Idle(rx)
    ensures Receive(mode, rx, LowerAll(mode, ops)).1 == Words(ops)
    ensures Idle(Receive(mode, rx, LowerAll(mode, ops)).0)
    decreases |ops|
  {
    if ops == [] {
      assert Receive(mode, rx, []) == (rx, []);
    } else {
      var head := Lower(mode, ops[0]);
      ReceiveAppend(mode, rx, head, LowerAll(mode, ops[1..]));
      OpRoundTrip(mode, rx, ops[0]);
      ChannelRoundTrip(mode, Receive(mode, rx, head).0, ops[1..]);
    }
  }
}
