/** FTDI MPSSE: JTAG and SWD bit streams as commands, and the samples they return. */
module FtdiMpsse {
  import opened Options
  import opened Bits
  import Rows

  const SET_DATA_LOW: Octet := 0x80
  const BITS_OUT: Octet := 0x1b
  const BITS_IN: Octet := 0x2a
  const BITS_IO: Octet := 0x3b
  const TMS_IO: Octet := 0x6b
  const SEND_IMMEDIATE: Octet := 0x87

  const PIN_CLOCK := 1
  const PIN_DATA_OUT := 2
  const PIN_TMS := 8

  // ----- Commands -----

  datatype Op =
    | SetLow(value: Octet, direction: Octet)
    | ShiftOut(count: nat, data: Octet)
    | ShiftIn(count: nat)
    | ShiftIo(count: nat, data: Octet)
    | ShiftTms(count: nat, data: Octet)
    | Flush

  predicate ValidOp(op: Op) {
    op.SetLow? || op.Flush? || 0 < op.count <= 8
  }

  function Encoded(op: Op): seq<Octet>
    requires ValidOp(op)
  {
    match op
    case SetLow(value, direction) => [SET_DATA_LOW, value, direction]
    case ShiftOut(count, data) => [BITS_OUT, count - 1, data]
    case ShiftIn(count) => [BITS_IN, count - 1]
    case ShiftIo(count, data) => [BITS_IO, count - 1, data]
    case ShiftTms(count, data) => [TMS_IO, count - 1, data]
    case Flush => [SEND_IMMEDIATE]
  }

  ghost predicate AllValid(ops: seq<Op>) {
    forall i :: 0 <= i < |ops| ==> ValidOp(ops[i])
  }

  /** The bytes of a command list. */
  ghost function Stream(ops: seq<Op>): seq<Octet>
    requires AllValid(ops)
  {
    if ops == [] then [] else Stream(ops[..|ops| - 1]) + Encoded(ops[|ops| - 1])
  }

  function Size(command: Octet): nat {
    if command == SEND_IMMEDIATE then 1 else if command == BITS_IN then 2 else 3
  }

  /** The command at the head of a byte stream. */
  function First(bytes: seq<Octet>): Option<Op>
    requires bytes != [] && |bytes| >= Size(bytes[0])
  {
    var c := bytes[0];
    if c == SEND_IMMEDIATE then Some(Flush)
    else
      var n: nat := bytes[1];
      if c == BITS_IN then Some(ShiftIn(n + 1))
      else if c == SET_DATA_LOW then Some(SetLow(bytes[1], bytes[2]))
      else if c == BITS_OUT then Some(ShiftOut(n + 1, bytes[2]))
      else if c == BITS_IO then Some(ShiftIo(n + 1, bytes[2]))
      else if c == TMS_IO then Some(ShiftTms(n + 1, bytes[2]))
      else None
  }

  /** What the engine reads from a byte stream. */
  function Parse(bytes: seq<Octet>): Option<seq<Op>>
    decreases |bytes|
  {
    if bytes == [] then Some([])
    else if |bytes| < Size(bytes[0]) then None
    else
      var op := First(bytes);
      var rest := Parse(bytes[Size(bytes[0])..]);
      if op.None? || !ValidOp(op.value) || rest.None? then None else Some([op.value] + rest.value)
  }

  lemma {:induction false} ParseOne(op: Op, rest: seq<Octet>)
    requires ValidOp(op)
    ensures var r := Parse(rest); Parse(Encoded(op) + rest) == if r.None? then None else Some([op] + r.value)
  {
    var bytes := Encoded(op) + rest;
    assert bytes[|Encoded(op)|..] == rest;
  }

  /** The engine reads exactly the commands that were written. */
  lemma {:induction false} ParseStream(ops: seq<Op>, rest: seq<Octet>)
    requires AllValid(ops)
    ensures var r := Parse(rest); Parse(Stream(ops) + rest) == if r.None? then None else Some(ops + r.value)
    decreases |ops|
  {
    hide Encoded, ValidOp, Parse, First;
    if ops == [] {
      assert Stream(ops) + rest == rest;
      assert Parse(rest).Some? ==> ops + Parse(rest).value == Parse(rest).value;
    } else {
      var init, last := ops[..|ops| - 1], ops[|ops| - 1];
      assert AllValid(init);
      ParseOne(last, rest);
      ParseStream(init, Encoded(last) + rest);
      assert Stream(init) + (Encoded(last) + rest) == Stream(ops) + rest;
      assert forall r: seq<Op> :: init + ([last] + r) == ops + r;
    }
  }

  // ----- The engine -----

  /** Bit `i` of a data byte. */
  predicate DataBit(data: Octet, i: nat)
    requires i < 8
  {
    BitsOf(data, 8)[i]
  }

  /** Which of the data and TMS pins are outputs, and their levels. */
  datatype Pins = Pins(dataOut: bool, data: bool, tmsOut: bool, tms: bool)

  /** What the target sees at one clock: a level, or nothing where the pin is an input. */
  datatype Tick = Tick(data: Option<bool>, tms: Option<bool>)

  /** One response byte: the clocks whose samples it carries. */
  datatype Span = Span(offset: nat, bits: nat)

  /**
    * The pins, the clocks so far, the response bytes so far, and whether every write-only shift found its
    * first bit on the line already, so that turning the driver on never showed another level.
    */
  datatype Trace = Trace(pins: Pins, ticks: seq<Tick>, spans: seq<Span>, steady: bool)

  function Seen(out: bool, level: bool): Option<bool> {
    if out then Some(level) else None
  }

  function TickOf(op: Op, p: Pins, i: nat): Tick
    requires ValidOp(op) && !op.SetLow? && !op.Flush? && i < op.count
  {
    match op
    case ShiftIn(_) => Tick(Seen(p.dataOut, p.data), Seen(p.tmsOut, p.tms))
    case ShiftOut(_, data) => Tick(Seen(p.dataOut, DataBit(data, i)), Seen(p.tmsOut, p.tms))
    case ShiftIo(_, data) => Tick(Seen(p.dataOut, DataBit(data, i)), Seen(p.tmsOut, p.tms))
    case ShiftTms(_, data) => Tick(Seen(p.dataOut, DataBit(data, 7)), Seen(p.tmsOut, DataBit(data, i)))
  }

  function PinsAfter(op: Op, p: Pins): Pins
    requires ValidOp(op)
  {
    match op
    case SetLow(value, direction) =>
      Pins(direction / PIN_DATA_OUT % 2 == 1, value / PIN_DATA_OUT % 2 == 1, direction / PIN_TMS % 2 == 1,
           value / PIN_TMS % 2 == 1)
    case ShiftOut(count, data) => p.(data := DataBit(data, count - 1))
    case ShiftIo(count, data) => p.(data := DataBit(data, count - 1))
    case ShiftTms(count, data) => p.(data := DataBit(data, 7), tms := DataBit(data, count - 1))
    case _ => p
  }

  /** One command: the clocks it makes and the response byte it returns. */
  function Apply(t: Trace, op: Op): Trace
    requires ValidOp(op)
  {
    var pins := PinsAfter(op, t.pins);
    if op.SetLow? || op.Flush? then t.(pins := pins)
    else
      var ticks := t.ticks + seq(op.count, i requires 0 <= i < op.count => TickOf(op, t.pins, i));
      if op.ShiftOut? then Trace(pins, ticks, t.spans, t.steady && t.pins.data == DataBit(op.data, 0))
      else Trace(pins, ticks, t.spans + [Span(|t.ticks|, op.count)], t.steady)
  }

  ghost function Run(ops: seq<Op>, start: Pins): Trace
    requires AllValid(ops)
  {
    if ops == [] then Trace(start, [], [], true) else Apply(Run(ops[..|ops| - 1], start), ops[|ops| - 1])
  }

  /** Everything a byte stream makes the engine do, if it can be read. */
  ghost function Engine(bytes: seq<Octet>, start: Pins): Option<Trace> {
    var ops := Parse(bytes);
    if ops.Some? && AllValid(ops.value) then Some(Run(ops.value, start)) else None
  }

  /** One more command: its bytes follow, and the engine does it next. */
  lemma {:induction false} Emitted(ops: seq<Op>, op: Op, start: Pins)
    requires AllValid(ops) && ValidOp(op)
    ensures AllValid(ops + [op])
    ensures Stream(ops + [op]) == Stream(ops) + Encoded(op)
    ensures Run(ops + [op], start) == Apply(Run(ops, start), op)
  {
    assert (ops + [op])[..|ops|] == ops;
  }

  lemma {:induction false} EngineRuns(ops: seq<Op>, start: Pins)
    requires AllValid(ops)
    ensures Engine(Stream(ops), start) == Some(Run(ops, start))
  {
    hide Parse;
    ParseStream(ops, []);
    ParseEmpty();
    assert Stream(ops) + [] == Stream(ops) && ops + [] == ops;
  }

  lemma {:induction false} ParseEmpty()
    ensures Parse([]) == Some([])
  {
  }

  // ----- Runs of bits as data bytes -----

  method RunData(stream: seq<bool>, offset: nat, bits: nat) returns (data: Octet)
    requires offset + bits <= |stream| && bits <= 8
    ensures data == Value(stream[offset..offset + bits])
  {
    hide Value, Pow2;
    var v, power := 0, 1;
    Zero(stream[offset..offset]);
    for i := 0 to bits
      invariant v == Value(stream[offset..offset + i]) && power == Pow2(i)
    {
      ValueMore(stream[offset..offset + i], stream[offset + i]);
      assert stream[offset..offset + i] + [stream[offset + i]] == stream[offset..offset + i + 1];
      if stream[offset + i] {
        v := v + power;
      }
      Doubled(i);
      power := 2 * power;
    }
    SmallValue(stream[offset..offset + bits]);
    data := v;
  }

  lemma {:induction false} Zero(s: seq<bool>)
    requires s == []
    ensures Value(s) == 0 && Pow2(0) == 1
  {
  }

  lemma {:induction false} ValuePad(s: seq<bool>, n: nat)
    ensures Value(s + Rows.Zeros(n)) == Value(s)
  {
    hide Value, Pow2;
    if n == 0 {
      assert s + Rows.Zeros(0) == s;
    } else {
      ValuePad(s, n - 1);
      ValueMore(s + Rows.Zeros(n - 1), false);
      assert s + Rows.Zeros(n) == s + Rows.Zeros(n - 1) + [false];
    }
  }

  /** The bits of a run's data byte are the run's. */
  lemma {:induction false} RunBits(s: seq<bool>, data: Octet)
    requires |s| <= 8 && data == Value(s)
    ensures forall i :: 0 <= i < |s| ==> DataBit(data, i) == s[i]
  {
    hide Value, BitsOf;
    var padded := s + Rows.Zeros(8 - |s|);
    ValuePad(s, 8 - |s|);
    BitsOfValue(padded);
    assert BitsOf(data, 8) == padded;
  }

  /** Bit 7 is above every bit of a shorter run. */
  lemma {:induction false} HeldBits(s: seq<bool>, held: bool, data: Octet)
    requires |s| <= 7 && data == Value(s) + if held then 128 else 0
    ensures DataBit(data, 7) == held
    ensures forall i :: 0 <= i < |s| ==> DataBit(data, i) == s[i]
  {
    hide Value, BitsOf;
    assert Pow2(7) == 128;
    var low := s + Rows.Zeros(7 - |s|);
    ValuePad(s, 7 - |s|);
    ValueMore(low, held);
    BitsOfValue(low + [held]);
    assert BitsOf(data, 8) == low + [held];
  }

  // ----- Which clocks the response bytes carry -----

  ghost predicate Covers(spans: seq<Span>, i: nat) {
    exists k :: 0 <= k < |spans| && spans[k].offset <= i < spans[k].offset + spans[k].bits
  }

  /** Byte-sized spans, in order, that end by `offset`. */
  ghost predicate Ordered(spans: seq<Span>, offset: nat) {
    && (forall k :: 0 <= k < |spans| ==> 0 < spans[k].bits <= 8 && spans[k].offset + spans[k].bits <= offset)
    && forall j, k :: 0 <= j < k < |spans| ==> spans[j].offset + spans[j].bits <= spans[k].offset
  }

  /** The spans hold exactly the sampled clocks before `offset`, each once, in order. */
  ghost predicate Sampling(spans: seq<Span>, sampled: seq<bool>, offset: nat) {
    && offset <= |sampled| && Ordered(spans, offset)
    && forall i :: 0 <= i < offset ==> (Covers(spans, i) <==> sampled[i])
  }

  lemma {:induction false} SampledMore(spans: seq<Span>, sampled: seq<bool>, offset: nat, bits: nat)
    requires Sampling(spans, sampled, offset) && 0 < bits <= 8 && offset + bits <= |sampled|
    requires forall i :: offset <= i < offset + bits ==> sampled[i]
    ensures Sampling(spans + [Span(offset, bits)], sampled, offset + bits)
  {
    var now := spans + [Span(offset, bits)];
    forall i | 0 <= i < offset + bits
      ensures Covers(now, i) <==> sampled[i]
    {
      if i >= offset {
        assert now[|spans|].offset <= i < now[|spans|].offset + now[|spans|].bits;
      } else if Covers(spans, i) {
        var k :| 0 <= k < |spans| && spans[k].offset <= i < spans[k].offset + spans[k].bits;
        assert now[k] == spans[k];
      } else {
        assert forall k :: 0 <= k < |spans| ==> now[k] == spans[k];
      }
    }
  }

  lemma {:induction false} DrivenMore(spans: seq<Span>, sampled: seq<bool>, offset: nat, bits: nat)
    requires Sampling(spans, sampled, offset) && offset + bits <= |sampled|
    requires forall i :: offset <= i < offset + bits ==> !sampled[i]
    ensures Sampling(spans, sampled, offset + bits)
  {
  }

  // ----- JTAG -----

  const JTAG_PINS: Octet := PIN_CLOCK + PIN_DATA_OUT + PIN_TMS

  /** The clocks a TMS/TDI stream asks for. */
  ghost function JtagTicks(tms: seq<bool>, tdi: seq<bool>): (r: seq<Tick>)
    requires |tms| == |tdi|
    ensures |r| == |tms|
  {
    seq(|tms|, i requires 0 <= i < |tms| => Tick(Some(tdi[i]), Some(tms[i])))
  }

  /** The commands clocked exactly the stream up to `offset`. */
  ghost predicate Clocked(t: Trace, wanted: seq<Tick>, offset: nat) {
    offset <= |wanted| && t.ticks == wanted[..offset]
  }

  /** TDI is shifted a byte at a time while TMS is held low. */
  lemma {:induction false} LowRun(t: Trace, tms: seq<bool>, tdi: seq<bool>, offset: nat, width: nat, data: Octet)
    requires |tms| == |tdi| && offset + width <= |tms| && 0 < width <= 8
    requires Clocked(t, JtagTicks(tms, tdi), offset)
    requires forall i :: offset <= i < offset + width ==> !tms[i]
    requires data == Value(tdi[offset..offset + width])
    ensures var now := Apply(Apply(t, SetLow(0, JTAG_PINS)), ShiftIo(width, data));
            && Clocked(now, JtagTicks(tms, tdi), offset + width)
            && now.spans == t.spans + [Span(offset, width)] && now.pins.dataOut && now.pins.tmsOut
  {
    hide Value, BitsOf, Pow2, DataBit;
    var mid := Apply(t, SetLow(0, JTAG_PINS));
    var op := ShiftIo(width, data);
    RunBits(tdi[offset..offset + width], data);
    assert forall i :: 0 <= i < width ==> DataBit(data, i) == tdi[offset..offset + width][i] == tdi[offset + i];
    var now := Apply(mid, op);
    Extends(mid.ticks, now.ticks, JtagTicks(tms, tdi), offset, width);
  }

  lemma {:induction false} Extends(before: seq<Tick>, now: seq<Tick>, wanted: seq<Tick>, offset: nat, width: nat)
    requires offset + width <= |wanted| && before == wanted[..offset] && |now| == offset + width && before <= now
    requires forall i :: offset <= i < offset + width ==> now[i] == wanted[i]
    ensures now == wanted[..offset + width]
  {
    forall i | 0 <= i < offset
      ensures now[i] == wanted[i]
    {
      assert now[i] == before[i];
    }
  }

  /** TMS is shifted while TDI is held at one level. */
  lemma {:induction false} HeldRun(t: Trace, tms: seq<bool>, tdi: seq<bool>, offset: nat, width: nat, data: Octet)
    requires |tms| == |tdi| && offset + width <= |tms| && 0 < width <= 7
    requires Clocked(t, JtagTicks(tms, tdi), offset) && t.pins.dataOut && t.pins.tmsOut
    requires forall i :: offset <= i < offset + width ==> tdi[i] == tdi[offset]
    requires data == Value(tms[offset..offset + width]) + if tdi[offset] then 128 else 0
    ensures var now := Apply(t, ShiftTms(width, data));
            && Clocked(now, JtagTicks(tms, tdi), offset + width)
            && now.spans == t.spans + [Span(offset, width)] && now.pins.dataOut && now.pins.tmsOut
  {
    hide Value, BitsOf, Pow2, DataBit;
    var op := ShiftTms(width, data);
    HeldBits(tms[offset..offset + width], tdi[offset], data);
    assert forall i :: 0 <= i < width ==> DataBit(data, i) == tms[offset..offset + width][i] == tms[offset + i];
    var now := Apply(t, op);
    Extends(t.ticks, now.ticks, JtagTicks(tms, tdi), offset, width);
  }

  lemma {:induction false} Outputs(t: Trace)
    ensures var now := Apply(t, SetLow(0, JTAG_PINS));
            now.pins.dataOut && now.pins.tmsOut && now.ticks == t.ticks && now.spans == t.spans
  {
  }

  lemma {:induction false} Flushed(t: Trace)
    ensures Apply(t, Flush) == t
  {
  }

  /** A run of TMS bits with the held TDI level above it. */
  method HeldData(tms: seq<bool>, offset: nat, width: nat, held: bool) returns (data: Octet)
    requires offset + width <= |tms| && width <= 7
    ensures data == Value(tms[offset..offset + width]) + if held then 128 else 0
  {
    data := RunData(tms, offset, width);
    PowGrows(width, 7);
    assert Pow2(7) == 128;
    if held {
      data := data + 128;
    }
  }

  /** Commands written so far: they clock the stream up to `offset`, and every clock is sampled. */
  ghost predicate Encoding(ops: seq<Op>, commands: seq<Octet>, spans: seq<Span>, tms: seq<bool>, tdi: seq<bool>,
                           offset: nat, start: Pins)
    requires |tms| == |tdi|
  {
    && AllValid(ops) && commands == Stream(ops) && Sampling(spans, Rows.Ones(|tms|), offset)
    && var t := Run(ops, start);
       Clocked(t, JtagTicks(tms, tdi), offset) && t.spans == spans && t.pins.dataOut && t.pins.tmsOut
  }

  lemma {:induction false} EncodeStart(tms: seq<bool>, tdi: seq<bool>, start: Pins)
    requires |tms| == |tdi|
    ensures Encoding([SetLow(0, JTAG_PINS)], [SET_DATA_LOW, 0, JTAG_PINS], [], tms, tdi, 0, start)
  {
    hide Apply;
    var op := SetLow(0, JTAG_PINS);
    Emitted([], op, start);
    Outputs(Run([], start));
    assert [] + [op] == [op];
    assert Stream([op]) == [SET_DATA_LOW, 0, JTAG_PINS];
  }

  lemma {:induction false} EncodeLow(ops: seq<Op>, commands: seq<Octet>, spans: seq<Span>, tms: seq<bool>,
                                     tdi: seq<bool>,
                                     offset: nat, start: Pins, width: nat, data: Octet) returns (more: seq<Op>)
    requires |tms| == |tdi| && Encoding(ops, commands, spans, tms, tdi, offset, start)
    requires offset + width <= |tms| && 0 < width <= 8
    requires forall i :: offset <= i < offset + width ==> !tms[i]
    requires data == Value(tdi[offset..offset + width])
    ensures Encoding(more, commands + [SET_DATA_LOW, 0, JTAG_PINS, BITS_IO, width - 1, data],
                     spans + [Span(offset, width)],
                     tms, tdi, offset + width, start)
  {
    hide Apply, Stream, Run, Value;
    var pins, shift := SetLow(0, JTAG_PINS), ShiftIo(width, data);
    Emitted(ops, pins, start);
    Emitted(ops + [pins], shift, start);
    LowRun(Run(ops, start), tms, tdi, offset, width, data);
    SampledMore(spans, Rows.Ones(|tms|), offset, width);
    more := ops + [pins] + [shift];
    assert Encoded(pins) + Encoded(shift) == [SET_DATA_LOW, 0, JTAG_PINS, BITS_IO, width - 1, data];
    assert commands + Encoded(pins) + Encoded(shift) == commands + (Encoded(pins) + Encoded(shift));
  }

  lemma {:induction false} EncodeHeld(ops: seq<Op>, commands: seq<Octet>, spans: seq<Span>, tms: seq<bool>,
                                      tdi: seq<bool>,
                                      offset: nat, start: Pins, width: nat, data: Octet) returns (more: seq<Op>)
    requires |tms| == |tdi| && Encoding(ops, commands, spans, tms, tdi, offset, start)
    requires offset + width <= |tms| && 0 < width <= 7
    requires forall i :: offset <= i < offset + width ==> tdi[i] == tdi[offset]
    requires data == Value(tms[offset..offset + width]) + if tdi[offset] then 128 else 0
    ensures Encoding(more, commands + [TMS_IO, width - 1, data], spans + [Span(offset, width)], tms, tdi,
                     offset + width, start)
  {
    hide Apply, Stream, Run, Value;
    var op := ShiftTms(width, data);
    Emitted(ops, op, start);
    HeldRun(Run(ops, start), tms, tdi, offset, width, data);
    SampledMore(spans, Rows.Ones(|tms|), offset, width);
    more := ops + [op];
  }

  lemma {:induction false} EncodeEnd(ops: seq<Op>, commands: seq<Octet>, spans: seq<Span>, tms: seq<bool>,
                                     tdi: seq<bool>, start: Pins)
    requires |tms| == |tdi| && Encoding(ops, commands, spans, tms, tdi, |tms|, start)
    ensures var t := Engine(commands + [SEND_IMMEDIATE], start);
            t.Some? && t.value.ticks == JtagTicks(tms, tdi) && t.value.spans == spans
    ensures Sampling(spans, Rows.Ones(|tms|), |tms|)
  {
    hide Apply, Stream, Run, Engine;
    Emitted(ops, Flush, start);
    EngineRuns(ops + [Flush], start);
    Flushed(Run(ops, start));
  }

  /** The commands for a JTAG stream clock exactly that stream, one response byte to each span. */
  method JtagCommands(tms: seq<bool>, tdi: seq<bool>, ghost start: Pins)
    returns (commands: seq<Octet>, spans: seq<Span>)
    requires |tms| == |tdi|
    ensures var t := Engine(commands, start);
            t.Some? && t.value.ticks == JtagTicks(tms, tdi) && t.value.spans == spans
    ensures Sampling(spans, Rows.Ones(|tms|), |tms|)
  {
    hide Value, Pow2, Encoding, Engine, Sampling, JtagTicks;
    ghost var ops: seq<Op> := [SetLow(0, JTAG_PINS)];
    commands, spans := [SET_DATA_LOW, 0, JTAG_PINS], [];
    EncodeStart(tms, tdi, start);
    var offset, bits := 0, |tms|;
    while offset < bits
      invariant offset <= bits && Encoding(ops, commands, spans, tms, tdi, offset, start)
    {
      var width := 0;
      while width < 8 && offset + width < bits && !tms[offset + width]
        invariant width <= 8 && offset + width <= bits
        invariant forall i :: offset <= i < offset + width ==> !tms[i]
      {
        width := width + 1;
      }
      if width > 0 {
        var data := RunData(tdi, offset, width);
        ops := EncodeLow(ops, commands, spans, tms, tdi, offset, start, width, data);
        commands := commands + [SET_DATA_LOW, 0, JTAG_PINS, BITS_IO, width - 1, data];
      } else {
        width := 1;
        while width < 7 && offset + width < bits && tdi[offset + width] == tdi[offset]
          invariant 0 < width <= 7 && offset + width <= bits
          invariant forall i :: offset <= i < offset + width ==> tdi[i] == tdi[offset]
        {
          width := width + 1;
        }
        var data := HeldData(tms, offset, width, tdi[offset]);
        ops := EncodeHeld(ops, commands, spans, tms, tdi, offset, start, width, data);
        commands := commands + [TMS_IO, width - 1, data];
      }
      spans := spans + [Span(offset, width)];
      offset := offset + width;
    }
    EncodeEnd(ops, commands, spans, tms, tdi, start);
    commands := commands + [SEND_IMMEDIATE];
  }

  // ----- SWD -----

  const HOST_PINS: Octet := PIN_CLOCK + PIN_DATA_OUT

  /** The clocks a direction/output stream asks for: the host drives its own bits and releases the others. */
  ghost function SwdTicks(direction: seq<bool>, output: seq<bool>): (r: seq<Tick>)
    requires |direction| == |output|
    ensures |r| == |direction|
  {
    seq(|direction|, i requires 0 <= i < |direction| => Tick(if direction[i] then Some(output[i]) else None, None))
  }

  ghost function Released(direction: seq<bool>): (r: seq<bool>)
    ensures |r| == |direction|
  {
    seq(|direction|, i requires 0 <= i < |direction| => !direction[i])
  }

  lemma {:induction false} LowBit(data: Octet)
    ensures DataBit(data, 0) == (data % 2 == 1)
  {
  }

  lemma {:induction false} HostRun(t: Trace, direction: seq<bool>, output: seq<bool>, offset: nat, width: nat,
                                   data: Octet, first: Octet)
    requires |direction| == |output| && offset + width <= |direction| && 0 < width <= 8
    requires first == data % 2 * PIN_DATA_OUT
    requires Clocked(t, SwdTicks(direction, output), offset)
    requires forall i :: offset <= i < offset + width ==> direction[i]
    requires data == Value(output[offset..offset + width])
    ensures var now := Apply(Apply(t, SetLow(first, HOST_PINS)), ShiftOut(width, data));
            Clocked(now, SwdTicks(direction, output), offset + width) && now.spans == t.spans && now.steady == t.steady
  {
    LowBit(data);
    hide Value, BitsOf, Pow2, DataBit;
    var mid := Apply(t, SetLow(first, HOST_PINS));
    RunBits(output[offset..offset + width], data);
    assert forall i :: 0 <= i < width ==> DataBit(data, i) == output[offset..offset + width][i] == output[offset + i];
    var now := Apply(mid, ShiftOut(width, data));
    Extends(mid.ticks, now.ticks, SwdTicks(direction, output), offset, width);
  }

  lemma {:induction false} TargetRun(t: Trace, direction: seq<bool>, output: seq<bool>, offset: nat, width: nat)
    requires |direction| == |output| && offset + width <= |direction| && 0 < width <= 8
    requires Clocked(t, SwdTicks(direction, output), offset)
    requires forall i :: offset <= i < offset + width ==> !direction[i]
    ensures var now := Apply(Apply(t, SetLow(0, PIN_CLOCK)), ShiftIn(width));
            Clocked(now, SwdTicks(direction, output), offset + width) && now.spans == t.spans + [Span(offset, width)]
            && now.steady == t.steady
  {
    var mid := Apply(t, SetLow(0, PIN_CLOCK));
    var now := Apply(mid, ShiftIn(width));
    Extends(mid.ticks, now.ticks, SwdTicks(direction, output), offset, width);
  }

  /** Commands written so far: they clock the stream up to `offset`, and its released clocks are sampled. */
  ghost predicate SwdEncoding(ops: seq<Op>, commands: seq<Octet>, spans: seq<Span>, direction: seq<bool>,
                              output: seq<bool>, offset: nat, start: Pins)
    requires |direction| == |output|
  {
    && AllValid(ops) && commands == Stream(ops) && Sampling(spans, Released(direction), offset)
    && var t := Run(ops, start);
       Clocked(t, SwdTicks(direction, output), offset) && t.spans == spans && t.steady
  }

  lemma {:induction false} EncodeHost(ops: seq<Op>, commands: seq<Octet>, spans: seq<Span>, direction: seq<bool>,
                                      output: seq<bool>, offset: nat, start: Pins, width: nat, data: Octet,
                                      first: Octet) returns (more: seq<Op>)
    requires |direction| == |output| && SwdEncoding(ops, commands, spans, direction, output, offset, start)
    requires offset + width <= |direction| && 0 < width <= 8
    requires forall i :: offset <= i < offset + width ==> direction[i]
    requires data == Value(output[offset..offset + width]) && first == data % 2 * PIN_DATA_OUT
    ensures SwdEncoding(more, commands + [SET_DATA_LOW, first, HOST_PINS, BITS_OUT, width - 1, data], spans,
                        direction, output, offset + width, start)
  {
    hide Apply, Stream, Run, Value;
    var pins, shift := SetLow(first, HOST_PINS), ShiftOut(width, data);
    Emitted(ops, pins, start);
    Emitted(ops + [pins], shift, start);
    HostRun(Run(ops, start), direction, output, offset, width, data, first);
    DrivenMore(spans, Released(direction), offset, width);
    more := ops + [pins] + [shift];
    assert Encoded(pins) + Encoded(shift) == [SET_DATA_LOW, first, HOST_PINS, BITS_OUT, width - 1, data];
    assert commands + Encoded(pins) + Encoded(shift) == commands + (Encoded(pins) + Encoded(shift));
  }

  lemma {:induction false} EncodeTarget(ops: seq<Op>, commands: seq<Octet>, spans: seq<Span>, direction: seq<bool>,
                                        output: seq<bool>, offset: nat, start: Pins, width: nat) returns (more: seq<Op>)
    requires |direction| == |output| && SwdEncoding(ops, commands, spans, direction, output, offset, start)
    requires offset + width <= |direction| && 0 < width <= 8
    requires forall i :: offset <= i < offset + width ==> !direction[i]
    ensures SwdEncoding(more, commands + [SET_DATA_LOW, 0, PIN_CLOCK, BITS_IN, width - 1],
                        spans + [Span(offset, width)],
                        direction, output, offset + width, start)
  {
    hide Apply, Stream, Run;
    var pins, shift := SetLow(0, PIN_CLOCK), ShiftIn(width);
    Emitted(ops, pins, start);
    Emitted(ops + [pins], shift, start);
    TargetRun(Run(ops, start), direction, output, offset, width);
    SampledMore(spans, Released(direction), offset, width);
    more := ops + [pins] + [shift];
    assert Encoded(pins) + Encoded(shift) == [SET_DATA_LOW, 0, PIN_CLOCK, BITS_IN, width - 1];
    assert commands + Encoded(pins) + Encoded(shift) == commands + (Encoded(pins) + Encoded(shift));
  }

  lemma {:induction false} LetGo(t: Trace)
    ensures var now := Apply(t, SetLow(0, PIN_CLOCK));
            !now.pins.dataOut && now.ticks == t.ticks && now.spans == t.spans && now.steady == t.steady &&
            Apply(now, Flush) == now
  {
  }

  lemma {:induction false} SwdEncodeEnd(ops: seq<Op>, commands: seq<Octet>, spans: seq<Span>, direction: seq<bool>,
                                        output: seq<bool>, start: Pins)
    requires |direction| == |output| && SwdEncoding(ops, commands, spans, direction, output, |direction|, start)
    ensures var all := commands + [SET_DATA_LOW, 0, PIN_CLOCK] + if spans != [] then [SEND_IMMEDIATE] else [];
            var t := Engine(all, start);
            t.Some? && t.value.ticks == SwdTicks(direction, output) && t.value.spans == spans && t.value.steady &&
            !t.value.pins.dataOut
    ensures Sampling(spans, Released(direction), |direction|)
  {
    hide Apply, Stream, Run, Engine;
    var release := SetLow(0, PIN_CLOCK);
    Emitted(ops, release, start);
    Emitted(ops + [release], Flush, start);
    EngineRuns(ops + [release], start);
    EngineRuns(ops + [release] + [Flush], start);
    LetGo(Run(ops, start));
    assert commands + [SET_DATA_LOW, 0, PIN_CLOCK] + [] == commands + [SET_DATA_LOW, 0, PIN_CLOCK];
  }

  method RunWidth(direction: seq<bool>, offset: nat, hostDrives: bool) returns (width: nat)
    requires offset < |direction| && direction[offset] == hostDrives
    ensures 0 < width <= 8 && offset + width <= |direction|
    ensures forall i :: offset <= i < offset + width ==> direction[i] == hostDrives
    ensures width < 8 && offset + width < |direction| ==> direction[offset + width] != hostDrives
  {
    width := 1;
    while width < 8 && offset + width < |direction| && direction[offset + width] == hostDrives
      invariant 0 < width <= 8 && offset + width <= |direction|
      invariant forall i :: offset <= i < offset + width ==> direction[i] == hostDrives
    {
      width := width + 1;
    }
  }

  /** The commands for an SWD stream drive and release the line exactly as asked, and leave it released. */
  method SwdCommands(direction: seq<bool>, output: seq<bool>, ghost start: Pins)
    returns (commands: seq<Octet>, spans: seq<Span>)
    requires |direction| == |output|
    ensures var t := Engine(commands, start);
            t.Some? && t.value.ticks == SwdTicks(direction, output) && t.value.spans == spans && t.value.steady &&
            !t.value.pins.dataOut
    ensures Sampling(spans, Released(direction), |direction|)
  {
    hide Value, Pow2, SwdEncoding, Engine, Sampling, SwdTicks, Released;
    ghost var ops: seq<Op> := [];
    commands, spans := [], [];
    SwdEncodeStart(direction, output, start);
    var offset := 0;
    while offset < |direction|
      invariant offset <= |direction| && SwdEncoding(ops, commands, spans, direction, output, offset, start)
    {
      var hostDrives := direction[offset];
      var width := RunWidth(direction, offset, hostDrives);
      if hostDrives {
        var data := RunData(output, offset, width);
        var first := data % 2 * PIN_DATA_OUT;
        ops := EncodeHost(ops, commands, spans, direction, output, offset, start, width, data, first);
        commands := commands + [SET_DATA_LOW, first, HOST_PINS, BITS_OUT, width - 1, data];
      } else {
        ops := EncodeTarget(ops, commands, spans, direction, output, offset, start, width);
        commands := commands + [SET_DATA_LOW, 0, PIN_CLOCK, BITS_IN, width - 1];
        spans := spans + [Span(offset, width)];
      }
      offset := offset + width;
    }
    SwdEncodeEnd(ops, commands, spans, direction, output, start);
    commands := commands + [SET_DATA_LOW, 0, PIN_CLOCK] + if spans != [] then [SEND_IMMEDIATE] else [];
  }

  lemma {:induction false} SwdEncodeStart(direction: seq<bool>, output: seq<bool>, start: Pins)
    requires |direction| == |output|
    ensures SwdEncoding([], [], [], direction, output, 0, start)
  {
  }

  // ----- Responses -----

  /** Samples enter the response register at the top and move down. */
  function ShiftedIn(register: seq<bool>, samples: seq<bool>): (r: seq<bool>)
    requires |register| == 8
    ensures |r| == 8
    decreases |samples|
  {
    if samples == [] then register
    else ShiftedIn(register, samples[..|samples| - 1])[1..] + [samples[|samples| - 1]]
  }

  lemma {:induction false} ShiftedInAt(register: seq<bool>, samples: seq<bool>)
    requires |register| == 8 && |samples| <= 8
    ensures ShiftedIn(register, samples) == register[|samples|..] + samples
    decreases |samples|
  {
    if samples != [] {
      var init := samples[..|samples| - 1];
      ShiftedInAt(register, init);
      assert init + [samples[|samples| - 1]] == samples;
      assert (register[|init|..] + init)[1..] == register[|samples|..] + init;
    }
  }

  /** The high bits of a number are what is left after dividing the low ones away. */
  lemma {:induction false} HighBits(low: seq<bool>, high: seq<bool>)
    ensures Value(low + high) / Pow2(|low|) == Value(high)
  {
    if low == [] {
      assert low + high == high;
    } else {
      HighBits(low[1..], high);
      assert (low + high)[1..] == low[1..] + high;
      Halved(Bit(low[0]), Value(low[1..] + high), Pow2(|low| - 1));
    }
  }

  lemma {:induction false} Halved(b: nat, v: nat, m: nat)
    requires b <= 1 && m > 0
    ensures (b + 2 * v) / (2 * m) == v / m
  {
    var q, r := v / m, v % m;
    assert v == q * m + r;
    var x := b + 2 * v;
    assert x == q * (2 * m) + (2 * r + b);
    var d := x / (2 * m) - q;
    assert x == x / (2 * m) * (2 * m) + x % (2 * m);
    assert d * (2 * m) == x / (2 * m) * (2 * m) - q * (2 * m);
    assert d >= 1 ==> d * (2 * m) >= 2 * m;
    assert d <= -1 ==> d * (2 * m) <= 0 - 2 * m;
  }

  /** Response byte `k` is the register after the samples of span `k`. */
  ghost predicate Answers(response: seq<Octet>, spans: seq<Span>, line: seq<bool>, registers: nat -> seq<bool>)
    requires Ordered(spans, |line|)
  {
    && |response| == |spans|
    && forall k :: 0 <= k < |spans| ==>
        && |registers(k)| == 8
        && response[k] == Value(ShiftedIn(registers(k), line[spans[k].offset..spans[k].offset + spans[k].bits]))
  }

  /** Shifted down, a response byte is the span's samples. */
  lemma {:induction false} AnswerBits(register: seq<bool>, samples: seq<bool>, answer: Octet)
    requires |register| == 8 && 0 < |samples| <= 8 && answer == Value(ShiftedIn(register, samples))
    ensures answer / Pow2(8 - |samples|) == Value(samples)
  {
    hide Value, Pow2, ShiftedIn;
    ShiftedInAt(register, samples);
    HighBits(register[|samples|..], samples);
  }

  /** The sampled levels, each at its own clock; a clock no span covers reads as low. */
  ghost predicate Decoded(input: seq<bool>, spans: seq<Span>, line: seq<bool>) {
    |input| == |line| && forall i :: 0 <= i < |line| ==> input[i] == (Covers(spans, i) && line[i])
  }

  /** The first `n` bits of one span are placed. */
  ghost predicate Placed(was: seq<bool>, now: seq<bool>, span: Span, n: nat, line: seq<bool>) {
    && |was| == |now| == |line| && span.offset + n <= |line|
    && forall i :: 0 <= i < |line| ==> now[i] == if span.offset <= i < span.offset + n then line[i] else was[i]
  }

  method PlaceSpan(was: seq<bool>, answer: Octet, span: Span, ghost line: seq<bool>, ghost register: seq<bool>)
    returns (input: seq<bool>)
    requires |was| == |line| && 0 < span.bits <= 8 && span.offset + span.bits <= |line| && |register| == 8
    requires answer == Value(ShiftedIn(register, line[span.offset..span.offset + span.bits]))
    requires forall i :: span.offset <= i < span.offset + span.bits ==> !was[i]
    ensures Placed(was, input, span, span.bits, line)
  {
    hide Value, ShiftedIn, Pow2, BitsOf;
    ghost var s := line[span.offset..span.offset + span.bits];
    AnswerBits(register, s, answer);
    SmallValue(s);
    var samples: Octet := answer / Pow2(8 - span.bits);
    RunBits(s, samples);
    input := was;
    for bit := 0 to span.bits
      invariant Placed(was, input, span, bit, line)
    {
      if DataBit(samples, bit) {
        input := input[span.offset + bit := true];
      }
      assert s[bit] == line[span.offset + bit];
    }
  }

  /** Decoding returns every sampled level at the clock it was sampled on. */
  method Decode(response: seq<Octet>, spans: seq<Span>, bits: nat, ghost line: seq<bool>,
                ghost registers: nat -> seq<bool>)
    returns (input: seq<bool>)
    requires |line| == bits && Ordered(spans, bits) && Answers(response, spans, line, registers)
    ensures Decoded(input, spans, line)
  {
    hide Value, ShiftedIn;
    input := seq(bits, _ => false);
    for index := 0 to |spans|
      invariant Decoded(input, spans[..index], line)
    {
      ghost var was := input;
      NotYet(spans, index, bits, was, line);
      input := PlaceSpan(input, response[index], spans[index], line, registers(index));
      DecodedMore(spans, index, bits, was, input, line);
    }
    assert spans[..|spans|] == spans;
  }

  lemma {:induction false} NotYet(spans: seq<Span>, index: nat, bits: nat, was: seq<bool>, line: seq<bool>)
    requires index < |spans| && Ordered(spans, bits) && |line| == bits && Decoded(was, spans[..index], line)
    ensures forall i :: spans[index].offset <= i < spans[index].offset + spans[index].bits ==> !was[i]
  {
    forall i | spans[index].offset <= i < spans[index].offset + spans[index].bits
      ensures !Covers(spans[..index], i)
    {
      assert forall k :: 0 <= k < index ==> spans[..index][k] == spans[k];
    }
  }

  lemma {:induction false} DecodedMore(spans: seq<Span>, index: nat, bits: nat, was: seq<bool>, now: seq<bool>,
                                       line: seq<bool>)
    requires index < |spans| && Ordered(spans, bits) && |line| == bits && Decoded(was, spans[..index], line)
    requires Placed(was, now, spans[index], spans[index].bits, line)
    ensures Decoded(now, spans[..index + 1], line)
  {
    var before, after := spans[..index], spans[..index + 1];
    forall i | 0 <= i < |line|
      ensures now[i] == (Covers(after, i) && line[i])
    {
      if spans[index].offset <= i < spans[index].offset + spans[index].bits {
        assert after[index] == spans[index];
      } else {
        assert forall k :: 0 <= k < index ==> after[k] == before[k];
        assert after[index] == spans[index];
      }
    }
  }

  // ----- One exchange -----

  const MAX_BITS := 8192

  /** What a device that samples `line` answers to the spans of a command stream. */
  method Device(spans: seq<Span>, line: seq<bool>, registers: nat -> seq<bool>) returns (response: seq<Octet>)
    requires Ordered(spans, |line|) && forall k: nat :: |registers(k)| == 8
    ensures Answers(response, spans, line, registers)
  {
    hide ShiftedIn;
    response := [];
    for k := 0 to |spans|
      invariant Ordered(spans[..k], |line|) && Answers(response, spans[..k], line, registers)
    {
      var s := ShiftedIn(registers(k), line[spans[k].offset..spans[k].offset + spans[k].bits]);
      SmallValue(s);
      response := response + [Value(s)];
      assert forall j :: 0 <= j <= k ==> spans[..k + 1][j] == spans[j];
    }
    assert spans[..|spans|] == spans;
  }

  /**
    * One SWD exchange: a stream that is too long is refused, an empty one makes no clock; otherwise the line
    * is driven and released exactly as asked, and each released clock returns the level sampled on it.
    */
  method SwdIo(direction: seq<bool>, output: seq<bool>, line: seq<bool>, registers: nat -> seq<bool>, ghost start: Pins)
    returns (input: Option<seq<bool>>, commands: seq<Octet>)
    requires |direction| == |output| == |line| && forall k: nat :: |registers(k)| == 8
    ensures input.None? <==> |direction| > MAX_BITS
    ensures |direction| == 0 || |direction| > MAX_BITS ==> commands == []
    ensures 0 < |direction| <= MAX_BITS ==>
              Engine(commands, start).Some? && Engine(commands, start).value.ticks == SwdTicks(direction, output)
    ensures input.Some? ==>
              && |input.value| == |direction|
              && forall i :: 0 <= i < |direction| ==> input.value[i] == (!direction[i] && line[i])
  {
    hide Engine, SwdTicks, Answers;
    if |direction| > MAX_BITS {
      return None, [];
    }
    if |direction| == 0 {
      return Some([]), [];
    }
    var spans;
    commands, spans := SwdCommands(direction, output, start);
    var response := Device(spans, line, registers);
    var decoded := Decode(response, spans, |direction|, line, registers);
    return Some(decoded), commands;
  }

  /** One JTAG exchange: exactly the TMS and TDI stream is clocked, and TDO is returned for every clock. */
  method JtagIo(tms: seq<bool>, tdi: seq<bool>, line: seq<bool>, registers: nat -> seq<bool>, ghost start: Pins)
    returns (input: Option<seq<bool>>, commands: seq<Octet>)
    requires |tms| == |tdi| == |line| && forall k: nat :: |registers(k)| == 8
    ensures input.None? <==> |tms| > MAX_BITS
    ensures |tms| == 0 || |tms| > MAX_BITS ==> commands == []
    ensures 0 < |tms| <= MAX_BITS ==>
              Engine(commands, start).Some? && Engine(commands, start).value.ticks == JtagTicks(tms, tdi)
    ensures input.Some? ==> input.value == line
  {
    hide Engine, JtagTicks, Answers;
    if |tms| > MAX_BITS {
      return None, [];
    }
    if |tms| == 0 {
      return Some([]), [];
    }
    var spans;
    commands, spans := JtagCommands(tms, tdi, start);
    var response := Device(spans, line, registers);
    var decoded := Decode(response, spans, |tms|, line, registers);
    return Some(decoded), commands;
  }
}
