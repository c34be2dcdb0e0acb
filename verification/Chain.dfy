/** A chain of TAPs with a known layout, and access to one TAP with all others in BYPASS. */
module JtagChain {
  import opened Options
  import opened Contexts
  import opened Bits
  import opened Rows
  import opened JtagTap
  import opened JtagDevice
  import opened JtagConn
  import opened JtagDiscover
  import opened JtagMeasure
  import opened JtagTrace

  /** What is expected of one TAP. */
  datatype Spec = Spec(ir: nat, reset: Observed)

  /** A borrowed position in a chain. */
  datatype Tap = Tap(index: nat, generation: nat)

  const MAX_IR_BITS := 65536

  function IrLengths(layout: seq<Spec>): (l: seq<nat>)
    ensures |l| == |layout| && forall i :: 0 <= i < |l| ==> l[i] == layout[i].ir
  {
    seq(|layout|, i requires 0 <= i < |layout| => layout[i].ir)
  }

  predicate ValidLayout(layout: seq<Spec>) {
    0 < |layout| <= 1024 && forall i :: 0 <= i < |layout| ==> 2 <= layout[i].ir <= 64
  }

  /** The bits of `data` from `offset` on. */
  method Extract(data: seq<bool>, offset: nat, bits: nat) returns (s: seq<bool>)
    requires offset + bits <= |data|
    ensures s == data[offset..offset + bits]
  {
    s := [];
    for i := 0 to bits
      invariant s == data[offset..offset + i]
    {
      s := s + [data[offset + i]];
    }
  }

  /** `fill` with `bits` put in at `offset`. */
  method Insert(fill: seq<bool>, offset: nat, bits: seq<bool>) returns (s: seq<bool>)
    requires offset + |bits| <= |fill|
    ensures s == fill[..offset] + bits + fill[offset + |bits|..]
  {
    s := fill;
    for i := 0 to |bits|
      invariant s == fill[..offset] + bits[..i] + fill[offset + i..]
    {
      s := s[offset + i := bits[i]];
    }
  }

  class Chain {
    const conn: Conn
    const layout: seq<Spec>
    const irBits: nat
    var serial: nat
    var generation: nat
    var valid: bool
    var released: bool
    var selected: Option<nat>

    constructor (conn: Conn, layout: seq<Spec>)
      requires conn.Valid() && ValidLayout(layout)
      ensures Valid() && this.conn == conn && this.layout == layout && released
    {
      this.conn, this.layout := conn, layout;
      irBits := Total(IrLengths(layout), |layout|);
      serial, generation, valid, released, selected := 0, 0, false, true, None;
    }

    /** The layout's instruction lengths are those of the chain. They cannot be inferred. */
    ghost predicate Describes() {
      IrLengths(layout) == conn.wire.env.ir
    }

    predicate Ready()
      reads this, conn
    {
      valid && serial == conn.serial
    }

    /** Every TAP but the selected one holds BYPASS, and the controller is at rest. */
    ghost predicate Isolated()
      reads this, conn, conn.wire
    {
      Sound(conn.wire.env, conn.wire.d) && conn.state == At(Idle) && Alone(conn.wire.env, conn.wire.d, selected)
    }

    ghost predicate Valid()
      reads this, conn, conn.wire
    {
      && conn.Valid() && ValidLayout(layout) && irBits == Total(IrLengths(layout), |layout|)
      && serial <= conn.serial
      && (Ready() && Describes() ==> Isolated())
    }

    predicate Lent(t: Tap)
      reads this, conn
    {
      Ready() && t.generation == generation && t.index < |layout|
    }

    method Borrow(index: int) returns (t: Option<Tap>)
      requires Valid()
      ensures t.Some? ==> Lent(t.value) && t.value.index == index
      ensures t.None? <==> !Ready() || !(0 <= index < |layout|)
    {
      if !Ready() || index < 0 || index >= |layout| {
        return None;
      }
      return Some(Tap(index, generation));
    }

    /** Takes note of a chain operation; a failed one invalidates the chain. */
    method Finish(err: bool)
      requires conn.Valid()
      modifies this`serial, this`valid, this`selected
      ensures serial == conn.serial && valid == (old(valid) && !err) && selected == if err then None else old(selected)
    {
      serial := conn.serial;
      if err {
        valid, selected := false, None;
      }
    }

    /** Gives one TAP an instruction and all others BYPASS; returns what it captured. */
    method TapScanIr(t: Tap, ctx: Ctx, instruction: seq<bool>) returns (capture: Option<seq<bool>>)
      requires Valid()
      modifies this`serial, this`valid, this`selected, conn`state, conn`serial, conn.wire, ctx
      ensures Valid() && generation == old(generation)
      ensures ctx.budget <= old(ctx.budget)
      ensures capture.Some? ==>
                old(Lent(t)) && Ready() && selected == Some(t.index) && |instruction| == layout[t.index].ir
      ensures capture.Some? && Describes() ==>
                && conn.wire.d.instructions[t.index] == instruction && conn.wire.d.hist == old(conn.wire.d.hist)
                && capture.value == IrCapture(conn.wire.env, t.index)
      ensures !old(Lent(t)) ==> capture.None? && conn.serial == old(conn.serial) && Ready() == old(Ready())
      ensures Describes() ==> conn.wire.d.hist == old(conn.wire.d.hist)
      ensures Describes() ==> conn.wire.d == old(conn.wire.d) || Partway(old(conn.wire.d), conn.wire.d, true)
    {
      hide Sound, Total, Clock, Out, Alone, Scan, Captured, Entered, Partway;
      if !Lent(t) || |instruction| != layout[t.index].ir {
        return None;
      }
      ghost var env, d := conn.wire.env, conn.wire.d;
      var offset := Offset(t.index);
      OffsetWithin(IrLengths(layout), t.index);
      var data := Insert(Ones(irBits), offset, instruction);
      var row, err, d1 := conn.ScanRow(ctx, data, irBits, true);
      InstructionsOnly(env, d, data[..irBits]);
      Finish(err || row.None?);
      if err || row.None? {
        return None;
      }
      assert data[..irBits] == data;
      RowLength(env, d1, true, data, row.value);
      if Describes() {
        InstructionOutcome(env, d, d1, t.index, instruction, data, row.value);
      }
      selected := Some(t.index);
      var s := Extract(row.value, offset, |instruction|);
      capture := Some(s);
    }

    /** The first bit of a TAP's instruction in the row. */
    method Offset(index: nat) returns (offset: nat)
      requires index < |layout|
      ensures offset == Total(IrLengths(layout), index)
    {
      offset := 0;
      for i := 0 to index
        invariant offset == Total(IrLengths(layout), i)
      {
        offset := offset + layout[i].ir;
      }
    }

    /** Scans the data register of the selected TAP through the bypass bits of the others. */
    method TapScanDr(t: Tap, ctx: Ctx, data: seq<bool>, bits: int) returns (capture: Option<seq<bool>>)
      requires Valid()
      modifies this`serial, this`valid, this`selected, conn`state, conn`serial, conn.wire, ctx
      ensures Valid() && generation == old(generation)
      ensures ctx.budget <= old(ctx.budget)
      ensures Describes() ==> conn.wire.d == old(conn.wire.d) || Partway(old(conn.wire.d), conn.wire.d, false)
      ensures conn.serial != old(conn.serial) ==> old(Lent(t)) && old(selected) == Some(t.index)
      ensures conn.serial != old(conn.serial) && Describes() ==> Alone(conn.wire.env, old(conn.wire.d), Some(t.index))
      ensures capture.Some? ==>
                0 < bits <= |data| && old(Lent(t)) && Ready() && selected == old(selected) == Some(t.index)
      ensures capture.Some? && Describes() &&
              |DrCapture(conn.wire.env, old(conn.wire.d.instructions)[t.index], old(conn.wire.d.hist), t.index)| ==
              bits ==>
                && capture.value == DrCapture(conn.wire.env, old(conn.wire.d.instructions)[t.index],
                                              old(conn.wire.d.hist), t.index)
                && Updated(conn.wire.env, old(conn.wire.d), conn.wire.d, t.index, data[..bits])
      ensures conn.wire.d.hist != old(conn.wire.d.hist) && Describes() ==> 0 < bits <= |data| && t.index < |layout|
      ensures conn.wire.d.hist != old(conn.wire.d.hist) && Describes() &&
              |DrCapture(conn.wire.env, old(conn.wire.d.instructions)[t.index], old(conn.wire.d.hist), t.index)| ==
              bits ==>
                Extended(conn.wire.env, old(conn.wire.d), conn.wire.d.hist, t.index, data[..bits])
    {
      hide Sound, Clock, Out, DrCapture, Updated, Extended, Alone, Scan, Captured, Entered, Partway;
      if !Lent(t) || selected != Some(t.index) || bits <= 0 || bits > MAX_SCAN_BITS - |layout| + 1 || |data| < bits {
        return None;
      }
      ghost var env, d := conn.wire.env, conn.wire.d;
      var total := bits + |layout| - 1;
      var input := Insert(Zeros(total), t.index, data[..bits]);
      var row, err, d1 := conn.ScanRow(ctx, input, total, false);
      assert input[..total] == input;
      if Describes() {
        DataPart(env, d, t.index, data[..bits], input);
      }
      Finish(err || row.None?);
      if err || row.None? {
        return None;
      }
      RowLength(env, d1, false, input, row.value);
      if Describes() {
        DataOutcome(env, d, d1, t.index, data[..bits], input, row.value);
      }
      var s := Extract(row.value, t.index, bits);
      capture := Some(s);
    }

    /** Clocks for the selected instruction to work with. */
    method TapIdle(t: Tap, ctx: Ctx, cycles: int) returns (ok: bool)
      requires Valid()
      modifies this`serial, this`valid, this`selected, conn`state, conn`serial, conn.wire, ctx
      ensures Valid() && generation == old(generation)
      ensures ok ==> old(Lent(t)) && Ready() && selected == old(selected)
      ensures ok && Describes() ==> conn.wire.d == old(conn.wire.d)
    {
      hide Sound, Clock, Out, Alone;
      if !Lent(t) {
        return false;
      }
      ok := conn.RunIdle(ctx, cycles);
      Finish(!ok);
    }

    // ----- Connecting -----

    ghost predicate Resetting(regs: seq<Observed>) {
      |regs| == |layout| && forall i :: 0 <= i < |layout| ==> regs[i] == layout[i].reset
    }

    /** Every instruction capture starts with 1 and 0, and the row ends where it should. */
    method CheckIr(capture: seq<bool>) returns (ok: bool)
      requires |capture| == irBits + 32 && Valid()
      ensures ok <==>
                && capture[irBits..irBits + 32] == Ones(32)
                && forall i :: 0 <= i < |layout| ==> Boundary(capture, Total(IrLengths(layout), i))
    {
      hide Sound, Value, Pow2;
      var offset := 0;
      for i := 0 to |layout|
        invariant offset == Total(IrLengths(layout), i)
        invariant forall j :: 0 <= j < i ==> Boundary(capture, Total(IrLengths(layout), j))
      {
        OffsetWithin(IrLengths(layout), i);
        if !capture[offset] || capture[offset + 1] {
          assert !Boundary(capture, Total(IrLengths(layout), i));
          return false;
        }
        offset := offset + layout[i].ir;
      }
      var word := WordAt(capture, offset);
      ghost var rest := capture[offset..offset + 32];
      AllOnes(rest);
      Pow32();
      ok := word == 0xffff_ffff;
      assert ok <==> forall i :: 0 <= i < 32 ==> rest[i];
      assert rest == Ones(32) <==> forall i :: 0 <= i < 32 ==> rest[i];
    }

    /** Checks the chain against the layout and parks it. Success means that the reset
        registers and the total instruction length are those of the layout. */
    method Connect(ctx: Ctx, ghost regs: seq<Observed>) returns (ok: bool)
      requires Valid()
      modifies this`serial, this`valid, this`selected, this`generation, this`released, conn`state, conn`serial,
               conn.wire, ctx
      ensures Valid() && generation == old(generation) + 1 && Ready() == ok
      ensures Traced(conn.wire.env, old(conn.wire.d), conn.wire.d)
      ensures conn.serial != old(conn.serial) ==> !released
      ensures conn.serial == old(conn.serial) ==> released == old(released) && !ok
      ensures ok && Resets(conn.wire.env, regs) ==> Resetting(regs)
      ensures ok && 2 <= Total(conn.wire.env.ir, |conn.wire.env.ir|) <= MAX_IR_BITS ==>
                Total(conn.wire.env.ir, |conn.wire.env.ir|) == irBits && Parked(conn.wire.env, conn.wire.d)
    {
      hide Sound, Clock, Out, Total, Resets, Scan, Captured, Entered, Expected, Parked;
      valid, selected := false, None;
      var before := conn.serial;
      generation := generation + 1;
      ok := Inspect(ctx, regs);
      if conn.serial != before {
        released := false;
      }
      if ok {
        serial, valid := conn.serial, true;
        if Describes() {
          ParkedAlone(conn.wire.env, conn.wire.d);
        }
      }
    }

    /** The checks of Connect, with the chain not yet in use. */
    method Inspect(ctx: Ctx, ghost regs: seq<Observed>) returns (ok: bool)
      requires Valid() && !valid
      modifies conn`state, conn`serial, conn.wire, ctx
      ensures conn.Valid() && conn.serial >= old(conn.serial) &&
              (ok ==> conn.serial > old(conn.serial) && conn.state == At(Idle))
      ensures Traced(conn.wire.env, old(conn.wire.d), conn.wire.d)
      ensures ok && Resets(conn.wire.env, regs) ==> Resetting(regs)
      ensures ok && Describes() ==> Parked(conn.wire.env, conn.wire.d)
      ensures ok && 2 <= Total(conn.wire.env.ir, |conn.wire.env.ir|) <= MAX_IR_BITS ==>
                Total(conn.wire.env.ir, |conn.wire.env.ir|) == irBits && Parked(conn.wire.env, conn.wire.d)
    {
      hide Sound, Clock, Out, Total, Resets, Scan, Captured, Entered, Parked, Traced;
      ghost var env, d := conn.wire.env, conn.wire.d;
      var found := Discover(conn, ctx, |layout|, regs);
      if found.None? || !found.value.Complete? || |found.value.found| != |layout| {
        return false;
      }
      for i := 0 to |layout|
        invariant forall j :: 0 <= j < i ==> found.value.found[j] == layout[j].reset
      {
        if found.value.found[i] != layout[i].reset {
          return false;
        }
      }
      ghost var discovered := conn.wire.d;
      var length, complete := MeasureIr(conn, ctx, MAX_IR_BITS);
      PartwayTraced(env, discovered, conn.wire.d, true);
      TracedMore(env, d, discovered, conn.wire.d);
      if length != Some(irBits) {
        return false;
      }
      ghost var measured := conn.wire.d;
      var capture, err, d1 := conn.ScanRow(ctx, Ones(irBits + 32), irBits + 32, true);
      PartwayTraced(env, measured, conn.wire.d, true);
      TracedMore(env, d, measured, conn.wire.d);
      if err || capture.None? {
        return false;
      }
      assert Ones(irBits + 32)[..irBits + 32] == Ones(irBits + 32);
      RowLength(env, d1, true, Ones(irBits + 32), capture.value);
      ok := CheckIr(capture.value);
      if Total(env.ir, |env.ir|) <= irBits + 32 {
        ParkScan(env, d1, irBits + 32);
      }
    }

    /** Parks the chain in BYPASS and Idle, after validating it again if need be. */
    method Release(ctx: Ctx, ghost regs: seq<Observed>) returns (err: bool)
      requires Valid()
      modifies this`serial, this`valid, this`selected, this`generation, this`released, conn`state, conn`serial,
               conn.wire, ctx
      ensures Valid()
      ensures released && !old(released) ==>
                conn.state == At(Idle) && !valid && (Describes() ==> Parked(conn.wire.env, conn.wire.d))
      ensures !err ==> released
    {
      hide Sound, Clock, Out, Total, Resets, Scan, Captured, Entered, Parked, Alone;
      if released {
        return false;
      }
      if !Ready() {
        var ok := Connect(ctx, regs);
        if !ok {
          return true;
        }
      }
      valid, generation := false, generation + 1;
      var capture, e, d1 := conn.ScanRow(ctx, Ones(irBits), irBits, true);
      released, err := capture.Some?, e;
      if capture.Some? && Describes() {
        assert Ones(irBits)[..irBits] == Ones(irBits);
        ParkScan(conn.wire.env, d1, irBits);
      }
    }
  }

  /** An instruction capture begins here. */
  ghost predicate Boundary(capture: seq<bool>, at: nat) {
    at + 1 < |capture| && capture[at] && !capture[at + 1]
  }

  /** Shifting in enough ones parks the chain. */
  lemma {:induction false} ParkScan(env: Env, d: Device, n: nat)
    requires Sound(env, d) && Total(env.ir, |env.ir|) <= n
    ensures Sound(env, Scan(env, d, true, Ones(n))) ==> Parked(env, Scan(env, d, true, Ones(n)))
  {
    hide Flat, Lens, Total, Sound;
    var parts := IrCaptures(env);
    IrLens(env);
    FlatLength(parts, |parts|);
    FlushedOnes(Flat(parts, |parts|), n);
    PartsOnes(env.ir);
  }

  lemma {:induction false} ParkedAlone(env: Env, d: Device)
    requires Sound(env, d) && Parked(env, d)
    ensures Alone(env, d, None)
  {
    hide Sound, Bypass;
  }

  // ----- What the scans do -----

  /** Every TAP but `selected` holds BYPASS. */
  ghost predicate Alone(env: Env, d: Device, selected: Option<nat>)
    requires Sound(env, d)
  {
    forall i :: 0 <= i < |env.ir| && selected != Some(i) ==> Bypass(env, d.instructions[i], i)
  }

  /** Exactly one data register was updated: that of TAP `k`, with `data`. */
  ghost predicate Updated(env: Env, d: Device, e: Device, k: nat, data: seq<bool>)
    requires Sound(env, d)
  {
    e.instructions == d.instructions && Extended(env, d, e.hist, k, data)
  }

  ghost predicate Extended(env: Env, d: Device, hist: seq<Update>, k: nat, data: seq<bool>)
    requires Sound(env, d)
  {
    && |hist| == |d.hist| + 1 && hist[..|d.hist|] == d.hist
    && var u := hist[|d.hist|];
       && u.instructions == d.instructions && |u.data| == |env.ir| && k < |env.ir| && u.data[k] == data
       && forall i :: 0 <= i < |env.ir| && i != k ==> Bypass(env, u.instructions[i], i)
  }

  lemma {:induction false} OffsetWithin(lens: seq<nat>, k: nat)
    requires k < |lens|
    ensures Total(lens, k) + lens[k] <= Total(lens, |lens|)
  {
    TotalGrows(lens, k + 1, |lens|);
  }

  lemma {:induction false} RowLength(env: Env, d: Device, ir: bool, data: seq<bool>, row: seq<bool>)
    requires Sound(env, d) && row == (Captured(env, d, ir) + data)[..|data|]
    ensures |row| == |data|
  {
  }

  /** A chain at rest in Idle is scanned as it is. */
  lemma {:induction false} Rested(env: Env, d: Device, d1: Device)
    requires Sound(env, d) && d.state.Idle? && d1.state.Idle? && Entered(env, d, d1)
    ensures d1 == d
  {
    hide Sound, Clock, Shortest;
    var path :| Shortest(d.state, path, d1.state) && d1 == Clock(env, d, path, Zeros(|path|), |path|);
    StayPath(path);
    ClockNone(env, d, path, Zeros(|path|));
  }

  /** A whole row of instructions goes in, and the captures come out. */
  lemma {:induction false} WholeRow(captured: seq<bool>, data: seq<bool>)
    requires |captured| == |data|
    ensures (captured + data)[|data|..|data| + |captured|] == data && (captured + data)[..|data|] == captured
  {
  }

  /** `bits` for TAP `k` and ones for the others. */
  ghost predicate OnesBut(lens: seq<nat>, k: nat, bits: seq<bool>, data: seq<bool>) {
    && k < |lens| && |bits| == lens[k] && Total(lens, k) + lens[k] <= Total(lens, |lens|)
    && var total, at := Total(lens, |lens|), Total(lens, k);
       data == Ones(total)[..at] + bits + Ones(total)[at + |bits|..]
  }

  lemma {:induction false} OnePart(lens: seq<nat>, k: nat, bits: seq<bool>, data: seq<bool>, i: nat)
    requires OnesBut(lens, k, bits, data) && i < |lens|
    ensures |data| == Total(lens, |lens|) && Part(data, lens, i) == if i == k then bits else Ones(lens[i])
  {
    TotalGrows(lens, i + 1, |lens|);
    assert Total(lens, i + 1) == Total(lens, i) + lens[i];
    assert Total(lens, k + 1) == Total(lens, k) + lens[k];
    if i < k {
      TotalGrows(lens, i + 1, k);
    } else if i > k {
      TotalGrows(lens, k + 1, i);
    }
    hide Total;
    var p := Part(data, lens, i);
    forall j | 0 <= j < |p|
      ensures p[j] == if i == k then bits[j] else true
    {
      assert p[j] == data[Total(lens, i) + j];
    }
  }

  /** The instructions after a scan of the whole row. */
  lemma {:induction false} InstructionScan(env: Env, d: Device, k: nat, instruction: seq<bool>, data: seq<bool>)
    requires Sound(env, d) && k < |env.ir| && OnesBut(env.ir, k, instruction, data)
    ensures var e := Scan(env, d, true, data);
            |e.instructions| == |env.ir| && e.instructions[k] == instruction && e.hist == d.hist
    ensures Sound(env, Scan(env, d, true, data)) ==> Alone(env, Scan(env, d, true, data), Some(k))
  {
    hide Total, Flat, Lens, OnesBut, Part, Sound;
    var parts := IrCaptures(env);
    IrLens(env);
    FlatLength(parts, |parts|);
    OnePart(env.ir, k, instruction, data, k);
    WholeRow(Flat(parts, |parts|), data);
    forall i | 0 <= i < |env.ir|
      ensures Part(data, env.ir, i) == if i == k then instruction else Ones(env.ir[i])
    {
      OnePart(env.ir, k, instruction, data, i);
    }
  }

  /** What one TAP captured, out of the whole row. */
  lemma {:induction false} InstructionCapture(env: Env, d: Device, k: nat, data: seq<bool>, row: seq<bool>)
    requires Sound(env, d) && k < |env.ir| && |data| == Total(env.ir, |env.ir|)
    requires row == (Captured(env, d, true) + data)[..|data|]
    ensures Total(env.ir, k) + env.ir[k] <= |row| &&
            row[Total(env.ir, k)..Total(env.ir, k) + env.ir[k]] == IrCapture(env, k)
  {
    hide Flat, Lens;
    var parts := IrCaptures(env);
    var flat := Flat(parts, |parts|);
    IrLens(env);
    FlatLength(parts, |parts|);
    WholeRow(flat, data);
    PartOfFlat(parts, [], k);
    assert flat + [] == flat;
    OffsetWithin(env.ir, k);
    assert Total(env.ir, k + 1) == Total(env.ir, k) + env.ir[k];
  }

  lemma {:induction false} InstructionOutcome(env: Env, d: Device, d1: Device, k: nat, instruction: seq<bool>,
                                              data: seq<bool>, row: seq<bool>)
    requires Sound(env, d) && d.state.Idle? && Sound(env, d1) && d1.state.Idle? && Entered(env, d, d1)
    requires k < |env.ir| && OnesBut(env.ir, k, instruction, data) && row == (Captured(env, d1, true) + data)[..|data|]
    ensures var e := Scan(env, d1, true, data);
            |e.instructions| == |env.ir| && e.instructions[k] == instruction && e.hist == d.hist
    ensures Sound(env, Scan(env, d1, true, data)) ==> Alone(env, Scan(env, d1, true, data), Some(k))
    ensures Total(env.ir, k) + env.ir[k] <= |row| &&
            row[Total(env.ir, k)..Total(env.ir, k) + env.ir[k]] == IrCapture(env, k)
  {
    hide Sound, Entered, Scan, Captured, Total, Alone;
    Rested(env, d, d1);
    OnePart(env.ir, k, instruction, data, k);
    InstructionScan(env, d, k, instruction, data);
    InstructionCapture(env, d, k, data, row);
  }

  lemma {:induction false} DataOutcome(env: Env, d: Device, d1: Device, k: nat, data: seq<bool>, input: seq<bool>,
                                       row: seq<bool>)
    requires Sound(env, d) && d.state.Idle? && Sound(env, d1) && d1.state.Idle? && Entered(env, d, d1)
    requires Alone(env, d, Some(k)) && k < |env.ir| && row == (Captured(env, d1, false) + input)[..|input|]
    requires var total := |data| + |env.ir| - 1; input == Zeros(total)[..k] + data + Zeros(total)[k + |data|..]
    ensures Sound(env, Scan(env, d1, false, input)) ==> Alone(env, Scan(env, d1, false, input), Some(k))
    ensures |DrCapture(env, d.instructions[k], d.hist, k)| == |data| ==>
              && Updated(env, d, Scan(env, d1, false, input), k, data)
              && k + |data| <= |row| && row[k..k + |data|] == DrCapture(env, d.instructions[k], d.hist, k)
  {
    hide Entered, Scan, Captured, DrCapture, Updated, Extended, Total;
    Rested(env, d, d1);
    ScanKeeps(env, d, input);
    if |DrCapture(env, d.instructions[k], d.hist, k)| == |data| {
      DataScan(env, d, k, data, input, row);
    }
  }

  lemma {:induction false} InstructionsOnly(env: Env, d: Device, data: seq<bool>)
    requires Sound(env, d)
    ensures Scan(env, d, true, data).hist == d.hist
  {
  }

  /** The update of a complete scan, whether or not the scan was seen to complete. */
  lemma {:induction false} DataPart(env: Env, d: Device, k: nat, data: seq<bool>, input: seq<bool>)
    requires Sound(env, d) && Alone(env, d, Some(k)) && k < |env.ir|
    requires var total := |data| + |env.ir| - 1; input == Zeros(total)[..k] + data + Zeros(total)[k + |data|..]
    ensures |DrCapture(env, d.instructions[k], d.hist, k)| == |data| ==>
              Extended(env, d, Scan(env, d, false, input).hist, k, data)
  {
    hide Scan, Captured, DrCapture, Extended, Alone;
    if |DrCapture(env, d.instructions[k], d.hist, k)| == |data| {
      DataScan(env, d, k, data, input, (Captured(env, d, false) + input)[..|input|]);
    }
  }

  lemma {:induction false} ScanKeeps(env: Env, d: Device, data: seq<bool>)
    requires Sound(env, d)
    ensures Scan(env, d, false, data).instructions == d.instructions
  {
  }

  /** One bit for each TAP before `k`. */
  lemma {:induction false} SingleBits(env: Env, d: Device, k: nat, n: nat)
    requires Sound(env, d) && Alone(env, d, Some(k)) && k < |env.ir| && n <= |env.ir|
    ensures var lens := Lens(DrCaptures(env, d.instructions, d.hist));
            Total(lens, n) == if n <= k then n else n - 1 + |DrCapture(env, d.instructions[k], d.hist, k)|
  {
    if n > 0 {
      SingleBits(env, d, k, n - 1);
    }
  }

  /** The selected register goes in and comes out whole. */
  lemma {:induction false} DataScan(env: Env, d: Device, k: nat, data: seq<bool>, input: seq<bool>, row: seq<bool>)
    requires Sound(env, d) && Alone(env, d, Some(k)) && k < |env.ir|
    requires |DrCapture(env, d.instructions[k], d.hist, k)| == |data|
    requires var total := |data| + |env.ir| - 1; input == Zeros(total)[..k] + data + Zeros(total)[k + |data|..]
    requires row == (Captured(env, d, false) + input)[..|input|]
    ensures |row| == |input| && k + |data| <= |row| &&
            row[k..k + |data|] == DrCapture(env, d.instructions[k], d.hist, k)
    ensures Updated(env, d, Scan(env, d, false, input), k, data)
  {
    hide Total, Flat, Lens, DrCapture;
    var parts := DrCaptures(env, d.instructions, d.hist);
    var flat := Flat(parts, |parts|);
    FlatLength(parts, |parts|);
    SingleBits(env, d, k, |env.ir|);
    SingleBits(env, d, k, k);
    SingleBits(env, d, k, k + 1);
    WholeRow(flat, input);
    PartOfFlat(parts, [], k);
    assert flat + [] == flat;
    assert Part(input, Lens(parts), k) == data;
  }

  // ----- Whole runs -----

  datatype Call =
    | Connecting | Releasing | Borrowing(index: int)
    | Instruct(tap: nat, instruction: seq<bool>)
    | Access(tap: nat, data: seq<bool>, bits: int)
    | Waiting(tap: nat, cycles: int)
    | RawScan(row: seq<bool>, length: int, ir: bool)
    | RawMove(to: State)
    | RawReset
    | RawIdle(cycles: int)
    | RawDiscover(maxTaps: int)
    | RawMeasure(maxBits: int)

  /** One scan of a data register that reached the wire. */
  datatype Reached = Reached(device: Device, index: nat)

  /** Any interleaving of borrowed TAPs, old and new, with Connect, Release and raw use of
      the connection: whenever a data register is scanned through a TAP, all other TAPs
      hold BYPASS. */
  method RunChain(c: Chain, calls: seq<Call>, ghost regs: seq<Observed>) returns (ghost scans: seq<Reached>)
    requires c.Valid() && c.Describes()
    modifies c`serial, c`valid, c`selected, c`generation, c`released, c.conn`state, c.conn`serial, c.conn.wire
    ensures c.Valid()
    ensures forall i :: 0 <= i < |scans| ==>
              Sound(c.conn.wire.env, scans[i].device) && Alone(c.conn.wire.env, scans[i].device, Some(scans[i].index))
  {
    hide Sound, Alone, Total, Resets, Clock, Scan, Captured, Parked, DrCapture, Updated, Extended;
    scans := [];
    var taps: seq<Tap> := [];
    for i := 0 to |calls|
      invariant c.Valid()
      invariant forall j :: 0 <= j < |scans| ==>
                  Sound(c.conn.wire.env, scans[j].device) &&
                  Alone(c.conn.wire.env, scans[j].device, Some(scans[j].index))
    {
      var budget: nat := *;
      var ctx := new Ctx(budget);
      var call := calls[i];
      if call.Access? {
        if call.tap < |taps| {
          ghost var d, before := c.conn.wire.d, c.conn.serial;
          var capture := c.TapScanDr(taps[call.tap], ctx, call.data, call.bits);
          if c.conn.serial != before {
            scans := scans + [Reached(d, taps[call.tap].index)];
          }
        }
      } else if call.Borrowing? {
        var t := c.Borrow(call.index);
        if t.Some? {
          taps := taps + [t.value];
        }
      } else if call.Instruct? || call.Waiting? {
        if call.tap < |taps| {
          Select(c, ctx, taps[call.tap], call);
        }
      } else {
        Manage(c, ctx, call, regs);
      }
    }
  }

  method Select(c: Chain, ctx: Ctx, t: Tap, call: Call)
    requires c.Valid() && (call.Instruct? || call.Waiting?)
    modifies c`serial, c`valid, c`selected, c.conn`state, c.conn`serial, c.conn.wire, ctx
    ensures c.Valid()
  {
    if call.Instruct? {
      var capture := c.TapScanIr(t, ctx, call.instruction);
    } else {
      var ok := c.TapIdle(t, ctx, call.cycles);
    }
  }

  /** Connect, Release, or traffic that the chain knows nothing of. */
  method Manage(c: Chain, ctx: Ctx, call: Call, ghost regs: seq<Observed>)
    requires c.Valid() && !call.Borrowing? && !call.Instruct? && !call.Access? && !call.Waiting?
    modifies c`serial, c`valid, c`selected, c`generation, c`released, c.conn`state, c.conn`serial, c.conn.wire, ctx
    ensures c.Valid()
  {
    hide Sound, Alone, Total, Resets, Clock, Scan, Captured, Parked;
    if call.Connecting? {
      var ok := c.Connect(ctx, regs);
    } else if call.Releasing? {
      var err := c.Release(ctx, regs);
    } else if call.RawScan? {
      var capture, err, d1 := c.conn.ScanRow(ctx, call.row, call.length, call.ir);
    } else if call.RawMove? {
      var ok, path, m := c.conn.Move(ctx, call.to);
    } else if call.RawIdle? {
      var ok := c.conn.RunIdle(ctx, call.cycles);
    } else if call.RawDiscover? {
      var found := Discover(c.conn, ctx, call.maxTaps, regs);
    } else if call.RawMeasure? {
      var length, complete := MeasureIr(c.conn, ctx, call.maxBits);
    } else {
      var ok := c.conn.ResetTaps(ctx);
    }
  }
}
