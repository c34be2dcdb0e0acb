/** A chain of TAPs as the wire sees it: one controller state, an instruction per TAP,
    and one shift register through all of them, nearest TDO first. */
module JtagDevice {
  import opened Rows
  import opened JtagTap

  /** One update of all data registers, under the instructions in force. */
  datatype Update = Update(instructions: seq<seq<bool>>, data: seq<seq<bool>>)

  /** What no clock changes: instruction lengths, reset instructions, and what the
      registers capture. A data register may depend on all updates so far. */
  datatype Env = Env(ir: seq<nat>, reset: seq<seq<bool>>, irBit: (nat, nat) -> bool,
                     capture: (nat, seq<bool>, seq<Update>) -> seq<bool>)

  datatype Device = Device(state: State, instructions: seq<seq<bool>>, shift: seq<bool>, lens: seq<nat>,
                           hist: seq<Update>)

  ghost predicate ValidEnv(env: Env) {
    |env.reset| == |env.ir| && forall i :: 0 <= i < |env.ir| ==> env.ir[i] >= 2 && |env.reset[i]| == env.ir[i]
  }

  // ----- Captures -----

  function IrCapture(env: Env, i: nat): (s: seq<bool>)
    requires i < |env.ir|
    ensures |s| == env.ir[i]
  {
    seq(env.ir[i], j requires 0 <= j < env.ir[i] => j == 0 || (j >= 2 && env.irBit(i, j)))
  }

  predicate Bypass(env: Env, instruction: seq<bool>, i: nat)
    requires i < |env.ir|
  {
    instruction == Ones(env.ir[i])
  }

  function DrCapture(env: Env, instruction: seq<bool>, hist: seq<Update>, i: nat): seq<bool>
    requires i < |env.ir|
  {
    if Bypass(env, instruction, i) then [false] else env.capture(i, instruction, hist)
  }

  function IrCaptures(env: Env): (p: seq<seq<bool>>)
    ensures |p| == |env.ir| && forall i :: 0 <= i < |p| ==> p[i] == IrCapture(env, i)
  {
    seq(|env.ir|, i requires 0 <= i < |env.ir| => IrCapture(env, i))
  }

  function DrCaptures(env: Env, instructions: seq<seq<bool>>, hist: seq<Update>): (p: seq<seq<bool>>)
    requires |instructions| == |env.ir|
    ensures |p| == |env.ir| && forall i :: 0 <= i < |p| ==> p[i] == DrCapture(env, instructions[i], hist, i)
  {
    seq(|env.ir|, i requires 0 <= i < |env.ir| => DrCapture(env, instructions[i], hist, i))
  }

  lemma {:induction false} IrLens(env: Env)
    ensures Lens(IrCaptures(env)) == env.ir
  {
  }

  // ----- One clock -----

  predicate HoldsIr(s: State) {
    s.ShiftIr? || s.Exit1Ir? || s.PauseIr? || s.Exit2Ir? || s.UpdateIr?
  }

  /** The registers have the lengths they should. */
  ghost predicate Sound(env: Env, d: Device) {
    && ValidEnv(env) && |d.instructions| == |env.ir| && |d.lens| == |env.ir|
    && (forall i :: 0 <= i < |env.ir| ==> |d.instructions[i]| == env.ir[i])
    && |d.shift| == Total(d.lens, |d.lens|)
    && (HoldsIr(d.state) ==> d.lens == env.ir)
  }

  function Load(d: Device, parts: seq<seq<bool>>): Device {
    d.(shift := Flat(parts, |parts|), lens := Lens(parts))
  }

  function Shifted(shift: seq<bool>, tdi: bool): seq<bool> {
    if shift == [] then [] else shift[1..] + [tdi]
  }

  function Tick(env: Env, d: Device, tms: bool, tdi: bool): Device
    requires Sound(env, d)
  {
    var e := match d.state
      case Reset => d.(instructions := env.reset)
      case CaptureIr => Load(d, IrCaptures(env))
      case CaptureDr => Load(d, DrCaptures(env, d.instructions, d.hist))
      case ShiftIr => d.(shift := Shifted(d.shift, tdi))
      case ShiftDr => d.(shift := Shifted(d.shift, tdi))
      case UpdateIr => d.(instructions := Parts(d.shift, d.lens))
      case UpdateDr => d.(hist := d.hist + [Update(d.instructions, Parts(d.shift, d.lens))])
      case _ => d;
    e.(state := Next(d.state, tms))
  }

  function Tdo(d: Device, tdi: bool): bool {
    if !d.state.ShiftIr? && !d.state.ShiftDr? then false
    else if d.shift == [] then tdi
    else d.shift[0]
  }

  lemma {:induction false} TickSound(env: Env, d: Device, tms: bool, tdi: bool)
    requires Sound(env, d)
    ensures Sound(env, Tick(env, d, tms, tdi))
  {
    hide Flat, Total, Lens, Parts;
    if d.state.CaptureIr? {
      FlatLength(IrCaptures(env), |env.ir|);
      IrLens(env);
    } else if d.state.CaptureDr? {
      var parts := DrCaptures(env, d.instructions, d.hist);
      FlatLength(parts, |parts|);
    }
  }

  /** The device after the first `n` clocks. */
  function Clock(env: Env, d: Device, tms: seq<bool>, tdi: seq<bool>, n: nat): (e: Device)
    requires Sound(env, d) && n <= |tms| == |tdi|
    ensures Sound(env, e)
  {
    if n == 0 then d
    else
      var e := Clock(env, d, tms, tdi, n - 1);
      TickSound(env, e, tms[n - 1], tdi[n - 1]);
      Tick(env, e, tms[n - 1], tdi[n - 1])
  }

  /** What it has driven on TDO. */
  function Out(env: Env, d: Device, tms: seq<bool>, tdi: seq<bool>, n: nat): (s: seq<bool>)
    requires Sound(env, d) && n <= |tms| == |tdi|
    ensures |s| == n
  {
    if n == 0 then [] else Out(env, d, tms, tdi, n - 1) + [Tdo(Clock(env, d, tms, tdi, n - 1), tdi[n - 1])]
  }

  lemma {:induction false} ClockNone(env: Env, d: Device, tms: seq<bool>, tdi: seq<bool>)
    requires Sound(env, d) && |tms| == |tdi|
    ensures Clock(env, d, tms, tdi, 0) == d && Out(env, d, tms, tdi, 0) == []
  {
  }

  lemma {:induction false} ClockNext(env: Env, d: Device, tms: seq<bool>, tdi: seq<bool>, n: nat)
    requires Sound(env, d) && 0 < n <= |tms| == |tdi|
    ensures Clock(env, d, tms, tdi, n) == Tick(env, Clock(env, d, tms, tdi, n - 1), tms[n - 1], tdi[n - 1])
    ensures Out(env, d, tms, tdi, n) == Out(env, d, tms, tdi, n - 1) + [Tdo(Clock(env, d, tms, tdi, n - 1), tdi[n - 1])]
  {
    hide Tick, Tdo, Sound;
  }

  lemma {:induction false} ClockWalks(env: Env, d: Device, tms: seq<bool>, tdi: seq<bool>, n: nat)
    requires Sound(env, d) && n <= |tms| == |tdi|
    ensures Clock(env, d, tms, tdi, n).state == Walk(d.state, tms, n)
  {
    hide Next, Load, Parts, Total, Sound;
    if n > 0 {
      ClockWalks(env, d, tms, tdi, n - 1);
    }
  }

  /** Clocking in pieces. */
  lemma {:induction false} ClockParts(env: Env, d: Device, tms: seq<bool>, tdi: seq<bool>, a: nat, b: nat, n: nat)
    requires Sound(env, d) && a <= b <= |tms| == |tdi| && n <= b - a
    ensures Clock(env, Clock(env, d, tms, tdi, a), tms[a..b], tdi[a..b], n) == Clock(env, d, tms, tdi, a + n)
    ensures Out(env, d, tms, tdi, a + n) ==
            Out(env, d, tms, tdi, a) + Out(env, Clock(env, d, tms, tdi, a), tms[a..b], tdi[a..b], n)
  {
    hide Tick, Tdo, Sound;
    if n > 0 {
      ClockParts(env, d, tms, tdi, a, b, n - 1);
    } else {
      assert Out(env, d, tms, tdi, a) + [] == Out(env, d, tms, tdi, a);
    }
  }

  // ----- Scans -----

  /** The register after `n` of the bits `data` are shifted into it. */
  function Window(shift: seq<bool>, data: seq<bool>, n: nat): seq<bool>
    requires n <= |data|
  {
    (shift + data)[n..n + |shift|]
  }

  lemma {:induction false} ShiftTick(env: Env, d: Device, tms: bool, tdi: bool)
    requires Sound(env, d) && (d.state.ShiftIr? || d.state.ShiftDr?)
    ensures Tick(env, d, tms, tdi) ==
            d.(shift := Shifted(d.shift, tdi), state := if tms then Next(d.state, true) else d.state)
    ensures Tdo(d, tdi) == if d.shift == [] then tdi else d.shift[0]
  {
  }

  lemma {:induction false} ShiftOne(shift: seq<bool>, data: seq<bool>, n: nat)
    requires n < |data|
    ensures var now := Window(shift, data, n);
            Shifted(now, data[n]) == Window(shift, data, n + 1) &&
            (if now == [] then data[n] else now[0]) == (shift + data)[n]
  {
  }

  lemma {:induction false} WindowNone(shift: seq<bool>, data: seq<bool>)
    ensures Window(shift, data, 0) == shift
  {
  }

  /** One clock of the shift, from the window it has reached. */
  lemma {:induction false} ShiftNext(env: Env, d: Device, e: Device, tms: bool, data: seq<bool>, n: nat)
    requires n < |data| && Sound(env, e) && (d.state.ShiftIr? || d.state.ShiftDr?) &&
             e == d.(shift := Window(d.shift, data, n))
    ensures Tick(env, e, tms, data[n]) ==
            d.(shift := Window(d.shift, data, n + 1), state := if tms then Next(d.state, true) else d.state)
    ensures Tdo(e, data[n]) == (d.shift + data)[n]
  {
    hide Sound, Tick, Tdo, Shifted, Next, Window;
    ShiftTick(env, e, tms, data[n]);
    ShiftOne(d.shift, data, n);
  }

  /** Shifting `n` of the bits `data` in, with the controller in one shift state. */
  lemma {:induction false} ShiftRun(env: Env, d: Device, tms: seq<bool>, data: seq<bool>, n: nat)
    requires Sound(env, d) && (d.state.ShiftIr? || d.state.ShiftDr?) && n <= |tms| == |data|
    requires forall i :: 0 <= i < n - 1 ==> !tms[i]
    requires n > 0 && tms[n - 1] ==> n == |tms|
    ensures Clock(env, d, tms, data, n) ==
            d.(shift := Window(d.shift, data, n), state := if n > 0 && tms[n - 1] then Next(d.state, true) else d.state)
    ensures Out(env, d, tms, data, n) == (d.shift + data)[..n]
  {
    hide Sound, Tick, Tdo, Next, Clock, Out, Window;
    if n == 0 {
      ClockNone(env, d, tms, data);
      WindowNone(d.shift, data);
    } else {
      ShiftRun(env, d, tms, data, n - 1);
      ClockNext(env, d, tms, data, n);
      ShiftNext(env, d, Clock(env, d, tms, data, n - 1), tms[n - 1], data, n - 1);
    }
  }

  /** The complete scan of one register row from Idle: capture, shift and update. */
  function ScanDr(env: Env, d: Device, data: seq<bool>): Device
    requires Sound(env, d)
  {
    var parts := DrCaptures(env, d.instructions, d.hist);
    FlatLength(parts, |parts|);
    var flat := Flat(parts, |parts|);
    var last := (flat + data)[|data|..|data| + |flat|];
    d.(shift := last, lens := Lens(parts), hist := d.hist + [Update(d.instructions, Parts(last, Lens(parts)))])
  }

  function ScanIr(env: Env, d: Device, data: seq<bool>): Device
    requires Sound(env, d)
  {
    var parts := IrCaptures(env);
    FlatLength(parts, |parts|);
    var flat := Flat(parts, |parts|);
    var last := (flat + data)[|data|..|data| + |flat|];
    d.(shift := last, lens := Lens(parts), instructions := Parts(last, Lens(parts)))
  }

  function Captured(env: Env, d: Device, ir: bool): seq<bool>
    requires Sound(env, d)
  {
    var parts := if ir then IrCaptures(env) else DrCaptures(env, d.instructions, d.hist);
    Flat(parts, |parts|)
  }

  function Scan(env: Env, d: Device, ir: bool, data: seq<bool>): Device
    requires Sound(env, d)
  {
    if ir then ScanIr(env, d, data) else ScanDr(env, d, data)
  }

  /** From Idle into the shift state, capturing on the way. */
  lemma {:induction false} Enter(env: Env, d: Device, ir: bool)
    requires Sound(env, d) && d.state.Idle?
    ensures var tms := FromIdle(if ir then ShiftIr else ShiftDr);
            Clock(env, d, tms, Zeros(|tms|), |tms|) ==
              Load(d, if ir then IrCaptures(env) else DrCaptures(env, d.instructions, d.hist)).(state := if ir then
                                                                                                ShiftIr else ShiftDr)
  {
    hide Sound, Flat, Lens, Parts;
    var tms := FromIdle(if ir then ShiftIr else ShiftDr);
    ClockFour(env, d, tms, Zeros(|tms|));
  }

  lemma {:induction false} ClockFour(env: Env, d: Device, tms: seq<bool>, tdi: seq<bool>)
    requires Sound(env, d) && |tms| == |tdi| <= 4
    ensures Clock(env, d, tms, tdi, 0) == d
    ensures |tms| > 0 ==> Clock(env, d, tms, tdi, 1) == Tick(env, d, tms[0], tdi[0])
    ensures |tms| > 1 ==> Clock(env, d, tms, tdi, 2) == Tick(env, Clock(env, d, tms, tdi, 1), tms[1], tdi[1])
    ensures |tms| > 2 ==> Clock(env, d, tms, tdi, 3) == Tick(env, Clock(env, d, tms, tdi, 2), tms[2], tdi[2])
    ensures |tms| > 3 ==> Clock(env, d, tms, tdi, 4) == Tick(env, Clock(env, d, tms, tdi, 3), tms[3], tdi[3])
  {
    hide Sound, Tick;
  }

  /** From Exit1 back to Idle, updating on the way. */
  lemma {:induction false} Leave(env: Env, d: Device)
    requires Sound(env, d) && (d.state.Exit1Dr? || d.state.Exit1Ir?)
    ensures Clock(env, d, [true, false], Zeros(2), 2) ==
            if d.state.Exit1Ir? then d.(state := Idle, instructions := Parts(d.shift, d.lens))
            else d.(state := Idle, hist := d.hist + [Update(d.instructions, Parts(d.shift, d.lens))])
  {
    hide Parts;
    ClockFour(env, d, [true, false], Zeros(2));
  }

  /** The three movements of a scan together. */
  lemma {:induction false} ScanSteps(env: Env, d: Device, ir: bool, data: seq<bool>, tms: seq<bool>)
    requires Sound(env, d) && d.state.Idle? && data != [] && |tms| == |data|
    requires forall i :: 0 <= i < |tms| ==> tms[i] == (i == |tms| - 1)
    ensures var path := FromIdle(if ir then ShiftIr else ShiftDr);
            var e := Clock(env, d, path, Zeros(|path|), |path|);
            var f := Clock(env, e, tms, data, |tms|);
            && Out(env, e, tms, data, |tms|) == (Captured(env, d, ir) + data)[..|data|]
            && f.state == (if ir then Exit1Ir else Exit1Dr)
            && Clock(env, f, [true, false], Zeros(2), 2) == Scan(env, d, ir, data)
  {
    hide Sound, Parts, Flat, Lens, Clock, Out;
    Enter(env, d, ir);
    var path := FromIdle(if ir then ShiftIr else ShiftDr);
    var e := Clock(env, d, path, Zeros(|path|), |path|);
    ShiftRun(env, e, tms, data, |tms|);
    Leave(env, Clock(env, e, tms, data, |tms|));
  }
}
