/** 32-bit register words and the CTRL/STAT, ABORT and SELECT fields that both
    the host and the simulated target interpret. */
module Words {

  type Word = w: int | 0 <= w < 0x1_0000_0000

  // CTRL/STAT flags as the host tests them in a value it has read or will write.
  predicate OrunDetect(w: Word) { w % 2 == 1 }

  predicate StickyOrun(w: Word) { w / 2 % 2 == 1 }

  predicate StickyCmp(w: Word) { w / 16 % 2 == 1 }

  predicate StickyErr(w: Word) { w / 32 % 2 == 1 }

  predicate WdataErr(w: Word) { w / 128 % 2 == 1 }

  // ABORT bits.
  const DAPABORT: Word := 0x01
  const CLEAR_STICKYCMP: Word := 0x02
  const CLEAR_STICKYERR: Word := 0x04
  const CLEAR_WDATAERR: Word := 0x08
  const CLEAR_STICKYORUN: Word := 0x10

  predicate AbortsDap(w: Word) { w % 2 == 1 }

  predicate ClearsCmp(w: Word) { w / 2 % 2 == 1 }

  predicate ClearsErr(w: Word) { w / 4 % 2 == 1 }

  predicate ClearsWdata(w: Word) { w / 8 % 2 == 1 }

  predicate ClearsOrun(w: Word) { w / 16 % 2 == 1 }

  /** DPBANKSEL, the low nibble of SELECT. */
  function BankOf(select: Word): Word {
    select % 16
  }

  /** SELECT with another DPBANKSEL. */
  function WithBank(select: Word, bank: Word): Word
    requires bank < 16
  {
    select - select % 16 + bank
  }

  /** The two power requests of CTRL/STAT. */
  datatype Requests = Requests(debug: bool, system: bool)

  function PowerOf(w: Word): Requests {
    Requests(w / 0x1000_0000 % 2 == 1, w / 0x4000_0000 % 2 == 1)
  }

  /** The power requests are in the top byte. */
  lemma {:induction false} TopBytes(w: Word, v: Word)
    requires w / 256 == v / 256
    ensures PowerOf(w) == PowerOf(v)
  {
    assert w / 0x1000_0000 == w / 256 / 0x10_0000 && v / 0x1000_0000 == v / 256 / 0x10_0000;
    assert w / 0x4000_0000 == w / 256 / 0x40_0000 && v / 0x4000_0000 == v / 256 / 0x40_0000;
  }

  // A sticky flag that is set is in the low byte.
  lemma {:induction false} OrunInByte(w: Word)
    ensures StickyOrun(w) ==> w % 256 >= 0x02
  {
    assert w / 2 == 128 * (w / 256) + w % 256 / 2;
  }

  lemma {:induction false} CmpInByte(w: Word)
    ensures StickyCmp(w) ==> w % 256 >= 0x10
  {
    assert w / 16 == 16 * (w / 256) + w % 256 / 16;
  }

  /** The CTRL/STAT register: ORUNDETECT, the four sticky flags and the two power
      requests, each of which the target acknowledges at once. */
  datatype Ctrl = Ctrl(orun: bool, overrun: bool, compare: bool, error: bool, wdata: bool,
                       debugPower: bool, systemPower: bool)

  function BitOf(b: bool): int {
    if b then 1 else 0
  }

  function CtrlWord(c: Ctrl): Word {
    BitOf(c.orun) + 0x02 * BitOf(c.overrun) + 0x10 * BitOf(c.compare) + 0x20 * BitOf(c.error) +
    0x80 * BitOf(c.wdata) + 0x3000_0000 * BitOf(c.debugPower) + 0xc000_0000 * BitOf(c.systemPower)
  }

  /** The host reads back exactly the flags the register holds. */
  lemma {:induction false} CtrlWordFlags(c: Ctrl)
    ensures OrunDetect(CtrlWord(c)) == c.orun
    ensures StickyOrun(CtrlWord(c)) == c.overrun
    ensures StickyCmp(CtrlWord(c)) == c.compare
    ensures StickyErr(CtrlWord(c)) == c.error
    ensures WdataErr(CtrlWord(c)) == c.wdata
  {
    var w := CtrlWord(c);
    var from7 := BitOf(c.wdata) + 2 * (0x30_0000 * BitOf(c.debugPower) + 0xc0_0000 * BitOf(c.systemPower));
    var from5 := BitOf(c.error) + 4 * from7;
    var from4 := BitOf(c.compare) + 2 * from5;
    var from1 := BitOf(c.overrun) + 8 * from4;
    assert w == BitOf(c.orun) + 2 * from1;
    assert w / 2 == from1 && w / 16 == from4;
    assert w / 32 == from5 && w / 128 == from7;
  }

  lemma {:induction false} CtrlWordPower(c: Ctrl)
    ensures PowerOf(CtrlWord(c)) == Requests(c.debugPower, c.systemPower)
  {
    var top := 3 * BitOf(c.debugPower) + 12 * BitOf(c.systemPower);
    assert CtrlWord(c) / 0x1000_0000 == top && CtrlWord(c) / 0x4000_0000 == top / 4;
  }
}

/** The simulated SW-DP: register behaviour, sticky flags and acknowledgements.
    Access ports are an arbitrary deterministic system: the result of an access
    and whether it ends in a bus fault are functions of the history of accesses
    the ports have seen, the current one last. */
module SwdTarget {
  import opened Words

  /** One request as it travels on the wire; `addr` is 0x0, 0x4, 0x8 or 0xc. */
  datatype Req = Req(ap: bool, read: bool, addr: Word)

  /** A request with the data word of a write (ignored by reads). */
  datatype Frame = Frame(req: Req, data: Word)

  /** One access seen by the access ports. `port` is APSEL in the top byte and
      the complete register offset in the low byte. */
  datatype ApAccess = ApAccess(port: int, read: bool, data: Word)

  /** What no host action changes: the read-only DP registers and the access ports. */
  datatype Env = Env(dpidr: Word,
                     banked: Word -> Word,
                     value: seq<ApAccess> -> Word,
                     faults: seq<ApAccess> -> bool)

  datatype Target = Target(ctrl: Ctrl, select: Word, dlcr: Word,
                           rdbuff: Word, resend: Word, hist: seq<ApAccess>)

  /** The target's free choice for one request that the sticky flags do not
      reject: stall it, or take it. A taken read may come back with bad parity;
      the data of a taken write may be lost, which the target reports through
      WDATAERR. */
  datatype Choice = Stall | Take(spoil: bool)

  datatype Reply = Done(value: Word) | BadParity | Waited | Faulted

  predicate Accepts(r: Reply) {
    r.Done? || r.BadParity?
  }

  predicate StickyFlags(c: Ctrl) {
    c.overrun || c.compare || c.error || c.wdata
  }

  predicate Sticky(t: Target) {
    StickyFlags(t.ctrl)
  }

  predicate Overrun(t: Target) {
    t.ctrl.orun
  }

  function Bank(t: Target): Word {
    BankOf(t.select)
  }

  function Power(t: Target): Requests {
    Requests(t.ctrl.debugPower, t.ctrl.systemPower)
  }

  predicate IsAbortWrite(req: Req) {
    !req.ap && !req.read && req.addr == 0x00
  }

  predicate IsIdRead(req: Req) {
    !req.ap && req.read && req.addr == 0x00
  }

  predicate IsCtrlStatRead(req: Req) {
    !req.ap && req.read && req.addr == 0x04
  }

  predicate IsSelectWrite(req: Req) {
    !req.ap && !req.read && req.addr == 0x08
  }

  predicate IsBankedWrite(req: Req) {
    !req.ap && !req.read && req.addr == 0x04
  }

  const RDBUFF_READ := Req(false, true, 0x0c)

  /** Requests a target with sticky state still answers. */
  predicate Exempt(req: Req, select: Word) {
    IsAbortWrite(req) || IsIdRead(req) || (IsCtrlStatRead(req) && BankOf(select) == 0)
  }

  /** Requests that are not exempt whatever bank is selected. */
  predicate NeverExempt(req: Req) {
    !IsAbortWrite(req) && !IsIdRead(req) && !IsCtrlStatRead(req)
  }

  /** APSEL and APBANKSEL of SELECT, joined with the register address. */
  function Port(select: Word, addr: Word): int {
    select / 0x100_0000 * 0x100_0000 + select / 16 % 16 * 16 + addr
  }

  function ClearSticky(c: Ctrl, abort: Word): Ctrl {
    c.(overrun := c.overrun && !ClearsOrun(abort), compare := c.compare && !ClearsCmp(abort),
       error := c.error && !ClearsErr(abort), wdata := c.wdata && !ClearsWdata(abort))
  }

  /** A bank-zero CTRL/STAT write: sticky flags survive, ORUNDETECT and the power
      requests are taken. */
  function SetPower(c: Ctrl, value: Word): Ctrl {
    c.(orun := OrunDetect(value), debugPower := PowerOf(value).debug, systemPower := PowerOf(value).system)
  }

  function ReadDp(env: Env, t: Target, addr: Word): Word {
    if addr == 0x00 then env.dpidr
    else if addr == 0x04 then
      if Bank(t) == 0 then CtrlWord(t.ctrl) else if Bank(t) == 1 then t.dlcr else env.banked(Bank(t))
    else if addr == 0x08 then t.resend
    else t.rdbuff
  }

  function WriteDp(t: Target, addr: Word, data: Word): Target {
    if addr == 0x00 then t.(rdbuff := 0, ctrl := ClearSticky(t.ctrl, data))
    else if addr == 0x04 then
      if Bank(t) == 0 then t.(rdbuff := 0, ctrl := SetPower(t.ctrl, data))
      else if Bank(t) == 1 then t.(rdbuff := 0, dlcr := data)
      else t.(rdbuff := 0)
    else if addr == 0x08 then t.(rdbuff := 0, select := data)
    else t
  }

  function AccessAp(env: Env, t: Target, f: Frame): Target {
    var h := t.hist + [ApAccess(Port(t.select, f.req.addr), f.req.read, if f.req.read then 0 else f.data)];
    var fault := env.faults(h);
    var ctrl := if fault then t.ctrl.(error := true) else t.ctrl;
    if f.req.read then
      t.(hist := h, ctrl := ctrl, resend := t.rdbuff, rdbuff := if fault then t.rdbuff else env.value(h))
    else
      t.(hist := h, ctrl := ctrl, rdbuff := 0)
  }

  /** What a taken request returns: AP reads are posted and return the previous result. */
  function Response(env: Env, t: Target, f: Frame): Word {
    if !f.req.read then 0
    else if f.req.ap then t.rdbuff
    else ReadDp(env, t, f.req.addr)
  }

  /** The effect of a taken request whose data arrived. */
  function Apply(env: Env, t: Target, f: Frame): Target {
    if f.req.ap then AccessAp(env, t, f)
    else if !f.req.read then WriteDp(t, f.req.addr, f.data)
    else if f.req.addr == 0x0c then t.(resend := t.rdbuff, rdbuff := 0)
    else t
  }

  /** A taken write whose data was lost. */
  function Lose(t: Target): Target {
    t.(ctrl := t.ctrl.(wdata := true), rdbuff := 0)
  }

  /** A rejected request; with overrun detection it also raises STICKYORUN. */
  function Reject(t: Target): Target {
    if Overrun(t) then t.(ctrl := t.ctrl.(overrun := true)) else t
  }

  /** A line reset clears DLCR and, with overrun detection, raises STICKYORUN. */
  function AfterReset(t: Target): Target {
    t.(dlcr := 0, ctrl := t.ctrl.(overrun := t.ctrl.overrun || t.ctrl.orun))
  }

  function ReplyTo(env: Env, t: Target, f: Frame, c: Choice): Reply {
    if Sticky(t) && !Exempt(f.req, t.select) then Faulted
    else if c.Stall? then Waited
    else if f.req.read && c.spoil then BadParity
    else Done(Response(env, t, f))
  }

  function Step(env: Env, t: Target, f: Frame, c: Choice): Target {
    if !Accepts(ReplyTo(env, t, f, c)) then Reject(t)
    else if !f.req.read && c.spoil then Lose(t)
    else Apply(env, t, f)
  }

  /** The state after the target has answered the first `i` frames of `fs`, with
      the choices `cs`. */
  function Serve(env: Env, t: Target, fs: seq<Frame>, cs: seq<Choice>, i: nat): Target
    requires |fs| == |cs| && i <= |fs|
  {
    if i == 0 then t else Step(env, Serve(env, t, fs, cs, i - 1), fs[i - 1], cs[i - 1])
  }

  function ReplyAt(env: Env, t: Target, fs: seq<Frame>, cs: seq<Choice>, i: nat): Reply
    requires |fs| == |cs| && i < |fs|
  {
    ReplyTo(env, Serve(env, t, fs, cs, i), fs[i], cs[i])
  }

  /** The frames among the first `i` that the target accepted, in order. */
  function Taken(env: Env, t: Target, fs: seq<Frame>, cs: seq<Choice>, i: nat): seq<Frame>
    requires |fs| == |cs| && i <= |fs|
  {
    if i == 0 then []
    else
      Taken(env, t, fs, cs, i - 1) +
      (if Accepts(ReplyAt(env, t, fs, cs, i - 1)) then [fs[i - 1]] else [])
  }

  /** How many of the first `i` frames the target accepts before it first rejects one. */
  function Lead(env: Env, t: Target, fs: seq<Frame>, cs: seq<Choice>, i: nat): (m: nat)
    requires |fs| == |cs| && i <= |fs|
    ensures m <= i
  {
    if i == 0 then 0
    else
      var m := Lead(env, t, fs, cs, i - 1);
      if m == i - 1 && Accepts(ReplyAt(env, t, fs, cs, m)) then i else m
  }

  /** The state after the first `i` frames of `fs` took effect once each, in order. */
  function Exec(env: Env, t: Target, fs: seq<Frame>, i: nat): Target
    requires i <= |fs|
  {
    if i == 0 then t else Apply(env, Exec(env, t, fs, i - 1), fs[i - 1])
  }

  /** `t` is what the target holds after taking exactly the first `k` frames, in
      order: each took effect, except that the data of the last may have been lost. */
  ghost predicate Took(env: Env, t0: Target, fs: seq<Frame>, k: nat, t: Target)
    requires k <= |fs|
  {
    || t == Exec(env, t0, fs, k)
    || (k > 0 && !fs[k - 1].req.read && t == Lose(Exec(env, t0, fs, k - 1)))
  }

  /** The sticky flags do not reject frame `i` when the frames before it have taken effect. */
  predicate Allowed(env: Env, t0: Target, fs: seq<Frame>, i: nat)
    requires i < |fs|
  {
    var t := Exec(env, t0, fs, i);
    Sticky(t) ==> Exempt(fs[i].req, t.select)
  }

  /** Only the first frame may be one that sticky state lets through. */
  ghost predicate PackSafe(fs: seq<Frame>) {
    forall i :: 0 < i < |fs| ==> NeverExempt(fs[i].req)
  }

  lemma {:induction false} LeadAccepts(env: Env, t: Target, fs: seq<Frame>, cs: seq<Choice>, n: nat, i: nat)
    requires |fs| == |cs| && i < n <= |fs|
    requires i <= Lead(env, t, fs, cs, n)
    ensures Accepts(ReplyAt(env, t, fs, cs, i)) <==> i < Lead(env, t, fs, cs, n)
    decreases n
  {
    hide Serve, ReplyAt;
    if i < n - 1 {
      LeadAccepts(env, t, fs, cs, n - 1, i);
    }
  }

  /** While the target keeps accepting, what it holds is exactly the effect of the
      frames so far: a lost write or a bus fault raises a sticky flag, and no
      frame of a pack-safe chunk is accepted after that. */
  lemma {:induction false} AcceptedSoFar(env: Env, t: Target, fs: seq<Frame>, cs: seq<Choice>, n: nat, k: nat)
    requires |fs| == |cs| && PackSafe(fs) && n <= |fs|
    requires k <= Lead(env, t, fs, cs, n)
    ensures Took(env, t, fs, k, Serve(env, t, fs, cs, k))
    ensures k > 0 ==> Serve(env, t, fs, cs, k - 1) == Exec(env, t, fs, k - 1)
    ensures k > 0 ==> Allowed(env, t, fs, k - 1)
  {
    hide Apply, Response;
    if k > 0 {
      AcceptedSoFar(env, t, fs, cs, n, k - 1);
      LeadAccepts(env, t, fs, cs, n, k - 1);
      var last := Serve(env, t, fs, cs, k - 1);
      if k > 1 {
        assert NeverExempt(fs[k - 1].req);
        assert !Sticky(last);
      }
    }
  }

  /** With overrun detection on, no frame is accepted after a rejected one. So what
      the target took is a prefix of the chunk, and resuming at the first rejected
      frame repeats nothing. */
  lemma {:induction false} TakenIsPrefix(env: Env, t: Target, fs: seq<Frame>, cs: seq<Choice>, i: nat)
    requires |fs| == |cs| && PackSafe(fs) && i <= |fs|
    requires |fs| <= 1 || forall j :: 0 <= j <= i ==> Overrun(Serve(env, t, fs, cs, j))
    ensures var m := Lead(env, t, fs, cs, i);
            && Taken(env, t, fs, cs, i) == fs[..m]
            && Serve(env, t, fs, cs, i) ==
               (if m == i then Serve(env, t, fs, cs, m) else Reject(Serve(env, t, fs, cs, m)))
  {
    hide Apply, Response;
    if i > 0 {
      TakenIsPrefix(env, t, fs, cs, i - 1);
      var m := Lead(env, t, fs, cs, i - 1);
      assert i > 1 ==> NeverExempt(fs[i - 1].req);
      assert fs[..m] + [fs[m]] == fs[..m + 1];
    }
  }

  /** Frames after the first rejected one are all answered FAULT. */
  lemma {:induction false} RestFaulted(env: Env, t: Target, fs: seq<Frame>, cs: seq<Choice>, i: nat)
    requires |fs| == |cs| && PackSafe(fs) && i < |fs|
    requires forall j :: 0 <= j <= i ==> Overrun(Serve(env, t, fs, cs, j))
    requires Lead(env, t, fs, cs, i) < i
    ensures ReplyAt(env, t, fs, cs, i) == Faulted
  {
    TakenIsPrefix(env, t, fs, cs, i);
  }

  lemma {:induction false} ExecNone(env: Env, t: Target, fs: seq<Frame>)
    ensures Exec(env, t, fs, 0) == t
  {
  }

  /** Executing a list of frames in two parts. */
  lemma {:induction false} ExecParts(env: Env, t: Target, fs: seq<Frame>, a: nat, b: nat, i: nat)
    requires a <= b <= |fs| && i <= b - a
    ensures Exec(env, Exec(env, t, fs, a), fs[a..b], i) == Exec(env, t, fs, a + i)
  {
    hide Apply;
    if i > 0 {
      ExecParts(env, t, fs, a, b, i - 1);
    }
  }
}
