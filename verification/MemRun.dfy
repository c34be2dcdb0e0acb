/** Acquiring a MEM-AP, and whole runs of its operations. */
module DapMemRun {
  import opened Options
  import opened Contexts
  import opened Words
  import opened SwdTarget
  import opened DapPlan
  import opened DapPort
  import opened SimMemAp
  import opened DapMemCodec
  import opened DapMemHistory
  import opened DapMemSteps
  import opened DapMemAp
  import Immediate = DapPortAp

  const MEM_AP_CLASS := 8

  function ClassOf(idr: Word): Word {
    idr / 0x2000 % 16
  }

  /** The registers of the port, whatever a 64-bit transfer left open. */
  ghost predicate SameRegisters(r: Regs, r': Regs) {
    r' == r.(phase := r'.phase)
  }

  /** One register of the port, which stays as it is. */
  method Look(port: Port, ctx: Ctx, addr: Word, ghost m: MemPort, sel: Word) returns (value: Word, err: Option<Err>)
    requires port.Valid() && Serves(port.conn.wire.env, m) && m.sel == sel && addr < 0x100 && addr != DRW
    modifies port`st, port.conn`link, port.conn.wire, ctx
    ensures port.Valid()
    ensures var env, h0, h := port.conn.wire.env, old(port.conn.wire.t.hist), port.conn.wire.t.hist;
            var r, r' := RegsAt(env, m, h0), RegsAt(env, m, h);
            && Overwritten(env, m, h0, h, 0, [], 0) && SameRegisters(r, r') && (r.phase.Whole? ==> r'.phase.Whole?)
            && (err.None? ==> Answers(m, r, addr, value) && (addr == CSW ==> r'.phase.Whole?))
  {
    hide RegsAt, ByteAt, Overwritten, Serves;
    ghost var h0 := port.conn.wire.t.hist;
    value, err := Immediate.ReadAp(port, ctx, sel, addr);
    LookedAt(port.conn.wire.env, m, h0, addr, port.conn.wire.t.hist);
  }

  /** Identifies the port and takes the snapshot of the registers that memory access changes. */
  method OpenMemAp(port: Port, ctx: Ctx, sel: Word, ghost m: MemPort) returns (memory: MemAp?, err: Option<Err>)
    requires port.Valid() && Serves(port.conn.wire.env, m) && m.sel == sel && sel <= 0xff
    modifies port`st, port`memAps, port.conn`link, port.conn.wire, ctx
    ensures port.Valid() && (memory == null <==> err.Some?)
    ensures Overwritten(port.conn.wire.env, m, old(port.conn.wire.t.hist), port.conn.wire.t.hist, 0, [], 0)
    ensures SameRegisters(RegsAt(port.conn.wire.env, m, old(port.conn.wire.t.hist)),
                          RegsAt(port.conn.wire.env, m, port.conn.wire.t.hist))
    ensures memory == null ==> port.memAps == old(port.memAps)
    ensures sel in old(port.memAps) || !old(port.st.session.Connected?) ==>
              memory == null && port.st == old(port.st) && port.conn.wire.t == old(port.conn.wire.t)
    ensures memory != null ==> port.memAps == old(port.memAps) + {sel} && memory.sessionId == port.sessionId
    ensures memory != null ==>
              && fresh(memory) && memory.Valid() && memory.port == port && memory.target == m
              && memory.big == m.big && memory.large == m.large && memory.largeData == m.largeData
              && memory.Restored() && !memory.restoreCsw && !memory.restoreTar && !memory.restoreTarhi
  {
    hide RegsAt, ByteAt, Overwritten, Serves;
    memory := null;
    ghost var h0, env := port.conn.wire.t.hist, port.conn.wire.env;
    SameMemory(env, m, h0, 0, []);
    var idr, cfg, csw, tar, tarhi := 0, 0, 0, 0, 0;
    if !port.st.session.Connected? || sel in port.memAps {
      return null, Some(PLAIN);
    }
    idr, err := Look(port, ctx, IDR, m, sel);
    if err.Some? {
      return;
    }
    if idr == 0 || ClassOf(idr) != MEM_AP_CLASS {
      return null, Some(PLAIN);
    }
    ghost var h := port.conn.wire.t.hist;
    cfg, err := Look(port, ctx, CFG, m, sel);
    UndisturbedAgain(env, m, h0, h, port.conn.wire.t.hist);
    if err.Some? {
      return;
    }
    h := port.conn.wire.t.hist;
    csw, err := Look(port, ctx, CSW, m, sel);
    UndisturbedAgain(env, m, h0, h, port.conn.wire.t.hist);
    if err.Some? {
      return;
    }
    if cfg / 2 % 2 == 1 {
      h := port.conn.wire.t.hist;
      tarhi, err := Look(port, ctx, TARHI, m, sel);
      UndisturbedAgain(env, m, h0, h, port.conn.wire.t.hist);
      if err.Some? {
        return;
      }
    }
    h := port.conn.wire.t.hist;
    tar, err := Look(port, ctx, TAR, m, sel);
    UndisturbedAgain(env, m, h0, h, port.conn.wire.t.hist);
    if err.Some? {
      return;
    }
    var ended := ctx.Err();
    if ended {
      return null, Some(PLAIN);
    }
    memory := new MemAp(port, sel, cfg % 2 == 1, cfg / 2 % 2 == 1, cfg / 4 % 2 == 1, csw, tar, tarhi, m);
    port.memAps := port.memAps + {sel};
  }

  datatype Call =
    | LoadScalar(addr: nat, size: Size)
    | StoreScalar(addr: nat, size: Size, value: nat)
    | LoadBlock(addr: nat, length: nat)
    | StoreBlock(addr: nat, bytes: seq<Byte>)
    | GiveBack

  /** The call is a write whose range holds address `x`. */
  ghost predicate Covers(c: Call, x: int) {
    || (c.StoreScalar? && c.addr <= x < c.addr + Bytes(c.size))
    || (c.StoreBlock? && c.addr <= x < c.addr + |c.bytes|)
  }

  /** None of the first `n` calls was to write address `x`. */
  ghost predicate Untargeted(calls: seq<Call>, n: nat, x: int)
    requires n <= |calls|
  {
    forall i :: 0 <= i < n ==> !Covers(calls[i], x)
  }

  /** Memory differs only where one of the first `n` calls was to write. */
  ghost predicate Confined(env: Env, m: MemPort, calls: seq<Call>, n: nat, h0: seq<ApAccess>, h: seq<ApAccess>)
    requires n <= |calls|
  {
    forall x: int :: Untargeted(calls, n, x) ==> ByteAt(env, m, h, x) == ByteAt(env, m, h0, x)
  }

  lemma {:induction false} ConfinedNext(env: Env, m: MemPort, calls: seq<Call>, n: nat, h0: seq<ApAccess>,
                                        h: seq<ApAccess>, h': seq<ApAccess>,
                                        base: int, bytes: seq<Byte>, done: nat)
    requires n < |calls| && Confined(env, m, calls, n, h0, h) && Overwritten(env, m, h, h', base, bytes, done)
    requires forall x: int :: base <= x < base + done ==> Covers(calls[n], x)
    ensures Confined(env, m, calls, n + 1, h0, h')
  {
    hide ByteAt, Covers;
    forall x: int | Untargeted(calls, n + 1, x)
      ensures ByteAt(env, m, h', x) == ByteAt(env, m, h0, x)
    {
      assert !Covers(calls[n], x);
      assert Untargeted(calls, n, x);
    }
  }

  /** One call under some context. */
  method Perform(memory: MemAp, call: Call) returns (ok: bool, ghost base: int, ghost bytes: seq<Byte>, ghost done: nat)
    requires memory.Valid()
    modifies memory`restoreEpoch, memory`restoreCsw, memory`restoreTar, memory`restoreTarhi, memory`largePending,
             memory.port`st, memory.port.conn`link, memory.port.conn.wire
    ensures memory.Valid() && memory.Wrote(base, bytes, done)
    ensures forall x: int :: base <= x < base + done ==> Covers(call, x)
    ensures call.GiveBack? && ok ==> memory.Restored()
  {
    hide RegsAt, ByteAt, Overwritten, Serves, Fills, Holds;
    var budget: nat := *;
    var ctx := new Ctx(budget);
    var err: Option<Err>;
    base, bytes, done := 0, [], 0;
    if call.LoadScalar? {
      var value;
      err, value := memory.ReadScalar(ctx, call.addr, call.size);
    } else if call.StoreScalar? {
      base, bytes := call.addr, if Fits(call.size, call.value) then BytesOf(memory.big, call.size, call.value) else [];
      err, done := memory.WriteScalar(ctx, call.addr, call.size, call.value);
    } else if call.LoadBlock? {
      var buf := new Byte[call.length];
      var n;
      n, err := memory.ReadBlock(ctx, call.addr, buf);
    } else if call.StoreBlock? {
      var buf := new Byte[|call.bytes|](i requires 0 <= i < |call.bytes| => call.bytes[i]);
      assert buf[..] == call.bytes;
      base, bytes := call.addr, call.bytes;
      var n;
      n, err, done := memory.WriteBlock(ctx, call.addr, buf);
    } else {
      err := memory.Release(ctx);
    }
    ok := err.None?;
  }

  /** Any run of reads, writes and releases, each of which may fail anywhere: memory changes
      only where a write was asked for, every changed register stays marked, and a
      release that succeeds leaves the registers as they were acquired. */
  method RunAll(memory: MemAp, calls: seq<Call>) returns (released: bool)
    requires memory.Valid()
    modifies memory`restoreEpoch, memory`restoreCsw, memory`restoreTar, memory`restoreTarhi, memory`largePending,
             memory.port`st, memory.port.conn`link, memory.port.conn.wire
    ensures memory.Valid()
    ensures Confined(memory.port.conn.wire.env, memory.target, calls, |calls|, old(memory.Hist()), memory.Hist())
    ensures released ==> memory.Restored()
  {
    hide RegsAt, ByteAt, Overwritten, Serves, Covers;
    released := false;
    for i := 0 to |calls|
      invariant memory.Valid() && (released ==> memory.Restored())
      invariant Confined(memory.port.conn.wire.env, memory.target, calls, i, old(memory.Hist()), memory.Hist())
    {
      ghost var h := memory.Hist();
      var ok, base, bytes, done := Perform(memory, calls[i]);
      ConfinedNext(memory.port.conn.wire.env, memory.target, calls, i, old(memory.Hist()), h, memory.Hist(), base,
                   bytes, done);
      released := ok && calls[i].GiveBack?;
    }
  }
}
