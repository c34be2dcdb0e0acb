/** Discovering the TAPs of a chain and measuring its instruction register. */
module JtagDiscover {
  import opened Options
  import opened Contexts
  import opened Bits
  import opened Rows
  import opened JtagTap
  import opened JtagDevice
  import opened JtagTrace
  import opened JtagConn

  /** One reset data register as observed. */
  datatype Observed = IdCode(id: nat) | OneBit

  datatype Discovery = Complete(found: seq<Observed>) | OverLimit(found: seq<Observed>) | NoChain

  /** A register that can be told from the end of the chain. */
  predicate ValidRegister(o: Observed) {
    o.IdCode? ==> o.id < Pow2(32) - 1 && o.id % 2 == 1
  }

  function RegisterBits(o: Observed): seq<bool> {
    if o.OneBit? then [false] else BitsOf(o.id, 32)
  }

  /** The 32 bits at `offset`, as a number. */
  method WordAt(data: seq<bool>, offset: nat) returns (value: nat)
    requires offset + 32 <= |data|
    ensures value == Value(data[offset..offset + 32])
  {
    hide Pow2, Value;
    value := 0;
    var power := 1;
    Nothing();
    for i := 0 to 32
      invariant value == Value(data[offset..offset + i]) && power == Pow2(i)
    {
      ValueMore(data[offset..offset + i], data[offset + i]);
      assert data[offset..offset + i] + [data[offset + i]] == data[offset..offset + i + 1];
      value := value + Bit(data[offset + i]) * power;
      Doubled(i);
      power := 2 * power;
    }
  }

  lemma {:induction false} Nothing()
    ensures Value([]) == 0 && Pow2(0) == 1
  {
  }

  /** What the data says from `offset` on, with at most `left` more registers. */
  function Observe(data: seq<bool>, offset: nat, left: nat, found: seq<Observed>): Discovery
    requires offset + 32 * (left + 1) <= |data|
    decreases left
  {
    var value := Value(data[offset..offset + 32]);
    if value == Pow2(32) - 1 then if found == [] then NoChain else Complete(found)
    else if left == 0 then OverLimit(found)
    else if value % 2 == 0 then Observe(data, offset + 1, left - 1, found + [OneBit])
    else Observe(data, offset + 32, left - 1, found + [IdCode(value)])
  }

  /** Reads the registers off the scanned data. No data makes it read past the end. */
  method Observations(data: seq<bool>, maxTaps: nat) returns (result: Discovery)
    requires |data| == 32 * (maxTaps + 1)
    ensures result == Observe(data, 0, maxTaps, [])
  {
    hide Value, Pow2;
    var found: seq<Observed>, offset := [], 0;
    Pow32();
    while true
      invariant |found| <= maxTaps && offset + 32 * (maxTaps - |found| + 1) <= |data|
      invariant Observe(data, offset, maxTaps - |found|, found) == Observe(data, 0, maxTaps, [])
      decreases maxTaps - |found|
    {
      var value := WordAt(data, offset);
      if value == 0xffff_ffff {
        return if found == [] then NoChain else Complete(found);
      }
      if |found| == maxTaps {
        return OverLimit(found);
      }
      if value % 2 == 0 {
        found, offset := found + [OneBit], offset + 1;
      } else {
        found, offset := found + [IdCode(value)], offset + 32;
      }
    }
  }

  function AllBits(regs: seq<Observed>): (p: seq<seq<bool>>)
    ensures |p| == |regs| && forall i :: 0 <= i < |p| ==> p[i] == RegisterBits(regs[i])
  {
    seq(|regs|, i requires 0 <= i < |regs| => RegisterBits(regs[i]))
  }

  /** The registers of a chain, followed by ones to the end. */
  ghost predicate Chained(regs: seq<Observed>, data: seq<bool>) {
    var flat := Flat(AllBits(regs), |regs|);
    forall i :: 0 <= i < |data| ==> data[i] == if i < |flat| then flat[i] else true
  }

  /** Observing a chain of at most `maxTaps` valid registers gives exactly that chain; a
      longer one is reported as such, with its first registers. */
  lemma {:induction false} ObserveInverts(regs: seq<Observed>, data: seq<bool>, maxTaps: nat, k: nat)
    requires Chained(regs, data) && 0 < |regs| && |data| == 32 * (maxTaps + 1) && k <= |regs| && k <= maxTaps
    requires forall i :: 0 <= i < |regs| ==> ValidRegister(regs[i])
    ensures var offset := |Flat(AllBits(regs), k)|;
            && offset <= 32 * k
            && Observe(data, offset, maxTaps - k, regs[..k]) == if |regs| <= maxTaps then Complete(regs)
               else OverLimit(regs[..maxTaps])
    decreases |regs| - k
  {
    hide Value, Pow2, Flat, RegisterBits;
    var parts := AllBits(regs);
    var offset := |Flat(parts, k)|;
    ShortRow(regs, k);
    var word := data[offset..offset + 32];
    AllOnes(word);
    if k == |regs| {
      assert regs[..k] == regs;
      assert word == Ones(32);
    } else {
      NextRegister(regs, data, k);
      if k < maxTaps {
        ObserveInverts(regs, data, maxTaps, k + 1);
      }
      assert regs[..k] + [regs[k]] == regs[..k + 1];
    }
  }

  lemma {:induction false} ShortRow(regs: seq<Observed>, k: nat)
    requires k <= |regs|
    ensures |Flat(AllBits(regs), k)| <= 32 * k
  {
    hide BitsOf;
    if k > 0 {
      ShortRow(regs, k - 1);
    }
  }

  /** The word at register `k` starts with that register. */
  lemma {:induction false} NextRegister(regs: seq<Observed>, data: seq<bool>, k: nat)
    requires Chained(regs, data) && k < |regs| && ValidRegister(regs[k]) && |Flat(AllBits(regs), k)| + 32 <= |data|
    ensures var offset := |Flat(AllBits(regs), k)|;
            var value := Value(data[offset..offset + 32]);
            && value != Pow2(32) - 1
            && (if regs[k].OneBit? then value % 2 == 0 else value % 2 == 1 && value == regs[k].id)
            && |Flat(AllBits(regs), k + 1)| == offset + |RegisterBits(regs[k])|
            && |RegisterBits(regs[k])| == if regs[k].OneBit? then 1 else 32
  {
    hide Pow2, BitsOf, Flat, Chained, Value;
    var word, bits := data[|Flat(AllBits(regs), k)|..|Flat(AllBits(regs), k)| + 32], RegisterBits(regs[k]);
    InPlace(regs, data, k);
    if regs[k].OneBit? {
      assert !word[0];
      WordBits(word);
      OddOnes();
    } else {
      assert word == bits;
      ValueOfBits(regs[k].id, 32);
    }
  }

  lemma {:induction false} InPlace(regs: seq<Observed>, data: seq<bool>, k: nat)
    requires Chained(regs, data) && k < |regs| && |Flat(AllBits(regs), k)| + 32 <= |data|
    ensures var offset, bits := |Flat(AllBits(regs), k)|, RegisterBits(regs[k]);
            && |Flat(AllBits(regs), k + 1)| == offset + |bits| && |bits| <= 32
            && data[offset..offset + 32][..|bits|] == bits
  {
    hide Flat, RegisterBits, Chained;
    NextPart(regs, k);
    var offset, bits := |Flat(AllBits(regs), k)|, RegisterBits(regs[k]);
    forall i | 0 <= i < |bits|
      ensures data[offset..offset + 32][i] == bits[i]
    {
      BitInPlace(regs, data, k, i);
    }
  }

  lemma {:induction false} NextPart(regs: seq<Observed>, k: nat)
    requires k < |regs|
    ensures |Flat(AllBits(regs), k + 1)| == |Flat(AllBits(regs), k)| + |RegisterBits(regs[k])| &&
            |RegisterBits(regs[k])| <= 32
  {
    hide BitsOf;
  }

  lemma {:induction false} BitInPlace(regs: seq<Observed>, data: seq<bool>, k: nat, i: nat)
    requires Chained(regs, data) && k < |regs| && i < |RegisterBits(regs[k])| && |Flat(AllBits(regs), k)| + i < |data|
    ensures data[|Flat(AllBits(regs), k)| + i] == RegisterBits(regs[k])[i]
  {
    hide Flat, RegisterBits;
    FlatAt(AllBits(regs), k, i);
  }

  lemma {:induction false} OddOnes()
    ensures (Pow2(32) - 1) % 2 == 1
  {
    Pow32();
  }

  /** Conversely, what is observed was there: those registers and then 32 ones. */
  lemma {:induction false} ObserveSound(data: seq<bool>, offset: nat, left: nat, found: seq<Observed>)
    requires offset + 32 * (left + 1) <= |data| && data[..offset] == Flat(AllBits(found), |found|)
    requires forall i :: 0 <= i < |found| ==> ValidRegister(found[i])
    ensures var r := Observe(data, offset, left, found);
            r.Complete? ==>
              && |found| <= |r.found| <= |found| + left && Flat(AllBits(r.found), |r.found|) + Ones(32) <= data
              && forall i :: 0 <= i < |r.found| ==> ValidRegister(r.found[i])
    decreases left
  {
    hide Value, Pow2, BitsOf, Flat;
    var word := data[offset..offset + 32];
    var value := Value(word);
    AllOnes(word);
    if value == Pow2(32) - 1 {
      assert word == Ones(32);
      assert data[..offset] + word == data[..offset + 32];
    } else if left > 0 {
      WordBits(word);
      if value % 2 == 0 {
        RowMore(found, OneBit);
        assert data[..offset + 1] == data[..offset] + [data[offset]];
        ObserveSound(data, offset + 1, left - 1, found + [OneBit]);
      } else {
        RowMore(found, IdCode(value));
        assert data[..offset + 32] == data[..offset] + word;
        ObserveSound(data, offset + 32, left - 1, found + [IdCode(value)]);
      }
    }
  }

  lemma {:induction false} WordBits(word: seq<bool>)
    requires |word| == 32
    ensures BitsOf(Value(word), 32) == word && Value(word) < Pow2(32) && (Value(word) % 2 == 1 <==> word[0])
  {
    hide Pow2, BitsOf;
    BitsOfValue(word);
  }

  lemma {:induction false} RowMore(regs: seq<Observed>, o: Observed)
    ensures Flat(AllBits(regs + [o]), |regs| + 1) == Flat(AllBits(regs), |regs|) + RegisterBits(o)
  {
    hide RegisterBits;
    SamePrefix(AllBits(regs), AllBits(regs + [o]), |regs|);
  }

  lemma {:induction false} SamePrefix(a: seq<seq<bool>>, b: seq<seq<bool>>, n: nat)
    requires n <= |a| && n <= |b| && forall i :: 0 <= i < n ==> a[i] == b[i]
    ensures Flat(a, n) == Flat(b, n)
  {
    if n > 0 {
      SamePrefix(a, b, n - 1);
    }
  }

  // ----- On the wire -----

  /** Every TAP resets to BYPASS or to an identification register. */
  ghost predicate Resets(env: Env, regs: seq<Observed>) {
    && ValidEnv(env) && |regs| == |env.ir|
    && forall i, hist :: 0 <= i < |regs| ==>
         ValidRegister(regs[i]) && DrCapture(env, env.reset[i], hist, i) == RegisterBits(regs[i])
  }

  /** Resets the TAPs and observes their reset registers: all of them if they are within
      the limit. */
  method Discover(c: Conn, ctx: Ctx, maxTaps: int, ghost regs: seq<Observed>) returns (result: Option<Discovery>)
    requires c.Valid()
    modifies c`state, c`serial, c.wire, ctx
    ensures c.Valid() && c.serial >= old(c.serial) &&
            (c.serial == old(c.serial) ==> c.wire.d == old(c.wire.d) && c.state == old(c.state))
    ensures Traced(c.wire.env, old(c.wire.d), c.wire.d)
    ensures result.Some? ==> 1 <= maxTaps <= 1024 && c.state == At(Idle)
    ensures result.Some? && Resets(c.wire.env, regs) ==> result.value == Expected(regs, maxTaps)
  {
    hide Sound, Clock, Scan, Observe, Captured, Entered, Resets;
    var ok := c.Validate(ctx);
    if !ok || maxTaps < 1 || maxTaps > 1024 {
      return None;
    }
    ghost var d := c.wire.d;
    ok := c.ResetTaps(ctx);
    ClosingTraced(c.wire.env, d, c.wire.d);
    if !ok {
      return None;
    }
    ghost var d0, env := c.wire.d, c.wire.env;
    var bits := 32 * (maxTaps + 1);
    var capture, err, d1 := c.ScanRow(ctx, Ones(bits), bits, false);
    TracedMore(env, d, d0, c.wire.d);
    if capture.None? || err {
      return None;
    }
    var r := Observations(capture.value, maxTaps);
    result := Some(r);
    assert Ones(bits)[..bits] == Ones(bits);
    if Resets(env, regs) {
      ResetsObserved(env, d0, d1, regs, maxTaps, capture.value);
    }
  }

  /** What discovery of these registers should say. */
  function Expected(regs: seq<Observed>, maxTaps: nat): Discovery {
    if regs == [] then NoChain else if |regs| <= maxTaps then Complete(regs) else OverLimit(regs[..maxTaps])
  }

  /** What a reset chain looks like. */
  lemma {:induction false} ResetsObserved(env: Env, d0: Device, d1: Device, regs: seq<Observed>, maxTaps: nat,
                                          capture: seq<bool>)
    requires Sound(env, d0) && d0.state.Reset? && Sound(env, d1) && d1.state.Idle? && Entered(env, d0, d1)
    requires Resets(env, regs)
    requires capture == (Captured(env, d1, false) + Ones(32 * (maxTaps + 1)))[..32 * (maxTaps + 1)]
    ensures Observe(capture, 0, maxTaps, []) == Expected(regs, maxTaps)
  {
    hide Sound, Entered, Resets, Observe, Chained, Captured;
    FromReset(env, d0, d1);
    ResetRow(env, d1, regs, 32 * (maxTaps + 1), capture);
    if regs != [] {
      AllValid(env, regs);
      ObserveInverts(regs, capture, maxTaps, 0);
      assert Flat(AllBits(regs), 0) == [] && regs[..0] == [];
    } else {
      ObserveNothing(capture, maxTaps);
    }
  }

  lemma {:induction false} AllValid(env: Env, regs: seq<Observed>)
    requires Resets(env, regs)
    ensures forall i :: 0 <= i < |regs| ==> ValidRegister(regs[i])
  {
    hide ValidRegister, DrCapture, RegisterBits;
    forall i | 0 <= i < |regs|
      ensures ValidRegister(regs[i])
    {
      assert DrCapture(env, env.reset[i], [], i) == RegisterBits(regs[i]);
    }
  }

  lemma {:induction false} ObserveNothing(data: seq<bool>, maxTaps: nat)
    requires Chained([], data) && |data| == 32 * (maxTaps + 1)
    ensures Observe(data, 0, maxTaps, []).NoChain?
  {
    hide Value, Pow2;
    AllOnes(data[0..32]);
  }

  /** From Reset the way to Idle is one clock, which leaves the reset instructions. */
  lemma {:induction false} FromReset(env: Env, d0: Device, d1: Device)
    requires Sound(env, d0) && d0.state.Reset? && d1.state.Idle? && Entered(env, d0, d1)
    ensures d1 == d0.(state := Idle, instructions := env.reset)
  {
    hide Sound, Clock, Traced, Shortest;
    var path :| Shortest(d0.state, path, d1.state) && d1 == Clock(env, d0, path, Zeros(|path|), |path|);
    OutOfReset(env, d0, true, path, |path|);
  }

  lemma {:induction false} ResetRow(env: Env, d1: Device, regs: seq<Observed>, bits: nat, capture: seq<bool>)
    requires Sound(env, d1) && Resets(env, regs) && d1.instructions == env.reset
    requires capture == (Captured(env, d1, false) + Ones(bits))[..bits]
    ensures Chained(regs, capture)
  {
    hide RegisterBits, DrCapture;
    var parts := DrCaptures(env, d1.instructions, d1.hist);
    assert parts == AllBits(regs);
  }
}
