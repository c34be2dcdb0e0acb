/** The owner of one MEM-AP: target-memory access and the registers it has to restore. */
module DapMemAp {
  import opened Options
  import opened Contexts
  import opened Words
  import opened SwdTarget
  import opened SwdLink
  import opened SwdWire
  import opened DapPlan
  import opened DapState
  import opened DapPort
  import opened DapTxn
  import opened DapPartial
  import opened DapApTxn
  import opened SimMemAp
  import opened DapMemCodec
  import opened DapMemHistory
  import Rows
  import opened DapMemSteps
  import Immediate = DapPortAp

  /** How a CSW selection ended. */
  datatype Selection = Selected | NoIncrement | Refused(err: Err)

  /** Commits one queue of AP operations. */
  method CommitOps(port: Port, ctx: Ctx, ops: seq<Op>)
    returns (err: Option<Err>, results: seq<OpResult>, accepted: seq<nat>, ghost n: nat)
    requires port.Valid() && AllAp(ops)
    modifies port`st, port.conn`link, port.conn.wire, ctx
    ensures port.Valid()
    ensures Answered(port.conn.wire.env, ops, results, old(port.conn.wire.t.hist), n, port.conn.wire.t.hist)
    ensures err.None? ==> n == |ops|
    ensures |accepted| == |ops|
    ensures n < |ops| && !Begun(results, n) ==> port.conn.wire.t.hist == old(port.conn.wire.t.hist)
    ensures err.Some? ==>
              n < |ops| && Confessed(ops, results, accepted, n, old(port.conn.wire.t.hist), port.conn.wire.t.hist,
                                     err.value)
    ensures |ops| == 1 && ops[0].WriteSeq? && ConfirmedWrites(ops[0], results[0], accepted[0]) > 0 ==>
              && port.conn.wire.t.hist == old(port.conn.wire.t.hist) + Seen(ops, 0, 1)
              && !port.conn.wire.env.faults(port.conn.wire.t.hist)
  {
    hide Answered, AllAp, Seen;
    var txn := new Txn(port);
    assert txn.Queued();
    for i := 0 to |ops|
      invariant txn.Queued() && txn.ops == ops[..i] && fresh(txn) && txn.port == port
      invariant port.Valid() && port.conn.wire.t == old(port.conn.wire.t)
    {
      txn.Queue(ops[i]);
    }
    assert txn.ops == ops;
    err, n := CommitAp(txn, ctx);
    results, accepted := txn.results, txn.accepted;
  }

  class MemAp {
    const port: Port
    const sel: Word
    const big: bool
    const large: bool
    const largeData: bool
    // The configuration every selection starts from, and the snapshot to restore.
    const csw: Word
    const savedCsw: Word
    const savedTar: Word
    const savedTarhi: Word
    const epoch: nat
    const sessionId: nat
    var restoreEpoch: nat
    var restoreCsw: bool
    var restoreTar: bool
    var restoreTarhi: bool
    var largePending: bool
    // The access port behind the selector.
    ghost const target: MemPort

    /** From the register values read at acquisition. */
    constructor (port: Port, sel: Word, big: bool, large: bool, largeData: bool, csw: Word, tar: Word, tarhi: Word,
                 ghost target: MemPort)
      requires port.Valid() && sel <= 0xff && target.sel == sel && target.big == big && target.large == large
      requires Serves(port.conn.wire.env, target)
      requires var r := RegsAt(port.conn.wire.env, target, port.conn.wire.t.hist);
               r.csw == csw && r.tar == tar && (large ==> r.tarhi == tarhi) && r.phase.Whole?
      ensures Valid() && this.port == port && this.target == target && !restoreCsw && !restoreTar && !restoreTarhi
      ensures savedCsw == csw && savedTar == tar && savedTarhi == tarhi
      ensures this.big == big && this.large == large && this.largeData == largeData
      ensures epoch == port.st.generation && sessionId == port.sessionId
    {
      this.port, this.sel, this.big, this.large, this.largeData := port, sel, big, large, largeData;
      this.csw := WithFields(csw, 2, 0);
      savedCsw, savedTar, savedTarhi := csw, tar, tarhi;
      epoch, restoreEpoch, sessionId := port.st.generation, port.st.generation, port.sessionId;
      restoreCsw, restoreTar, restoreTarhi, largePending := false, false, false, false;
      this.target := target;
      StaysSupported(port.conn.wire.env, target, port.conn.wire.t.hist);
    }

    ghost function Hist(): seq<ApAccess>
      reads this, port, port.conn, port.conn.wire
    {
      port.conn.wire.t.hist
    }

    ghost function Registers(): Regs
      reads this, port, port.conn, port.conn.wire
    {
      RegsAt(port.conn.wire.env, target, Hist())
    }

    /** Every register that differs from the snapshot is marked for restoration, and an
        unfinished 64-bit transfer is known. */
    ghost predicate Marked()
      reads this, port, port.conn, port.conn.wire
    {
      var r := Registers();
      && (r.csw != savedCsw ==> restoreCsw)
      && (r.tar != savedTar ==> restoreTar)
      && (large && r.tarhi != savedTarhi ==> restoreTarhi)
      && (!r.phase.Whole? ==> largePending && restoreCsw)
      && (restoreTarhi ==> large)
    }

    ghost predicate Bound()
      reads this, port, port.conn, port.conn.wire
    {
      && sel <= 0xff && target.sel == sel && target.big == big && target.large == large
      && Serves(port.conn.wire.env, target)
      && Supported(target, savedCsw)
    }

    ghost predicate Valid()
      reads this, port, port.conn, port.conn.wire
    {
      port.Valid() && Bound() && Marked()
    }

    /** No byte of memory has changed. */
    twostate predicate Undisturbed()
      reads this, port, port.conn, port.conn.wire
    {
      Overwritten(port.conn.wire.env, target, old(port.conn.wire.t.hist), port.conn.wire.t.hist, 0, [], 0)
    }

    predicate Active()
      reads this, port
    {
      sessionId == port.sessionId && epoch == port.st.generation && port.st.session.Connected?
    }

    method CheckActive(ctx: Ctx) returns (ok: bool)
      modifies ctx
      ensures ok ==> Active() && ctx.budget < old(ctx.budget)
      ensures !ok ==> !Active() || ctx.budget == old(ctx.budget) == 0
    {
      if !Active() {
        return false;
      }
      var ended := ctx.Err();
      ok := !ended;
    }

    ghost predicate Sized(size: Size)
      reads this, port, port.conn, port.conn.wire
    {
      SizeField(Registers().csw) == Encoding(size) && Registers().phase.Whole?
    }

    // ----- Selecting size and increment -----

    ghost predicate Configured(size: Size, inc: nat)
      reads this, port, port.conn, port.conn.wire
    {
      Sized(size) && IncField(Registers().csw) == inc
    }

    /** Writes CSW and reads it back: the AP may not take the size or the increment. */
    method SelectCsw(ctx: Ctx, size: Size, inc: nat) returns (s: Selection)
      requires Valid() && inc < 4
      modifies this`restoreCsw, this`largePending, port`st, port.conn`link, port.conn.wire, ctx
      ensures Valid() && Undisturbed() && restoreCsw
      ensures s.Selected? ==> Configured(size, inc)
      ensures s.NoIncrement? ==> !target.increments
    {
      hide Answered, RegsAt, ByteAt, Overwritten, WithFields, SizeField, IncField, Serves;
      restoreCsw := true;
      var desired := WithFields(csw, Encoding(size), inc);
      var ops := [WriteAp(sel, CSW, desired, true), ReadAp(sel, CSW, true)];
      ghost var h0, env := Hist(), port.conn.wire.env;
      var err, results, accepted, n := CommitOps(port, ctx, ops);
      CswHistory(env, target, h0, ops, results, n, Hist(), desired);
      if err.Some? {
        return Refused(err.value);
      }
      largePending := false;
      var value := results[1].value;
      if SizeField(value) != Encoding(size) {
        return Refused(PLAIN);
      }
      if IncField(value) != inc {
        return NoIncrement;
      }
      return Selected;
    }

    // ----- Reading -----

    /** Marks the address registers, which the next transaction changes. */
    method MarkAddress()
      requires Valid()
      modifies this`restoreTar, this`restoreTarhi
      ensures Valid() && restoreTar && (large ==> restoreTarhi)
    {
      if large {
        restoreTarhi := true;
      }
      restoreTar := true;
    }

    /** Words at `addr`, as far as they could be read. */
    ghost predicate ReadBack(h: seq<ApAccess>, addr: int, words: seq<Word>)
      reads this, port, port.conn, port.conn.wire
    {
      forall j :: 0 <= j < |words| ==> Holds(port.conn.wire.env, target, h, addr + 4 * j, Size32, words[j])
    }

    /** One transaction of posted reads through the incrementing TAR. */
    method ReadRun(ctx: Ctx, addr: nat, count: nat) returns (err: Option<Err>, words: seq<Word>)
      requires Valid() && Configured(Size32, INC_SINGLE) && restoreTar && (large ==> restoreTarhi)
      requires InRange(large, addr) && addr % 4 == 0 && addr % WINDOW + 4 * count <= WINDOW
      modifies port`st, port.conn`link, port.conn.wire, ctx
      ensures Valid() && Undisturbed() && |words| <= count && (err.None? ==> |words| == count)
      ensures ReadBack(old(Hist()), addr, words)
    {
      hide Answered, RegsAt, ByteAt, Overwritten, SizeField, IncField, Serves, Partly, InLanes, Holds, AddressOps,
           AddressAccesses;
      var ops := AddressOps(large, sel, addr) + ReadOps(sel, count);
      var first := |AddressOps(large, sel, addr)|;
      ghost var h0, env := Hist(), port.conn.wire.env;
      SameMemory(env, target, h0, 0, []);
      RunOpsAp(large, sel, addr, count);
      var results, accepted;
      ghost var n;
      err, results, accepted, n := CommitOps(port, ctx, ops);
      AnsweredAll(env, ops, results, h0, n, Hist());
      RunSeenAll(large, sel, addr, count);
      ReadEffects(env, target, h0, addr, count, Hist());
      words := [];
      while |words| < count && results[first + |words|].err.None?
        invariant |words| <= count && first + |words| <= |results|
        invariant forall j :: 0 <= j < |words| ==> first + j < n && words[j] == results[first + j].value
        decreases count - |words|
      {
        words := words + [results[first + |words|].value];
      }
      forall j | 0 <= j < |words|
        ensures Holds(env, target, h0, addr + 4 * j, Size32, words[j])
      {
        assert words[j] == results[first + j].value;
        RunWord(env, target, h0, ops, results, n, Hist(), addr, count, j);
        WordHolds(env, target, h0, h0, addr + 4 * j, words[j]);
      }
    }

    /** One read of at most 32 bits: the data word with the addressed bytes in their lanes. */
    method ReadOne(ctx: Ctx, addr: nat, size: Size) returns (err: Option<Err>, word: Word)
      requires Valid() && size != Size64 && Sized(size) && InRange(large, addr) && addr % Bytes(size) == 0
      modifies this`restoreTar, this`restoreTarhi, port`st, port.conn`link, port.conn.wire, ctx
      ensures Valid() && Undisturbed() && Sized(size)
      ensures err.None? ==> InLanes(port.conn.wire.env, target, old(Hist()), addr, size, word)
    {
      hide Answered, RegsAt, ByteAt, Overwritten, SizeField, Serves, Partly, AddressOps, AddressAccesses, Lane, LaneOf,
           Seen;
      MarkAddress();
      var ops := AddressOps(large, sel, addr) + [ReadAp(sel, DRW, true)];
      ghost var h0, env := Hist(), port.conn.wire.env;
      AddressOpsAp(large, sel, addr);
      var results, accepted;
      ghost var n;
      err, results, accepted, n := CommitOps(port, ctx, ops);
      AnsweredAll(env, ops, results, h0, n, Hist());
      ReadsSeen(large, sel, addr, [ReadAp(sel, DRW, true)], 1);
      ReadEffects(env, target, h0, addr, 1, Hist());
      word := results[|ops| - 1].value;
      if err.None? {
        forall x: int | addr <= x < addr + Bytes(size)
          ensures Lane(word, LaneOf(big, x)) == ByteAt(env, target, h0, x)
        {
          SingleRead(env, target, h0, ops, results, Hist(), addr, size, x);
        }
      }
    }

    /** Sets the address in a transaction of its own. */
    method CommitAddress(ctx: Ctx, addr: nat) returns (err: Option<Err>)
      requires Valid() && InRange(large, addr) && restoreTar && (large ==> restoreTarhi) && Sized(Size64)
      modifies port`st, port.conn`link, port.conn.wire, ctx
      ensures Valid() && Undisturbed() && Sized(Size64)
      ensures err.None? ==> Address(target, Registers()) == addr
    {
      hide Answered, RegsAt, ByteAt, Overwritten, SizeField, Serves, Partly, AddressOps, AddressAccesses, Seen, Address;
      var ops := AddressOps(large, sel, addr);
      ghost var h0, env := Hist(), port.conn.wire.env;
      AddressOpsAp(large, sel, addr);
      assert ops + [] == ops;
      AddressSeen(large, sel, addr, []);
      var results, accepted;
      ghost var n;
      err, results, accepted, n := CommitOps(port, ctx, ops);
      AnsweredAll(env, ops, results, h0, n, Hist());
      AddressEffects(env, target, h0, addr, Hist());
    }

    /** The first half of a 64-bit transfer may have been made without the second. */
    method RequireLargeDataCleanup(generation: nat)
      requires port.Valid()
      modifies this`largePending, port`st
      ensures port.Valid() && largePending
      ensures port.st.session.RepairRequired? && port.st.generation != generation
    {
      hide Coherent;
      largePending := true;
      if port.st.generation == generation {
        port.st := InvalidateAp(port.st);
      }
      port.st := port.st.(session := RepairRequired);
    }

    /** A 64-bit read in two halves. */
    method ReadLarge(ctx: Ctx, addr: nat) returns (err: Option<Err>, value: int)
      requires Valid() && Sized(Size64) && InRange(large, addr) && addr % 8 == 0 && restoreCsw
      modifies this`largePending, this`restoreTar, this`restoreTarhi, port`st, port.conn`link, port.conn.wire, ctx
      ensures Valid() && Undisturbed() && Fits(Size64, value)
      ensures err.None? ==> Holds(port.conn.wire.env, target, old(Hist()), addr, Size64, value)
      ensures err.None? ==> !largePending
    {
      hide Answered, RegsAt, ByteAt, Overwritten, SizeField, Serves, Partly, Holds, Joined, Address, NoFault;
      value := 0;
      MarkAddress();
      ghost var h0, env := Hist(), port.conn.wire.env;
      err := CommitAddress(ctx, addr);
      if err.Some? {
        return;
      }
      ghost var h1 := Hist();
      var ops := [ReadAp(sel, DRW, true), ReadAp(sel, DRW, true)];
      var generation := port.st.generation;
      var results, accepted;
      ghost var n;
      err, results, accepted, n := CommitOps(port, ctx, ops);
      LargeAnswer(env, target, h1, ops, results, n, Hist(), addr);
      UndisturbedAgain(env, target, h0, h1, Hist());
      if err.Some? {
        if results[0].err.None? || !results[0].err.value.notExecuted {
          RequireLargeDataCleanup(generation);
        }
        return;
      }
      largePending := false;
      value := Joined(results[0].value, results[1].value);
      HoldsAgain(env, target, h0, h1, addr, Size64, value);
    }

    /** Reads one aligned scalar, right-justified whatever its lanes and byte order. */
    method ReadScalar(ctx: Ctx, addr: nat, size: Size) returns (err: Option<Err>, value: int)
      requires Valid()
      modifies this`restoreCsw, this`largePending, this`restoreTar, this`restoreTarhi, port`st, port.conn`link,
               port.conn.wire, ctx
      ensures Valid() && Undisturbed() && Fits(size, value)
      ensures err.None? ==> Holds(port.conn.wire.env, target, old(Hist()), addr, size, value)
    {
      hide RegsAt, ByteAt, Overwritten, SizeField, IncField, Serves, Holds, Scalar, InLanes;
      value := 0;
      ghost var h0, env := Hist(), port.conn.wire.env;
      SameMemory(env, target, h0, 0, []);
      var ok := CheckActive(ctx);
      if !ok || addr % Bytes(size) != 0 || !InRange(large, addr + Bytes(size) - 1) || (size == Size64 && !largeData) {
        return Some(PLAIN), 0;
      }
      var s := SelectCsw(ctx, size, 0);
      ghost var h := Hist();
      if !s.Selected? {
        return Some(Unselected(s)), 0;
      }
      if size == Size64 {
        err, value := ReadLarge(ctx, addr);
      } else {
        var word;
        err, word := ReadOne(ctx, addr, size);
        if err.None? {
          largePending := false;
          value := Scalar(big, addr, size, word);
          LanesHold(env, target, h, addr, size, word);
          ScalarFits(big, addr, size, word);
        }
      }
      UndisturbedAgain(env, target, h0, h, Hist());
      if err.None? {
        HoldsAgain(env, target, h0, h, addr, size, value);
      }
    }

    /** Words one by one, each with its own address. */
    method ReadWordsWithoutIncrement(ctx: Ctx, addr: nat, count: nat) returns (err: Option<Err>, words: seq<Word>)
      requires Valid() && addr % 4 == 0 && count > 0 && InRange(large, addr + 4 * count - 1)
      modifies this`restoreCsw, this`largePending, this`restoreTar, this`restoreTarhi, port`st, port.conn`link,
               port.conn.wire, ctx
      ensures Valid() && Undisturbed() && |words| <= count && (err.None? ==> |words| == count)
      ensures ReadBack(old(Hist()), addr, words)
    {
      hide RegsAt, ByteAt, Overwritten, SizeField, Serves, InLanes, Holds;
      words := [];
      ghost var h0, env := Hist(), port.conn.wire.env;
      var s := SelectCsw(ctx, Size32, 0);
      if !s.Selected? {
        return Some(Unselected(s)), [];
      }
      while |words| < count
        invariant |words| <= count && Valid() && Undisturbed() && ReadBack(h0, addr, words) && Sized(Size32)
        decreases count - |words|
      {
        ghost var h := Hist();
        var word;
        err, word := ReadOne(ctx, addr + 4 * |words|, Size32);
        UndisturbedAgain(env, target, h0, h, Hist());
        if err.Some? {
          return;
        }
        WordHolds(env, target, h0, h, addr + 4 * |words|, word);
        words := words + [word];
      }
      err := None;
    }

    /** A chunk of words, through the incrementing TAR if the AP has one. */
    method ReadWordChunk(ctx: Ctx, addr: nat, count: nat) returns (err: Option<Err>, words: seq<Word>)
      requires Valid() && addr % 4 == 0 && InRange(large, addr + 4 * count - 1) && count > 0 &&
               addr % WINDOW + 4 * count <= WINDOW
      modifies this`restoreCsw, this`largePending, this`restoreTar, this`restoreTarhi, port`st, port.conn`link,
               port.conn.wire, ctx
      ensures Valid() && Undisturbed() && |words| <= count && (err.None? ==> |words| == count)
      ensures ReadBack(old(Hist()), addr, words)
    {
      hide RegsAt, ByteAt, Overwritten, SizeField, IncField, Serves, Holds;
      ghost var h0, env := Hist(), port.conn.wire.env;
      words := [];
      var s := SelectCsw(ctx, Size32, INC_SINGLE);
      ghost var h := Hist();
      if s.Refused? {
        return Some(s.err), [];
      }
      if s.NoIncrement? {
        err, words := ReadWordsWithoutIncrement(ctx, addr, count);
      } else {
        MarkAddress();
        err, words := ReadRun(ctx, addr, count);
      }
      UndisturbedAgain(env, target, h0, h, Hist());
      forall j | 0 <= j < |words|
        ensures Holds(env, target, h0, addr + 4 * j, Size32, words[j])
      {
        HoldsAgain(env, target, h0, h, addr + 4 * j, Size32, words[j]);
      }
    }

    // ----- Reading a block -----

    /** Stores a right-justified scalar in the byte order of the AP. */
    method PutBlockValue(buf: array<Byte>, at: nat, size: Size, value: int)
      requires Fits(size, value) && at + Bytes(size) <= buf.Length
      modifies buf
      ensures forall j :: 0 <= j < Bytes(size) ==> buf[at + j] == ScalarByte(big, size, value, j)
      ensures forall i :: 0 <= i < buf.Length && !(at <= i < at + Bytes(size)) ==> buf[i] == old(buf[i])
    {
      hide Lane, ScalarByte;
      for j := 0 to Bytes(size)
        invariant forall k :: 0 <= k < j ==> buf[at + k] == ScalarByte(big, size, value, k)
        invariant forall i :: 0 <= i < buf.Length && !(at <= i < at + j) ==> buf[i] == old(buf[i])
      {
        buf[at + j] := ScalarByte(big, size, value, j);
      }
    }

    /** Selects each size the block needs once, so that an unsupported one is found first. */
    method CheckBlockSizes(ctx: Ctx, segments: seq<Segment>) returns (err: Option<Err>)
      requires Valid()
      modifies this`restoreCsw, this`largePending, port`st, port.conn`link, port.conn.wire, ctx
      ensures Valid() && Undisturbed()
      ensures err.None? ==> forall i :: 0 <= i < |segments| ==> target.sizes(Encoding(segments[i].size))
    {
      hide RegsAt, ByteAt, Overwritten, Serves;
      ghost var h0, env := Hist(), port.conn.wire.env;
      SameMemory(env, target, h0, 0, []);
      var checked: set<Size> := {};
      for i := 0 to |segments|
        invariant Valid() && Undisturbed()
        invariant forall j :: 0 <= j < i ==> segments[j].size in checked
        invariant forall size :: size in checked ==> target.sizes(Encoding(size))
      {
        if segments[i].size !in checked {
          ghost var h := Hist();
          var s := SelectCsw(ctx, segments[i].size, 0);
          UndisturbedAgain(env, target, h0, h, Hist());
          if !s.Selected? {
            return Some(Unselected(s));
          }
          TakesSize(env, target, Hist(), segments[i].size);
          checked := checked + {segments[i].size};
        }
      }
      return None;
    }

    /** Stores words that were read at `addr + at`. */
    method StoreWords(buf: array<Byte>, at: nat, words: seq<Word>, ghost h: seq<ApAccess>, ghost addr: nat,
                      ghost before: seq<Byte>)
      requires at + 4 * |words| <= buf.Length && target.big == big
      requires Fills(port.conn.wire.env, target, h, addr, before, buf[..], at)
      requires ReadBack(h, addr + at, words)
      modifies buf
      ensures Fills(port.conn.wire.env, target, h, addr, before, buf[..], at + 4 * |words|)
    {
      hide ByteAt, Fills, ScalarByte, Holds;
      for j := 0 to |words|
        invariant Fills(port.conn.wire.env, target, h, addr, before, buf[..], at + 4 * j)
      {
        ghost var was := buf[..];
        PutBlockValue(buf, at + 4 * j, Size32, words[j]);
        assert Holds(port.conn.wire.env, target, h, addr + at + 4 * j, Size32, words[j]);
        ScalarStored(port.conn.wire.env, target, h, addr, before, was, buf[..], at + 4 * j, Size32, words[j]);
      }
    }

    /** A run of words, in transactions of bounded length. */
    method ReadWordSegment(ctx: Ctx, buf: array<Byte>, segment: Segment, ghost h0: seq<ApAccess>, ghost addr: nat,
                           ghost before: seq<Byte>)
      returns (n: nat, err: Option<Err>)
      requires Valid() && Overwritten(port.conn.wire.env, target, h0, Hist(), 0, [], 0)
      requires Proper(segment, addr) && segment.inc && segment.offset + Extent(segment) <= buf.Length
      requires InRange(large, addr + buf.Length - 1)
      requires Fills(port.conn.wire.env, target, h0, addr, before, buf[..], segment.offset)
      modifies buf, this`restoreCsw, this`largePending, this`restoreTar, this`restoreTarhi, port`st, port.conn`link,
               port.conn.wire, ctx
      ensures Valid() && Overwritten(port.conn.wire.env, target, h0, Hist(), 0, [], 0)
      ensures Fills(port.conn.wire.env, target, h0, addr, before, buf[..], n)
      ensures err.None? ==> n == segment.offset + Extent(segment)
    {
      hide RegsAt, ByteAt, Overwritten, Serves, Fills, Holds;
      n := segment.offset;
      var first := 0;
      while first < segment.count
        invariant first <= segment.count && n == segment.offset + 4 * first && Valid()
        invariant Overwritten(port.conn.wire.env, target, h0, Hist(), 0, [], 0)
        invariant Fills(port.conn.wire.env, target, h0, addr, before, buf[..], n)
      {
        var count := if segment.count - first < CHUNK_WORDS then segment.count - first else CHUNK_WORDS;
        ghost var h := Hist();
        var words;
        ChunkInWindow(segment.address, 4 * first, 4 * count);
        err, words := ReadWordChunk(ctx, segment.address + 4 * first, count);
        UndisturbedAgain(port.conn.wire.env, target, h0, h, Hist());
        forall j | 0 <= j < |words|
          ensures Holds(port.conn.wire.env, target, h0, addr + n + 4 * j, Size32, words[j])
        {
          assert Holds(port.conn.wire.env, target, h, segment.address + 4 * first + 4 * j, Size32, words[j]);
          HoldsAgain(port.conn.wire.env, target, h0, h, addr + n + 4 * j, Size32, words[j]);
        }
        StoreWords(buf, n, words, h0, addr, before);
        n := n + 4 * |words|;
        if err.Some? {
          return;
        }
        first := first + count;
      }
      err := None;
    }

    /** One narrow access at the edge of a block. */
    method ReadBlockEdge(ctx: Ctx, buf: array<Byte>, segment: Segment, ghost h0: seq<ApAccess>, ghost addr: nat,
                         ghost before: seq<Byte>)
      returns (n: nat, err: Option<Err>)
      requires Valid() && Overwritten(port.conn.wire.env, target, h0, Hist(), 0, [], 0)
      requires Proper(segment, addr) && !segment.inc && segment.offset + Extent(segment) <= buf.Length
      requires Fills(port.conn.wire.env, target, h0, addr, before, buf[..], segment.offset)
      modifies buf, this`restoreCsw, this`largePending, this`restoreTar, this`restoreTarhi, port`st, port.conn`link,
               port.conn.wire, ctx
      ensures Valid() && Overwritten(port.conn.wire.env, target, h0, Hist(), 0, [], 0)
      ensures Fills(port.conn.wire.env, target, h0, addr, before, buf[..], n)
      ensures err.None? ==> n == segment.offset + Extent(segment)
    {
      hide RegsAt, ByteAt, Overwritten, Serves, Fills, Holds, ScalarByte;
      n := segment.offset;
      ghost var env, h := port.conn.wire.env, Hist();
      var value;
      err, value := ReadScalar(ctx, segment.address, segment.size);
      UndisturbedAgain(env, target, h0, h, Hist());
      if err.Some? {
        return;
      }
      ghost var was := buf[..];
      PutBlockValue(buf, n, segment.size, value);
      HoldsAgain(env, target, h0, h, addr + n, segment.size, value);
      ScalarStored(env, target, h0, addr, before, was, buf[..], n, segment.size, value);
      n := n + Bytes(segment.size);
    }

    /** Reads a range of target memory. The first `n` bytes of the buffer are then memory
        as it was, all of them on success; the others, and memory itself, are unchanged. */
    method ReadBlock(ctx: Ctx, addr: nat, buf: array<Byte>) returns (n: nat, err: Option<Err>)
      requires Valid()
      modifies buf, this`restoreCsw, this`largePending, this`restoreTar, this`restoreTarhi, port`st, port.conn`link,
               port.conn.wire, ctx
      ensures Valid() && Undisturbed()
      ensures Fills(port.conn.wire.env, target, old(Hist()), addr, old(buf[..]), buf[..], n)
      ensures err.None? ==> n == buf.Length
    {
      hide RegsAt, ByteAt, Overwritten, Serves, Fills, Tiles, Proper, Extent;
      ghost var env, h0, before := port.conn.wire.env, Hist(), buf[..];
      SameMemory(env, target, h0, 0, []);
      FillsNone(env, target, h0, addr, before);
      n, err := 0, None;
      if buf.Length == 0 {
        return;
      }
      var ok := CheckActive(ctx);
      if !ok || !InRange(large, addr + buf.Length - 1) {
        return 0, Some(PLAIN);
      }
      var segments := BlockSegments(addr, buf.Length);
      err := CheckBlockSizes(ctx, segments);
      if err.Some? {
        return;
      }
      TilesSome(segments, addr, buf.Length);
      for i := 0 to |segments|
        invariant Valid() && Overwritten(env, target, h0, Hist(), 0, [], 0)
        invariant Fills(env, target, h0, addr, before, buf[..], n)
        invariant i < |segments| ==> n == segments[i].offset
        invariant i == |segments| ==> n == buf.Length
      {
        TilesPart(segments, addr, buf.Length, i);
        if segments[i].inc {
          n, err := ReadWordSegment(ctx, buf, segments[i], h0, addr, before);
        } else {
          n, err := ReadBlockEdge(ctx, buf, segments[i], h0, addr, before);
        }
        if err.Some? {
          return;
        }
      }
    }

    // ----- Writing -----

    /** Memory is as before with the first `n` of `bytes` at `base`. */
    twostate predicate Wrote(base: int, bytes: seq<Byte>, n: nat)
      reads this, port, port.conn, port.conn.wire
    {
      Overwritten(port.conn.wire.env, target, old(port.conn.wire.t.hist), port.conn.wire.t.hist, base, bytes, n)
    }

    /** A 64-bit write in two halves; memory has all of it or nothing. */
    method WriteLarge(ctx: Ctx, addr: nat, value: int) returns (err: Option<Err>, ghost done: nat)
      requires Valid() && Sized(Size64) && InRange(large, addr) && addr % 8 == 0 && restoreCsw && Fits(Size64, value)
      modifies this`largePending, this`restoreTar, this`restoreTarhi, port`st, port.conn`link, port.conn.wire, ctx
      ensures Valid() && (done == 0 || done == 8) && Wrote(addr, BytesOf(big, Size64, value), done)
      ensures err.None? ==> done == 8
      ensures err.Some? && done > 0 ==> Open(err.value)
    {
      hide Answered, RegsAt, ByteAt, Overwritten, SizeField, Serves, Partly, Joined, Address, NoFault, ScalarByte,
           Confessed, Open;
      MarkAddress();
      ghost var h0, env, bytes := Hist(), port.conn.wire.env, BytesOf(big, Size64, value);
      done := 0;
      err := CommitAddress(ctx, addr);
      UndisturbedWrote(env, target, h0, Hist(), addr, bytes);
      if err.Some? {
        return;
      }
      ghost var h1 := Hist();
      var ops := [WriteAp(sel, DRW, Low(value), true), WriteAp(sel, DRW, High(value), true)];
      var generation := port.st.generation;
      var results, accepted;
      ghost var n;
      err, results, accepted, n := CommitOps(port, ctx, ops);
      done := LargeWritten(env, target, h1, ops, results, n, Hist(), addr, value);
      OverwriteMore(env, target, h0, h1, Hist(), addr, bytes, 0, bytes, done);
      if err.Some? && done > 0 {
        WritesOpen(ops, results, accepted, n, h1, Hist(), err.value);
      }
      if err.None? {
        largePending := false;
      } else if results[0].err.None? || !results[0].err.value.notExecuted {
        RequireLargeDataCleanup(generation);
      }
    }

    /** One write of at most 32 bits, with its address. */
    method WriteSmall(ctx: Ctx, addr: nat, size: Size, value: int) returns (err: Option<Err>, ghost done: nat)
      requires Valid() && size != Size64 && Sized(size) && InRange(large, addr) && addr % Bytes(size) == 0 &&
               Fits(size, value)
      modifies this`restoreTar, this`restoreTarhi, port`st, port.conn`link, port.conn.wire, ctx
      ensures Valid() && Sized(size) && (done == 0 || done == Bytes(size)) &&
              Wrote(addr, BytesOf(big, size, value), done)
      ensures err.None? ==> done == Bytes(size)
      ensures err.Some? && done > 0 ==> Open(err.value)
    {
      hide Answered, RegsAt, ByteAt, Overwritten, SizeField, Serves, Partly, AddressOps, AddressAccesses, Seen, InPlace,
           ScalarByte, NoFault, Confessed, Open;
      MarkAddress();
      var data := InPlace(big, addr, size, value);
      ghost var h0, env, bytes := Hist(), port.conn.wire.env, BytesOf(big, size, value);
      PackedBytes(big, size, value);
      var ops := AddressOps(large, sel, addr) + [WriteAp(sel, DRW, data, true)];
      SmallWriteSeen(large, sel, addr, data);
      var results, accepted;
      ghost var n;
      err, results, accepted, n := CommitOps(port, ctx, ops);
      AnsweredAll(env, ops, results, h0, n, Hist());
      SmallWrite(env, target, h0, addr, size, bytes, Hist());
      ghost var all := AddressAccesses(large, sel, addr) + [DataAccess(target, false, data)];
      done := if |Hist()| == |h0| + |all| && !env.faults(Hist()) then Bytes(size) else 0;
      if err.None? {
        LastFault(env, h0, all);
      } else if done > 0 {
        AddressWrites(large, sel, addr);
        WritesOpen(ops, results, accepted, n, h0, Hist(), err.value);
      }
    }

    /** Writes one aligned scalar. On success memory has its bytes and no other change; on
        failure it has all of them or none, and if it has them the error is open about it. */
    method WriteScalar(ctx: Ctx, addr: nat, size: Size, value: nat) returns (err: Option<Err>, ghost done: nat)
      requires Valid()
      modifies this`restoreCsw, this`largePending, this`restoreTar, this`restoreTarhi, port`st, port.conn`link,
               port.conn.wire, ctx
      ensures Valid() && (err.None? ==> Fits(size, value) && done == Bytes(size))
      ensures done == 0 || done == Bytes(size)
      ensures Wrote(addr, if Fits(size, value) then BytesOf(big, size, value) else [], done)
      ensures err.Some? && done > 0 ==> Open(err.value)
    {
      hide RegsAt, ByteAt, Overwritten, SizeField, IncField, Serves, ScalarByte, Open;
      done := 0;
      ghost var h0, env := Hist(), port.conn.wire.env;
      ghost var bytes := if Fits(size, value) then BytesOf(big, size, value) else [];
      SameMemory(env, target, h0, addr, bytes);
      var ok := CheckActive(ctx);
      if !ok || addr % Bytes(size) != 0 || !InRange(large, addr + Bytes(size) - 1) || (size == Size64 && !largeData) ||
         !Fits(size, value) {
        return Some(PLAIN), 0;
      }
      var s := SelectCsw(ctx, size, 0);
      ghost var h := Hist();
      UndisturbedWrote(env, target, h0, h, addr, bytes);
      if !s.Selected? {
        return Some(Unselected(s)), 0;
      }
      if size == Size64 {
        err, done := WriteLarge(ctx, addr, value);
      } else {
        err, done := WriteSmall(ctx, addr, size, value);
        if err.None? {
          largePending := false;
        }
      }
      OverwriteMore(env, target, h0, h, Hist(), addr, bytes, 0, bytes, done);
    }

    // ----- Writing a block -----

    method WriteBlockRegister(ctx: Ctx, addr: Word, value: Word) returns (err: Option<Err>)
      requires Valid() && ((addr == TAR && restoreTar) || (addr == TARHI && large && restoreTarhi))
      modifies port`st, port.conn`link, port.conn.wire, ctx
      ensures Valid() && Undisturbed()
      ensures var r := old(Registers());
              var written := if addr == TAR then r.(tar := value) else r.(tarhi := value);
              Registers() == written || (err.Some? && Registers() == r)
    {
      hide Answered, RegsAt, ByteAt, Overwritten, Serves, Partly, Seen, PortOf;
      ghost var h0, env := Hist(), port.conn.wire.env;
      var ops := [WriteAp(sel, addr, value, true)];
      var results, accepted;
      ghost var n;
      err, results, accepted, n := CommitOps(port, ctx, ops);
      AnsweredAll(env, ops, results, h0, n, Hist());
      FirstSeen(ops);
      RegisterWritten(env, target, h0, addr, value, Hist());
    }

    /** The address registers, each in a transaction of its own. */
    method SetBlockAddress(ctx: Ctx, addr: nat) returns (err: Option<Err>)
      requires Valid() && InRange(large, addr)
      modifies this`restoreTar, this`restoreTarhi, port`st, port.conn`link, port.conn.wire, ctx
      ensures Valid() && Undisturbed()
      ensures Registers().csw == old(Registers().csw) && Registers().phase == old(Registers().phase)
      ensures err.None? ==> restoreTar && Address(target, Registers()) == addr
    {
      hide RegsAt, ByteAt, Overwritten, Serves;
      ghost var h0, env := Hist(), port.conn.wire.env;
      SameMemory(env, target, h0, 0, []);
      LowHigh(addr);
      if large {
        restoreTarhi := true;
        err := WriteBlockRegister(ctx, TARHI, High(addr));
        if err.Some? {
          return;
        }
      }
      ghost var h := Hist();
      restoreTar := true;
      err := WriteBlockRegister(ctx, TAR, Low(addr));
      UndisturbedAgain(env, target, h0, h, Hist());
    }

    /** An uncertain write invalidates the owner, unless a bus fault was reported and cleared. */
    method MarkIndeterminate(err: Err, generation: nat) returns (e: Err)
      requires port.Valid()
      modifies port`st
      ensures port.Valid() && e.indeterminate
      ensures if OrdinaryFaultCleared(err) then port.st == old(port.st) else port.st.generation != generation
    {
      hide Coherent;
      if !OrdinaryFaultCleared(err) && port.st.generation == generation {
        port.st := InvalidateAp(port.st);
      }
      e := if err.indeterminate then err else Join(err, PLAIN.(indeterminate := true));
    }

    /** One sequence of data writes at `addr`. `confirmed` of the values are in memory for
        certain, and `done` bytes in fact. */
    method WriteBlockValues(ctx: Ctx, addr: nat, ghost size: Size, values: seq<Word>, ghost bytes: seq<Byte>)
      returns (confirmed: nat, err: Option<Err>, ghost done: nat)
      requires Valid() && InRange(large, addr) && values != [] && Carries(big, addr, size, values, bytes) && Sized(size)
      requires |values| > 1 ==>
                 size == Size32 && IncField(Registers().csw) == INC_SINGLE && addr % WINDOW + 4 * |values| <= WINDOW
      modifies this`restoreTar, this`restoreTarhi, port`st, port.conn`link, port.conn.wire, ctx
      ensures Valid() && Registers().csw == old(Registers().csw) && Registers().phase.Whole?
      ensures confirmed <= |values| && Bytes(size) * confirmed <= done <= |bytes| && Wrote(addr, bytes, done)
      ensures err.None? ==> confirmed == |values|
      ensures Bytes(size) * confirmed < done ==> Owned(|values| == 1, err)
    {
      hide Answered, RegsAt, ByteAt, Overwritten, Serves, Partly, Seen, PortOf, SizeField, IncField, Carries, Address,
           WritesOf, NoFault, ReportsWdata, Completed;
      confirmed, done := 0, 0;
      ghost var h0, env := Hist(), port.conn.wire.env;
      err := SetBlockAddress(ctx, addr);
      UndisturbedWrote(env, target, h0, Hist(), addr, bytes);
      if err.Some? {
        return;
      }
      ghost var h := Hist();
      var ops := [WriteSeq(sel, DRW, values)];
      var generation := port.st.generation;
      var results, accepted;
      ghost var n;
      err, results, accepted, n := CommitOps(port, ctx, ops);
      AnsweredAll(env, ops, results, h, n, Hist());
      confirmed := ConfirmedWrites(ops[0], results[0], accepted[0]);
      done := SequenceWritten(env, target, h, addr, size, values, bytes, results, n, Hist(), confirmed);
      OverwriteMore(env, target, h0, h, Hist(), addr, bytes, 0, bytes, done);
      NoneSeenYet(ops);
      if err.Some? && confirmed < |values| && UncertainWrite(values, accepted[0], results[0]) {
        var e := MarkIndeterminate(err.value, generation);
        err := Some(e);
      }
    }

    /** Words one by one, each with its own address. */
    method WriteWordsWithoutIncrement(ctx: Ctx, addr: nat, values: seq<Word>, ghost bytes: seq<Byte>)
      returns (confirmed: nat, err: Option<Err>, ghost done: nat)
      requires Valid() && values != [] && InRange(large, addr + 4 * |values| - 1) &&
               Carries(big, addr, Size32, values, bytes)
      modifies this`restoreCsw, this`largePending, this`restoreTar, this`restoreTarhi, port`st, port.conn`link,
               port.conn.wire, ctx
      ensures Valid() && confirmed <= |values| && 4 * confirmed <= done <= |bytes| && Wrote(addr, bytes, done)
      ensures err.None? ==> confirmed == |values|
      ensures 4 * confirmed < done ==> Owned(true, err)
    {
      hide Owned, RegsAt, ByteAt, Overwritten, Serves, SizeField, IncField, Carries;
      confirmed, done := 0, 0;
      ghost var h0, env := Hist(), port.conn.wire.env;
      CarriesLength(big, addr, values, bytes);
      var s := SelectCsw(ctx, Size32, 0);
      UndisturbedWrote(env, target, h0, Hist(), addr, bytes);
      if !s.Selected? {
        return 0, Some(Unselected(s)), 0;
      }
      while confirmed < |values|
        invariant confirmed <= |values| && done == 4 * confirmed && Valid() && Sized(Size32) && Wrote(addr, bytes, done)
      {
        ghost var h, part := Hist(), bytes[4 * confirmed..4 * confirmed + 4];
        ghost var more;
        var count;
        CarriesOne(big, addr, values, bytes, confirmed);
        count, err, more := WriteBlockValues(ctx, addr + 4 * confirmed, Size32, values[confirmed..confirmed + 1], part);
        OverwriteMore(env, target, h0, h, Hist(), addr, bytes, 4 * confirmed, part, more);
        done := 4 * confirmed + more;
        confirmed := confirmed + count;
        if err.Some? {
          return;
        }
      }
      err := None;
    }

    /** One chunk of a segment. */
    method WriteBlockChunk(ctx: Ctx, addr: nat, size: Size, inc: bool, values: seq<Word>, ghost bytes: seq<Byte>)
      returns (confirmed: nat, err: Option<Err>, ghost done: nat)
      requires Valid() && values != [] && Carries(big, addr, size, values, bytes) && (!inc ==> |values| == 1)
      requires inc ==> size == Size32 && addr % WINDOW + 4 * |values| <= WINDOW
      requires InRange(large, addr + Bytes(size) * |values| - 1)
      modifies this`restoreCsw, this`largePending, this`restoreTar, this`restoreTarhi, port`st, port.conn`link,
               port.conn.wire, ctx
      ensures Valid() && confirmed <= |values| && Bytes(size) * confirmed <= done <= |bytes| && Wrote(addr, bytes, done)
      ensures err.None? ==> confirmed == |values|
      ensures Bytes(size) * confirmed < done ==> Owned(|values| == 1 || !target.increments, err)
    {
      hide RegsAt, ByteAt, Overwritten, Serves, SizeField, IncField, Carries;
      ghost var h0, env := Hist(), port.conn.wire.env;
      var s := SelectCsw(ctx, size, if inc then INC_SINGLE else 0);
      ghost var h := Hist();
      UndisturbedWrote(env, target, h0, h, addr, bytes);
      if s.NoIncrement? && inc {
        confirmed, err, done := WriteWordsWithoutIncrement(ctx, addr, values, bytes);
      } else if s.Selected? {
        ChunkStarts(large, addr, size, values);
        confirmed, err, done := WriteBlockValues(ctx, addr, size, values, bytes);
      } else {
        return 0, Some(Unselected(s)), 0;
      }
      OverwriteMore(env, target, h0, h, Hist(), addr, bytes, 0, bytes, done);
    }

    /** The data words for `count` values of the buffer. */
    method BlockValues(buf: array<Byte>, at: nat, address: nat, size: Size, count: nat) returns (values: seq<Word>)
      requires size != Size64 && address % Bytes(size) == 0 && (size == Size32 || count == 1)
      requires at + Bytes(size) * count <= buf.Length
      ensures |values| == count && Carries(big, address, size, values, buf[at..at + Bytes(size) * count])
    {
      hide WriteWord;
      if size != Size32 {
        return [WriteWord(big, address, size, buf[at..at + Bytes(size)])];
      }
      ghost var bytes := buf[at..at + 4 * count];
      values := [];
      for i := 0 to count
        invariant |values| == i
        invariant forall k :: 0 <= k < i ==>
                    values[k] == WriteWord(big, address + 4 * k, Size32, bytes[4 * k..4 * k + 4])
      {
        Rows.SlicePart(buf[..], at, at + 4 * count, 4 * i, 4 * i + 4);
        values := values + [WriteWord(big, address + 4 * i, Size32, buf[at + 4 * i..at + 4 * i + 4])];
      }
    }

    /** The next `count` values of a block, of which `at` bytes are written. */
    method WriteNext(ctx: Ctx, buf: array<Byte>, at: nat, size: Size, inc: bool, count: nat, ghost h0: seq<ApAccess>,
                     addr: nat)
      returns (confirmed: nat, err: Option<Err>, ghost done: nat)
      requires Valid() && Overwritten(port.conn.wire.env, target, h0, Hist(), addr, buf[..], at)
      requires size != Size64 && (addr + at) % Bytes(size) == 0 && (size == Size32 || count == 1) && count > 0 &&
               (!inc ==> count == 1)
      requires inc ==> size == Size32 && (addr + at) % WINDOW + 4 * count <= WINDOW
      requires at + Bytes(size) * count <= buf.Length && InRange(large, addr + buf.Length - 1)
      modifies this`restoreCsw, this`largePending, this`restoreTar, this`restoreTarhi, port`st, port.conn`link,
               port.conn.wire, ctx
      ensures Valid() && confirmed <= count && at + Bytes(size) * confirmed <= done <= at + Bytes(size) * count
      ensures Overwritten(port.conn.wire.env, target, h0, Hist(), addr, buf[..], done)
      ensures err.None? ==> confirmed == count
      ensures at + Bytes(size) * confirmed < done ==> Owned(count == 1 || !target.increments, err)
    {
      hide Owned, RegsAt, ByteAt, Overwritten, Serves, Carries;
      ghost var h, part := Hist(), buf[at..at + Bytes(size) * count];
      var values := BlockValues(buf, at, addr + at, size, count);
      ghost var more;
      confirmed, err, more := WriteBlockChunk(ctx, addr + at, size, inc, values, part);
      OverwriteMore(port.conn.wire.env, target, h0, h, Hist(), addr, buf[..], at, part, more);
      done := at + more;
    }

    /** A segment in chunks. */
    method WriteBlockSegment(ctx: Ctx, buf: array<Byte>, segment: Segment, ghost h0: seq<ApAccess>, addr: nat)
      returns (n: nat, err: Option<Err>, ghost done: nat)
      requires Valid() && Overwritten(port.conn.wire.env, target, h0, Hist(), addr, buf[..], segment.offset)
      requires Proper(segment, addr) && segment.offset + Extent(segment) <= buf.Length &&
               InRange(large, addr + buf.Length - 1)
      modifies this`restoreCsw, this`largePending, this`restoreTar, this`restoreTarhi, port`st, port.conn`link,
               port.conn.wire, ctx
      ensures Valid() && n <= done <= buf.Length &&
              Overwritten(port.conn.wire.env, target, h0, Hist(), addr, buf[..], done)
      ensures err.None? ==> n == done == segment.offset + Extent(segment)
      ensures n < done ==> Owned(!Grouped(segment) || !target.increments, err)
    {
      hide RegsAt, ByteAt, Overwritten, Serves, Proper, Bytes, Owned, Grouped, ChunkStart, ChunkCount;
      n, done := segment.offset, segment.offset;
      ProperCount(segment, addr);
      var first := 0;
      while first < segment.count
        invariant first <= segment.count && n == done == segment.offset + Bytes(segment.size) * first && Valid()
        invariant ChunkStart(segment, first)
        invariant Overwritten(port.conn.wire.env, target, h0, Hist(), addr, buf[..], n)
      {
        var count := ChunkCount(segment, first);
        ChunkWithin(segment, addr, first, count, buf.Length);
        ChunkSteps(segment, first);
        var confirmed;
        confirmed, err, done := WriteNext(ctx, buf, n, segment.size, segment.inc, count, h0, addr);
        n := n + Bytes(segment.size) * confirmed;
        if err.Some? {
          OwnedMore(count == 1 || !target.increments, !Grouped(segment) || !target.increments, err);
          return;
        }
        ChunkNext(segment.size, first, count);
        first := first + count;
      }
      err := None;
    }

    /** Writes a range of target memory. Memory changes by the first `done` bytes of the
        buffer and nothing else; `n`, which never exceeds `done`, are confirmed, and on
        success all are. */
    method WriteBlock(ctx: Ctx, addr: nat, buf: array<Byte>) returns (n: nat, err: Option<Err>, ghost done: nat)
      requires Valid()
      modifies this`restoreCsw, this`largePending, this`restoreTar, this`restoreTarhi, port`st, port.conn`link,
               port.conn.wire, ctx
      ensures Valid() && n <= done <= buf.Length && Wrote(addr, buf[..], done)
      ensures err.None? ==> n == done == buf.Length
      ensures n < done ==> Owned(!InPairs(addr, buf.Length) || !target.increments, err)
    {
      hide RegsAt, ByteAt, Overwritten, Serves, Tiles, Proper, Extent, Owned, InPairs, Grouped;
      ghost var env, h0 := port.conn.wire.env, Hist();
      SameMemory(env, target, h0, addr, buf[..]);
      n, err, done := 0, None, 0;
      if buf.Length == 0 {
        return;
      }
      var ok := CheckActive(ctx);
      if !ok || !InRange(large, addr + buf.Length - 1) {
        return 0, Some(PLAIN), 0;
      }
      var segments := BlockSegments(addr, buf.Length);
      err := CheckBlockSizes(ctx, segments);
      UndisturbedWrote(env, target, h0, Hist(), addr, buf[..]);
      if err.Some? {
        return;
      }
      TilesSome(segments, addr, buf.Length);
      for i := 0 to |segments|
        invariant Valid() && n == done <= buf.Length && Overwritten(env, target, h0, Hist(), addr, buf[..], n)
        invariant i < |segments| ==> n == segments[i].offset
        invariant i == |segments| ==> n == buf.Length
      {
        TilesPart(segments, addr, buf.Length, i);
        assert AllGrouped(segments) ==> Grouped(segments[i]);
        n, err, done := WriteBlockSegment(ctx, buf, segments[i], h0, addr);
        if err.Some? {
          OwnedMore(!Grouped(segments[i]) || !target.increments, !InPairs(addr, buf.Length) || !target.increments, err);
          return;
        }
      }
    }

    // ----- Restoring the registers -----

    /** The registers hold what they held at acquisition. */
    ghost predicate Restored()
      reads this, port, port.conn, port.conn.wire
    {
      var r := Registers();
      r.csw == savedCsw && r.tar == savedTar && (large ==> r.tarhi == savedTarhi) && r.phase.Whole?
    }

    predicate Pending(addr: Word)
      reads this
    {
      if addr == CSW then restoreCsw else if addr == TAR then restoreTar else restoreTarhi
    }

    function Saved(addr: Word): Word {
      if addr == CSW then savedCsw else if addr == TAR then savedTar else savedTarhi
    }

    /** Writes one saved register back. While a 64-bit transfer is unfinished, only CSW may be. */
    method RestoreRegister(ctx: Ctx, addr: Word) returns (err: Option<Err>)
      requires Valid() && (addr == CSW || addr == TAR || addr == TARHI)
      requires addr != CSW ==> Registers().phase.Whole?
      modifies this`restoreCsw, this`restoreTar, this`restoreTarhi, port`st, port.conn`link, port.conn.wire, ctx
      ensures Valid() && Undisturbed()
      ensures Pending(addr) == (err.Some? && old(Pending(addr)))
      ensures addr != CSW ==> restoreCsw == old(restoreCsw)
      ensures addr != TAR ==> restoreTar == old(restoreTar)
      ensures addr != TARHI ==> restoreTarhi == old(restoreTarhi)
      ensures err.None? || old(Registers().phase.Whole?) ==> Registers().phase.Whole?
    {
      hide RegsAt, ByteAt, Overwritten, Serves;
      ghost var h0, env := Hist(), port.conn.wire.env;
      SameMemory(env, target, h0, 0, []);
      if !Pending(addr) {
        return None;
      }
      err := Immediate.WriteAp(port, ctx, sel, addr, Saved(addr));
      PutBack(env, target, h0, addr, Saved(addr), Hist());
      if err.None? {
        if addr == CSW {
          restoreCsw := false;
        } else if addr == TAR {
          restoreTar := false;
        } else {
          restoreTarhi := false;
        }
      }
    }

    /** Tries each register, whatever happens to the others. */
    method RestoreAll(ctx: Ctx) returns (err: Option<Err>)
      requires Valid() && Registers().phase.Whole?
      modifies this`restoreCsw, this`restoreTar, this`restoreTarhi, port`st, port.conn`link, port.conn.wire, ctx
      ensures Valid() && Undisturbed()
      ensures err.None? ==> Restored() && !restoreCsw && !restoreTar && !restoreTarhi
    {
      hide RegsAt, ByteAt, Overwritten, Serves;
      ghost var h0, env := Hist(), port.conn.wire.env;
      var tarhiErr := RestoreRegister(ctx, TARHI);
      ghost var h := Hist();
      var tarErr := RestoreRegister(ctx, TAR);
      UndisturbedAgain(env, target, h0, h, Hist());
      h := Hist();
      var cswErr := RestoreRegister(ctx, CSW);
      UndisturbedAgain(env, target, h0, h, Hist());
      err := if tarhiErr.Some? then tarhiErr else if tarErr.Some? then tarErr else cswErr;
    }

    method PrepareRelease(ctx: Ctx) returns (err: Option<Err>)
      requires Valid()
      modifies port`st, port.conn`link, port.conn.wire, ctx
      ensures Valid() && Hist() == old(Hist())
      ensures sessionId != port.sessionId || old(port.st.session.NoSession?) ==>
                err.Some? && port.st == old(port.st) && port.conn.wire.t == old(port.conn.wire.t)
    {
      hide RegsAt, Serves;
      var ended := ctx.Err();
      if ended || sessionId != port.sessionId || port.st.session.NoSession? {
        return Some(PLAIN);
      }
      if !ResponseKnown(port.st) {
        var ok, e := port.Reenter(ctx);
        if !ok {
          return Some(e);
        }
      }
      return None;
    }

    /** Restores the acquisition snapshot. On success the registers are those of the
        acquisition; a failure leaves every obligation for the next attempt. */
    method Release(ctx: Ctx) returns (err: Option<Err>)
      requires Valid()
      modifies this`restoreEpoch, this`restoreCsw, this`restoreTar, this`restoreTarhi, this`largePending,
               port`st, port.conn`link, port.conn.wire, ctx
      ensures Valid() && Undisturbed()
      ensures err.None? ==> Restored() && !restoreCsw && !restoreTar && !restoreTarhi
    {
      hide RegsAt, ByteAt, Overwritten, Serves;
      ghost var h0, env := Hist(), port.conn.wire.env;
      SameMemory(env, target, h0, 0, []);
      if !restoreCsw && !restoreTar && !restoreTarhi {
        return None;
      }
      err := PrepareRelease(ctx);
      if err.Some? {
        return;
      }
      if restoreEpoch != port.st.generation {
        restoreTar, restoreTarhi, restoreCsw, restoreEpoch := true, large, true, port.st.generation;
      }
      if largePending {
        err := RestoreRegister(ctx, CSW);
        if err.Some? {
          return;
        }
        largePending := false;
      }
      ghost var h := Hist();
      err := RestoreAll(ctx);
      UndisturbedAgain(env, target, h0, h, Hist());
    }
  }

  /** The error of a block write that may have reached memory beyond what it confirmed: the outcome is open,
      or, where `lone` values are written, the captured report of lost write data. */
  predicate Owned(lone: bool, err: Option<Err>) {
    err.Some? && (err.value.indeterminate || (lone && ReportsWdata(err.value)))
  }

  /** Some value of a write sequence may or may not be in memory. */
  predicate UncertainWrite(values: seq<Word>, accepted: nat, result: OpResult) {
    accepted > 0 && (|values| != 1 || !result.Resolved? || result.err.None? || !ReportsWdata(result.err.value))
  }

  lemma {:induction false} OwnedMore(a: bool, b: bool, err: Option<Err>)
    requires a ==> b
    ensures Owned(a, err) ==> Owned(b, err)
  {
  }

  function Unselected(s: Selection): Err
    requires !s.Selected?
  {
    if s.Refused? then s.err else PLAIN
  }
}
