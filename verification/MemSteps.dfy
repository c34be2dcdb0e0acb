/** The transactions of a MEM-AP owner, one by one: what they show the port and what
    they do to it and to memory. */
module DapMemSteps {
  import opened Words
  import opened SwdTarget
  import opened DapPlan
  import opened DapTxn
  import opened DapPartial
  import opened DapApTxn
  import Immediate = DapPortAp
  import opened SimMemAp
  import opened DapMemCodec
  import opened DapMemHistory

  /** The first `n` bytes of a buffer are memory from `addr` on; the rest is untouched. */
  ghost predicate Fills(env: Env, m: MemPort, h: seq<ApAccess>, addr: nat, before: seq<Byte>, now: seq<Byte>, n: nat) {
    && n <= |now| == |before|
    && (forall i :: 0 <= i < n ==> now[i] == ByteAt(env, m, h, addr + i))
    && (forall i :: n <= i < |now| ==> now[i] == before[i])
  }

  lemma {:induction false} FillsNone(env: Env, m: MemPort, h: seq<ApAccess>, addr: nat, before: seq<Byte>)
    ensures Fills(env, m, h, addr, before, before, 0)
  {
  }

  /** Bytes `at` to `at + k` have been stored, and they are memory. */
  lemma {:induction false} FillsMore(env: Env, m: MemPort, h: seq<ApAccess>, addr: nat, before: seq<Byte>,
                                     was: seq<Byte>, now: seq<Byte>,
                                     at: nat, k: nat)
    requires Fills(env, m, h, addr, before, was, at) && |now| == |was| && at + k <= |now|
    requires forall i :: 0 <= i < |now| && !(at <= i < at + k) ==> now[i] == was[i]
    requires forall i :: at <= i < at + k ==> now[i] == ByteAt(env, m, h, addr + i)
    ensures Fills(env, m, h, addr, before, now, at + k)
  {
    hide ByteAt;
  }

  /** The bytes at `addr` are those of `value`. */
  ghost predicate Holds(env: Env, m: MemPort, h: seq<ApAccess>, addr: int, size: Size, value: int) {
    Fits(size, value) &&
    forall x: int :: addr <= x < addr + Bytes(size) ==> ByteAt(env, m, h, x) == ScalarByte(m.big, size, value, x - addr)
  }

  /** Memory that has not changed holds the same. */
  lemma {:induction false} HoldsAgain(env: Env, m: MemPort, h0: seq<ApAccess>, h: seq<ApAccess>, addr: int, size: Size,
                                      value: int)
    requires Overwritten(env, m, h0, h, 0, [], 0) && Holds(env, m, h, addr, size, value)
    ensures Holds(env, m, h0, addr, size, value)
  {
    hide ByteAt, ScalarByte, Fits, Bytes;
  }

  lemma {:induction false} LanesHold(env: Env, m: MemPort, h: seq<ApAccess>, addr: int, size: Size, word: Word)
    requires size != Size64 && addr % Bytes(size) == 0 && InLanes(env, m, h, addr, size, word)
    ensures Holds(env, m, h, addr, size, Scalar(m.big, addr, size, word))
  {
    hide ByteAt, Lane, LaneOf, Scalar;
    ScalarFits(m.big, addr, size, word);
    forall x: int | addr <= x < addr + Bytes(size)
      ensures ByteAt(env, m, h, x) == ScalarByte(m.big, size, Scalar(m.big, addr, size, word), x - addr)
    {
      ScalarBytes(m.big, addr, size, word, x - addr);
    }
  }

  /** The bytes at `addr + at` have been stored in their place. */
  lemma {:induction false} ScalarStored(env: Env, m: MemPort, h: seq<ApAccess>, addr: nat, before: seq<Byte>,
                                        was: seq<Byte>, now: seq<Byte>,
                                        at: nat, size: Size, value: int)
    requires Holds(env, m, h, addr + at, size, value)
    requires Fills(env, m, h, addr, before, was, at) && |now| == |was| && at + Bytes(size) <= |now|
    requires forall i :: 0 <= i < |now| && !(at <= i < at + Bytes(size)) ==> now[i] == was[i]
    requires forall j :: 0 <= j < Bytes(size) ==> now[at + j] == ScalarByte(m.big, size, value, j)
    ensures Fills(env, m, h, addr, before, now, at + Bytes(size))
  {
    hide ByteAt, Fills, ScalarByte, Bytes, Fits;
    forall i | at <= i < at + Bytes(size)
      ensures now[i] == ByteAt(env, m, h, addr + i)
    {
      assert now[at + (i - at)] == ScalarByte(m.big, size, value, i - at);
    }
    FillsMore(env, m, h, addr, before, was, now, at, Bytes(size));
  }

  lemma {:induction false} WholeWord(big: bool, addr: int, word: Word)
    requires addr % 4 == 0
    ensures Scalar(big, addr, Size32, word) == word
  {
  }

  lemma {:induction false} WordHolds(env: Env, m: MemPort, h0: seq<ApAccess>, h: seq<ApAccess>, addr: int, word: Word)
    requires addr % 4 == 0 && Overwritten(env, m, h0, h, 0, [], 0) && InLanes(env, m, h, addr, Size32, word)
    ensures Holds(env, m, h0, addr, Size32, word)
  {
    hide InLanes, Holds, Overwritten;
    WholeWord(m.big, addr, word);
    LanesHold(env, m, h, addr, Size32, word);
    HoldsAgain(env, m, h0, h, addr, Size32, word);
  }

  /** A part of a run that does not leave its window does not leave it either. */
  lemma {:induction false} ChunkInWindow(address: nat, skip: nat, extent: nat)
    requires address % 4 == 0 && skip % 4 == 0 && extent > 0 && address % WINDOW + skip + extent <= WINDOW
    ensures (address + skip) % 4 == 0 && (address + skip) % WINDOW + extent <= WINDOW
  {
    var block := address / WINDOW;
    assert address == block * WINDOW + address % WINDOW;
    assert address + skip == block * WINDOW + (address % WINDOW + skip);
  }

  lemma {:induction false} TilesSome(segments: seq<Segment>, addr: nat, end: nat)
    requires Tiles(segments, addr, end) && end > 0
    ensures segments != [] && segments[0].offset == 0
  {
  }

  /** A CSW write and its read-back, or a part of them. */
  lemma {:induction false} CswHistory(env: Env, m: MemPort, h0: seq<ApAccess>, ops: seq<Op>, results: seq<OpResult>,
                                      n: nat, h: seq<ApAccess>,
                                      desired: Word)
    requires ops == [WriteAp(m.sel, CSW, desired, true), ReadAp(m.sel, CSW, true)] && Serves(env, m)
    requires Answered(env, ops, results, h0, n, h)
    ensures |results| == 2 && Overwritten(env, m, h0, h, 0, [], 0)
    ensures var r, r' := RegsAt(env, m, h0), RegsAt(env, m, h);
            && r'.tar == r.tar && r'.tarhi == r.tarhi && (r'.phase.Whole? || r'.phase == r.phase)
            && (n == 2 ==> r'.phase.Whole? && results[1].Resolved? && results[1].value == r'.csw
                           && (m.increments ==> IncField(r'.csw) == IncField(desired)))
  {
    hide RegsAt, ByteAt, Overwritten, NoFault, Partly, Unbroken, PortOf, Seen;
    var a, b := ApAccess(PortOf(m.sel, CSW), false, desired), ApAccess(PortOf(m.sel, CSW), true, 0);
    SeenTwo(ops);
    assert AccessOf(ops[0]) + AccessOf(ops[1]) == [a, b];
    PartlyIs(h0, [a, b], h);
    CswOnly(env, m, h0, [a, b][..|h| - |h0|]);
    if n == 2 {
      assert h == h0 + [a, b] == (h0 + [a]) + [b] && h[|h| - 1] == b;
      assert ReadsRegister(m, h, CSW);
      AfterCsw(env, m, h0, desired);
      AfterCswRead(env, m, h0 + [a]);
    }
  }

  lemma {:induction false} SeenTwo(ops: seq<Op>)
    requires |ops| == 2
    ensures Seen(ops, 0, 2) == AccessOf(ops[0]) + AccessOf(ops[1])
  {
    hide AccessOf;
    assert Seen(ops, 0, 0) == [];
    assert Seen(ops, 0, 1) == AccessOf(ops[0]);
  }

  lemma {:induction false} OnlyCsw(m: MemPort, s: seq<ApAccess>)
    requires forall i :: 0 <= i < |s| ==> IsAccess(m, s[i], CSW)
    ensures NoDataWrite(m, s) && NoAccess(m, s, DRW) && NoAccess(m, s, TAR) && NoAccess(m, s, TARHI)
  {
    hide IsAccess;
    forall i | 0 <= i < |s|
      ensures !IsAccess(m, s[i], DRW) && !IsAccess(m, s[i], TAR) && !IsAccess(m, s[i], TARHI)
    {
      Distinct(m, s[i], CSW, DRW);
      Distinct(m, s[i], CSW, TAR);
      Distinct(m, s[i], CSW, TARHI);
    }
  }

  /** CSW accesses leave memory and the address registers alone. */
  lemma {:induction false} CswOnly(env: Env, m: MemPort, h: seq<ApAccess>, s: seq<ApAccess>)
    requires forall i :: 0 <= i < |s| ==> IsAccess(m, s[i], CSW)
    ensures Overwritten(env, m, h, h + s, 0, [], 0)
    ensures var r, r' := RegsAt(env, m, h), RegsAt(env, m, h + s);
            && r'.tar == r.tar && r'.tarhi == r.tarhi
            && (if s == [] then r'.phase == r.phase else r'.phase.Whole?)
  {
    hide RegsAt, ByteAt, Overwritten, IsAccess, NoDataWrite, NoAccess;
    OnlyCsw(m, s);
    KeptMemory(env, m, h, s, 0, []);
    RegsKept(env, m, h, s);
    if s == [] {
      assert h + s == h;
    } else {
      Front(h, s);
      OneStep(env, m, h + s[..|s| - 1], s[|s| - 1]);
    }
  }

  // ----- Setting the address -----

  /** An address within the port's range. */
  predicate InRange(large: bool, addr: int) {
    0 <= addr < if large then 0x1_0000_0000_0000_0000 else 0x1_0000_0000
  }

  function AddressOps(large: bool, sel: Word, addr: int): (ops: seq<Op>)
    requires InRange(large, addr)
    ensures |ops| == if large then 2 else 1
  {
    (if large then [WriteAp(sel, TARHI, High(addr), true)] else []) + [WriteAp(sel, TAR, Low(addr), true)]
  }

  function AddressAccesses(large: bool, sel: Word, addr: int): (s: seq<ApAccess>)
    requires InRange(large, addr)
    ensures |s| == if large then 2 else 1
  {
    (if large then [ApAccess(PortOf(sel, TARHI), false, High(addr))] else []) +
    [ApAccess(PortOf(sel, TAR), false, Low(addr))]
  }

  lemma {:induction false} AddressSeen(large: bool, sel: Word, addr: int, rest: seq<Op>)
    requires InRange(large, addr)
    ensures var ops := AddressOps(large, sel, addr) + rest;
            Seen(ops, 0, |AddressOps(large, sel, addr)|) == AddressAccesses(large, sel, addr)
  {
    hide PortOf;
    var ops := AddressOps(large, sel, addr) + rest;
    assert Seen(ops, 0, 0) == [];
    assert Seen(ops, 0, 1) == AccessOf(ops[0]);
    if large {
      assert Seen(ops, 0, 2) == Seen(ops, 0, 1) + AccessOf(ops[1]);
    }
  }

  /** The address registers hold what was written. */
  lemma {:induction false} AddressSet(env: Env, m: MemPort, h: seq<ApAccess>, addr: int)
    requires InRange(m.large, addr)
    ensures var r, r' := RegsAt(env, m, h), RegsAt(env, m, h + AddressAccesses(m.large, m.sel, addr));
            && r'.csw == r.csw && r'.phase == r.phase && r'.tar == Low(addr) && Address(m, r') == addr
            && r'.tar % WINDOW == addr % WINDOW && r'.tar % 4 == addr % 4
  {
    hide RegsAt, PortOf, Low, High;
    var s := AddressAccesses(m.large, m.sel, addr);
    LowHigh(addr);
    if m.large {
      var g := h + [s[0]];
      AfterTarhi(env, m, h, High(addr));
      AfterTar(env, m, g, Low(addr));
      assert h + s == g + [s[1]];
    } else {
      assert s == [ApAccess(PortOf(m.sel, TAR), false, Low(addr))];
      AfterTar(env, m, h, Low(addr));
    }
  }

  lemma {:induction false} AddressOnly(m: MemPort, addr: int)
    requires InRange(m.large, addr)
    ensures var s := AddressAccesses(m.large, m.sel, addr);
            NoDataWrite(m, s) && NoAccess(m, s, DRW) && NoAccess(m, s, CSW) && (!m.large ==> NoAccess(m, s, TARHI))
  {
    hide PortOf;
    var s := AddressAccesses(m.large, m.sel, addr);
    var z := s[|s| - 1];
    Distinct(m, z, TAR, DRW);
    Distinct(m, z, TAR, CSW);
    Distinct(m, z, TAR, TARHI);
    if m.large {
      Distinct(m, s[0], TARHI, DRW);
      Distinct(m, s[0], TARHI, CSW);
    }
  }

  // ----- Reading words with automatic increment -----

  function ReadOps(sel: Word, n: nat): seq<Op> {
    seq(n, _ => ReadSeq(sel, DRW))
  }

  /** Operations that each read DRW once. */
  ghost predicate DataReads(sel: Word, ops: seq<Op>) {
    forall i :: 0 <= i < |ops| ==> ops[i] == ReadSeq(sel, DRW) || ops[i] == ReadAp(sel, DRW, true)
  }

  lemma {:induction false} ReadsSeen(large: bool, sel: Word, addr: int, list: seq<Op>, j: nat)
    requires InRange(large, addr) && DataReads(sel, list) && j <= |list|
    ensures var a := |AddressOps(large, sel, addr)|;
            Seen(AddressOps(large, sel, addr) + list, 0, a + j) == AddressAccesses(large, sel, addr) + ReadsOf(sel, j)
  {
    hide PortOf, AddressOps, AddressAccesses;
    var ops := AddressOps(large, sel, addr) + list;
    if j == 0 {
      AddressSeen(large, sel, addr, list);
    } else {
      ReadsSeen(large, sel, addr, list, j - 1);
      ReadsMore(sel, j - 1);
      var a := |AddressOps(large, sel, addr)|;
      assert ops[a + j - 1] == list[j - 1];
      assert AccessOf(ops[a + j - 1]) == [ApAccess(PortOf(sel, DRW), true, 0)];
    }
  }

  /** Reading leaves memory and CSW alone. */
  lemma {:induction false} ReadEffects(env: Env, m: MemPort, h0: seq<ApAccess>, addr: int, n: nat, h: seq<ApAccess>)
    requires InRange(m.large, addr) && Partly(h0, AddressAccesses(m.large, m.sel, addr) + ReadsOf(m.sel, n), h)
    ensures Overwritten(env, m, h0, h, 0, [], 0)
    ensures var r, r' := RegsAt(env, m, h0), RegsAt(env, m, h);
            && r'.csw == r.csw && (!m.large ==> r'.tarhi == r.tarhi)
            && (r.phase.Whole? && SizeField(r.csw) != 3 ==> r'.phase.Whole?)
  {
    hide RegsAt, ByteAt, Overwritten, PortOf, AddressAccesses, SizeField, Partly;
    var s := AddressAccesses(m.large, m.sel, addr) + ReadsOf(m.sel, n);
    PartlyIs(h0, s, h);
    var part := s[..|h| - |h0|];
    AddressOnly(m, addr);
    if n > 0 {
      Distinct(m, ReadsOf(m.sel, n)[0], DRW, CSW);
      Distinct(m, ReadsOf(m.sel, n)[0], DRW, TARHI);
    }
    KeptMemory(env, m, h0, part, 0, []);
    RegsKept(env, m, h0, part);
  }

  lemma {:induction false} LaterFaults(env: Env, h: seq<ApAccess>, a: seq<ApAccess>, b: seq<ApAccess>)
    requires NoFault(env, h, a + b)
    ensures NoFault(env, h + a, b)
  {
    forall i | 0 < i <= |b|
      ensures !env.faults((h + a) + b[..i])
    {
      assert (h + a) + b[..i] == h + (a + b)[..|a| + i];
    }
  }

  /** A data word has the bytes at `addr` in their lanes. */
  ghost predicate InLanes(env: Env, m: MemPort, h: seq<ApAccess>, addr: int, size: Size, word: Word) {
    forall x: int :: addr <= x < addr + Bytes(size) ==> Lane(word, LaneOf(m.big, x)) == ByteAt(env, m, h, x)
  }

  /** One delivered word of a run. */
  lemma {:induction false} RunWord(env: Env, m: MemPort, h0: seq<ApAccess>, ops: seq<Op>, results: seq<OpResult>,
                                   n: nat, h: seq<ApAccess>,
                                   addr: int, count: nat, j: nat)
    requires InRange(m.large, addr) && addr % 4 == 0 && addr % WINDOW + 4 * count <= WINDOW && Serves(env, m)
    requires ops == AddressOps(m.large, m.sel, addr) + ReadOps(m.sel, count) && Answered(env, ops, results, h0, n, h)
    requires SizeField(RegsAt(env, m, h0).csw) == 2 && IncField(RegsAt(env, m, h0).csw) == INC_SINGLE
    requires var a := |AddressOps(m.large, m.sel, addr)|; a + j < n
    ensures var a := |AddressOps(m.large, m.sel, addr)|;
            results[a + j].Resolved? && InLanes(env, m, h0, addr + 4 * j, Size32, results[a + j].value)
  {
    hide RegsAt, ByteAt, AddressOps, AddressAccesses, NoFault, Partly, Unbroken, PortOf, Seen, Lane, LaneOf, SizeField,
         IncField, Serves;
    var a, s := |AddressOps(m.large, m.sel, addr)|, AddressAccesses(m.large, m.sel, addr);
    var g := h0 + s;
    AddressSet(env, m, h0, addr);
    AddressOnly(m, addr);
    ReadsSeen(m.large, m.sel, addr, ReadOps(m.sel, count), j + 1);
    ReadsSeen(m.large, m.sel, addr, ReadOps(m.sel, count), n - a);
    FewerFaults(env, h0, s + ReadsOf(m.sel, n - a), |s| + j + 1);
    assert (s + ReadsOf(m.sel, n - a))[..|s| + j + 1] == s + ReadsOf(m.sel, j + 1);
    LaterFaults(env, h0, s, ReadsOf(m.sel, j + 1));
    assert h0 + (s + ReadsOf(m.sel, j + 1)) == g + ReadsOf(m.sel, j + 1);
    assert ops[a + j] == ReadSeq(m.sel, DRW) && IsRead(ops[a + j]);
    forall x: int | addr + 4 * j <= x < addr + 4 * j + 4
      ensures Lane(results[a + j].value, LaneOf(m.big, x)) == ByteAt(env, m, h0, x)
    {
      RunByte(env, m, g, j, x);
      MemoryKept(env, m, h0, s, x);
    }
  }

  /** One read of at most 32 bits: the addressed bytes, each in its lane. */
  lemma {:induction false} SingleRead(env: Env, m: MemPort, h0: seq<ApAccess>, ops: seq<Op>, results: seq<OpResult>,
                                      h: seq<ApAccess>, addr: int, size: Size, x: int)
    requires InRange(m.large, addr) && size != Size64 && addr % Bytes(size) == 0 && Serves(env, m)
    requires ops == AddressOps(m.large, m.sel, addr) + [ReadAp(m.sel, DRW, true)]
    requires Answered(env, ops, results, h0, |ops|, h)
    requires SizeField(RegsAt(env, m, h0).csw) == Encoding(size) && addr <= x < addr + Bytes(size)
    ensures var z := results[|ops| - 1]; z.Resolved? && Lane(z.value, LaneOf(m.big, x)) == ByteAt(env, m, h0, x)
  {
    hide RegsAt, ByteAt, AddressOps, AddressAccesses, NoFault, Partly, Unbroken, PortOf, Seen, Lane, LaneOf, SizeField,
         Serves, Address;
    var a, s := |AddressOps(m.large, m.sel, addr)|, AddressAccesses(m.large, m.sel, addr);
    var g := h0 + s;
    AddressSet(env, m, h0, addr);
    AddressOnly(m, addr);
    ReadsSeen(m.large, m.sel, addr, [ReadAp(m.sel, DRW, true)], 1);
    LaterFaults(env, h0, s, ReadsOf(m.sel, 1));
    LastFault(env, g, ReadsOf(m.sel, 1));
    assert h0 + (s + ReadsOf(m.sel, 1)) == g + ReadsOf(m.sel, 1);
    assert IsRead(ops[a]);
    ReadByte(env, m, g, size, x);
    MemoryKept(env, m, h0, s, x);
  }

  lemma {:induction false} LastFault(env: Env, h: seq<ApAccess>, s: seq<ApAccess>)
    requires NoFault(env, h, s) && s != []
    ensures !env.faults(h + s)
  {
    assert s[..|s|] == s;
  }

  lemma {:induction false} RunOpsAp(large: bool, sel: Word, addr: int, count: nat)
    requires InRange(large, addr)
    ensures AllAp(AddressOps(large, sel, addr) + ReadOps(sel, count))
  {
  }

  lemma {:induction false} RunSeenAll(large: bool, sel: Word, addr: int, count: nat)
    requires InRange(large, addr)
    ensures var ops := AddressOps(large, sel, addr) + ReadOps(sel, count);
            Seen(ops, 0, |ops|) == AddressAccesses(large, sel, addr) + ReadsOf(sel, count)
  {
    hide AddressOps, AddressAccesses, Seen;
    ReadsSeen(large, sel, addr, ReadOps(sel, count), count);
  }

  /** Results come in order: successes first. */
  lemma {:induction false} AnsweredAll(env: Env, ops: seq<Op>, results: seq<OpResult>, h0: seq<ApAccess>, n: nat,
                                       h: seq<ApAccess>)
    requires Answered(env, ops, results, h0, n, h)
    ensures n <= |ops| == |results|
    ensures forall j :: 0 <= j < |results| ==> results[j].Resolved? && (results[j].err.None? <==> j < n)
    ensures Partly(h0, Seen(ops, 0, |ops|), h) && Unbroken(env, h0, h)
    ensures n == |ops| ==> h == h0 + Seen(ops, 0, |ops|) && NoFault(env, h0, Seen(ops, 0, |ops|))
  {
    hide Seen, NoFault, Partly, Unbroken, IsRead;
  }

  lemma {:induction false} AddressOpsAp(large: bool, sel: Word, addr: int)
    requires InRange(large, addr)
    ensures AllAp(AddressOps(large, sel, addr) + [ReadAp(sel, DRW, true)]) && AllAp(AddressOps(large, sel, addr))
  {
  }

  lemma {:induction false} UndisturbedAgain(env: Env, m: MemPort, h0: seq<ApAccess>, h1: seq<ApAccess>,
                                            h2: seq<ApAccess>)
    requires Overwritten(env, m, h0, h1, 0, [], 0) && Overwritten(env, m, h1, h2, 0, [], 0)
    ensures Overwritten(env, m, h0, h2, 0, [], 0)
  {
    hide ByteAt;
    OverwriteMore(env, m, h0, h1, h2, 0, [], 0, [], 0);
  }

  // ----- 64-bit transfers -----

  function Joined(low: Word, high: Word): (v: int)
    ensures Fits(Size64, v) && Low(v) == low && High(v) == high
  {
    low + high * 0x1_0000_0000
  }

  lemma {:induction false} LargeByte(big: bool, base: int, low: Word, high: Word, x: int)
    requires base % 8 == 0 && base <= x < base + 8
    ensures ScalarByte(big, Size64, Joined(low, high), x - base) ==
            Lane(if InFirstHalf(big, base, x) then low else high, LaneOf(big, x))
  {
    hide Lane, Joined;
    assert base % 4 == 0;
    assert x % 4 == if x - base < 4 then x - base else x - base - 4;
  }

  /** The state of the port before the first half of a 64-bit transfer. */
  ghost predicate LargeAt(env: Env, m: MemPort, h: seq<ApAccess>, addr: int) {
    var r := RegsAt(env, m, h);
    SizeField(r.csw) == 3 && r.phase.Whole? && Address(m, r) == addr && addr % 8 == 0
  }

  function DataAccess(m: MemPort, read: bool, data: Word): ApAccess {
    ApAccess(PortOf(m.sel, DRW), read, data)
  }

  /** The first half: only the phase changes, and not even that on a fault. */
  lemma {:induction false} FirstHalf(env: Env, m: MemPort, h: seq<ApAccess>, addr: int, read: bool, data: Word)
    requires LargeAt(env, m, h, addr)
    ensures var a := DataAccess(m, read, data);
            var r, r' := RegsAt(env, m, h), RegsAt(env, m, h + [a]);
            && (env.faults(h + [a]) ==> r' == r)
            && (!env.faults(h + [a]) ==> r' == r.(phase := if read then HalfRead else HalfWritten(data)))
            && Address(m, r') == addr && forall x: int :: ByteAt(env, m, h + [a], x) == ByteAt(env, m, h, x)
  {
    hide RegsAt, PortOf, ByteAt;
    var a := DataAccess(m, read, data);
    AfterData(env, m, h, read, data);
    forall x: int
      ensures ByteAt(env, m, h + [a], x) == ByteAt(env, m, h, x)
    {
      HalfStays(env, m, h, a, x);
    }
  }

  lemma {:induction false} HalfStays(env: Env, m: MemPort, h: seq<ApAccess>, a: ApAccess, x: int)
    requires SizeField(RegsAt(env, m, h).csw) == 3 && RegsAt(env, m, h).phase.Whole?
    ensures ByteAt(env, m, h + [a], x) == ByteAt(env, m, h, x)
  {
    hide RegsAt, Lane, LaneOf, CarriedBy, SizeField, Address;
    Snoc(h, a);
  }

  /** The second half of a write carries both. */
  lemma {:induction false} SecondWrite(env: Env, m: MemPort, h: seq<ApAccess>, low: Word, high: Word, x: int)
    requires var r := RegsAt(env, m, h); SizeField(r.csw) == 3 && r.phase == HalfWritten(low)
    ensures var r, h' := RegsAt(env, m, h), h + [DataAccess(m, false, high)];
            var base := Address(m, r);
            && RegsAt(env, m, h') == r.(phase := Whole)
            && ByteAt(env, m, h', x) ==
                 if !env.faults(h') && base <= x < base + 8 then
                 Lane(if InFirstHalf(m.big, base, x) then low else high, LaneOf(m.big, x))
                 else ByteAt(env, m, h, x)
  {
    hide RegsAt, PortOf, Lane, LaneOf, Address, InFirstHalf;
    AfterData(env, m, h, false, high);
    Snoc(h, DataAccess(m, false, high));
  }

  /** A 64-bit write, or a part of it. Memory changes only with the second half, and then
      all eight bytes do. */
  lemma {:induction false} LargeWrite(env: Env, m: MemPort, h0: seq<ApAccess>, h: seq<ApAccess>, addr: int, low: Word,
                                      high: Word)
    requires LargeAt(env, m, h0, addr) && Unbroken(env, h0, h)
    requires Partly(h0, [DataAccess(m, false, low), DataAccess(m, false, high)], h)
    ensures Overwritten(env, m, h0, h, addr, BytesOf(m.big, Size64, Joined(low, high)),
                        if |h| == |h0| + 2 && !env.faults(h) then 8 else 0)
    ensures var r, r' := RegsAt(env, m, h0), RegsAt(env, m, h);
            r'.csw == r.csw && r'.tar == r.tar && r'.tarhi == r.tarhi && (|h| != |h0| + 1 ==> r'.phase.Whole?)
  {
    hide RegsAt, PortOf, ByteAt, Lane, LaneOf, InFirstHalf, Joined, ScalarByte, SizeField, Address, DataAccess;
    var a, b := DataAccess(m, false, low), DataAccess(m, false, high);
    var h1 := h0 + [a];
    PartlyIs(h0, [a, b], h);
    FirstHalf(env, m, h0, addr, false, low);
    if |h| == |h0| {
      assert h == h0;
    } else if |h| == |h0| + 1 {
      assert h == h1;
    } else {
      assert h == h1 + [b] && h[..|h1|] == h1;
      SecondWrite(env, m, h1, low, high, 0);
      forall x: int
        ensures ByteAt(env, m, h, x) ==
                if !env.faults(h) && addr <= x < addr + 8 then BytesOf(m.big, Size64, Joined(low, high))[x - addr]
                else ByteAt(env, m, h0, x)
      {
        SecondWrite(env, m, h1, low, high, x);
        if addr <= x < addr + 8 {
          LargeByte(m.big, addr, low, high, x);
        }
      }
    }
  }

  /** A part of a 64-bit read leaves memory and CSW alone. */
  lemma {:induction false} LargeReadEffects(env: Env, m: MemPort, h0: seq<ApAccess>, h: seq<ApAccess>)
    requires Partly(h0, [DataAccess(m, true, 0), DataAccess(m, true, 0)], h)
    ensures Overwritten(env, m, h0, h, 0, [], 0)
    ensures RegsAt(env, m, h).csw == RegsAt(env, m, h0).csw && RegsAt(env, m, h).tarhi == RegsAt(env, m, h0).tarhi
  {
    hide RegsAt, PortOf, ByteAt, Overwritten;
    var a := DataAccess(m, true, 0);
    PartlyIs(h0, [a, a], h);
    Distinct(m, a, DRW, CSW);
    Distinct(m, a, DRW, TARHI);
    var part := [a, a][..|h| - |h0|];
    KeptMemory(env, m, h0, part, 0, []);
    RegsKept(env, m, h0, part);
  }

  /** A complete 64-bit read. */
  lemma {:induction false} LargeRead(env: Env, m: MemPort, h: seq<ApAccess>, addr: int)
    requires Serves(env, m) && LargeAt(env, m, h, addr)
    requires NoFault(env, h, [DataAccess(m, true, 0), DataAccess(m, true, 0)])
    ensures var h1, h2 := h + [DataAccess(m, true, 0)], h + [DataAccess(m, true, 0), DataAccess(m, true, 0)];
            && Holds(env, m, h, addr, Size64, Joined(env.value(h1), env.value(h2)))
            && RegsAt(env, m, h2).phase.Whole?
  {
    hide RegsAt, PortOf, ByteAt, Lane, LaneOf, InFirstHalf, Joined, ScalarByte, SizeField, Address, Serves;
    var a := DataAccess(m, true, 0);
    var h1, h2 := h + [a], h + [a, a];
    assert [a, a][..1] == [a] && [a, a][..2] == [a, a] && h2 == h1 + [a];
    FirstHalf(env, m, h, addr, true, 0);
    AfterData(env, m, h1, true, 0);
    var value := Joined(env.value(h1), env.value(h2));
    forall x: int | addr <= x < addr + 8
      ensures ByteAt(env, m, h, x) == ScalarByte(m.big, Size64, value, x - addr)
    {
      LargeByte(m.big, addr, env.value(h1), env.value(h2), x);
      HalfReturned(env, m, h, a, x);
      HalfReturned(env, m, h1, a, x);
    }
  }

  /** What a transaction of both halves of a 64-bit read leaves, complete or not. */
  lemma {:induction false} LargeAnswer(env: Env, m: MemPort, h0: seq<ApAccess>, ops: seq<Op>, results: seq<OpResult>,
                                       n: nat, h: seq<ApAccess>,
                                       addr: int)
    requires Serves(env, m) && LargeAt(env, m, h0, addr) && ops == [ReadAp(m.sel, DRW, true), ReadAp(m.sel, DRW, true)]
    requires Answered(env, ops, results, h0, n, h)
    ensures |results| == 2 && results[0].Resolved? && results[1].Resolved? && (results[0].err.None? <==> n > 0)
    ensures Overwritten(env, m, h0, h, 0, [], 0)
    ensures RegsAt(env, m, h).csw == RegsAt(env, m, h0).csw && RegsAt(env, m, h).tarhi == RegsAt(env, m, h0).tarhi
    ensures n == 2 ==>
              RegsAt(env, m, h).phase.Whole? &&
              Holds(env, m, h0, addr, Size64, Joined(results[0].value, results[1].value))
  {
    hide RegsAt, PortOf, Overwritten, Holds, Joined, Serves, Unbroken, Partly, NoFault, LargeAt, Seen;
    var a := DataAccess(m, true, 0);
    SeenTwo(ops);
    assert Seen(ops, 0, 2) == [a, a];
    LargeReadEffects(env, m, h0, h);
    if n == 2 {
      assert Seen(ops, 0, 1) == [a] by {
        FirstSeen(ops);
      }
      assert IsRead(ops[0]) && IsRead(ops[1]);
      LargeRead(env, m, h0, addr);
    }
  }

  lemma {:induction false} FirstSeen(ops: seq<Op>)
    requires ops != []
    ensures Seen(ops, 0, 1) == AccessOf(ops[0])
  {
    hide AccessOf;
    assert Seen(ops, 0, 0) == [];
  }

  /** Each half of a 64-bit read returns its own bytes. */
  lemma {:induction false} HalfReturned(env: Env, m: MemPort, h: seq<ApAccess>, a: ApAccess, x: int)
    requires Serves(env, m) && a == DataAccess(m, true, 0) && !env.faults(h + [a])
    requires var r := RegsAt(env, m, h);
             SizeField(r.csw) == 3 && Address(m, r) % 8 == 0 && Address(m, r) <= x < Address(m, r) + 8 &&
             !r.phase.HalfWritten?
    ensures InFirstHalf(m.big, Address(m, RegsAt(env, m, h)), x) == RegsAt(env, m, h).phase.Whole? ==>
              Lane(env.value(h + [a]), LaneOf(m.big, x)) == ByteAt(env, m, h, x)
  {
    hide RegsAt, PortOf, ByteAt, Lane, LaneOf, InFirstHalf, Address, SizeField;
    Snoc(h, a);
    MemoryStays(env, m, h, a, x);
    SizeWidth(Size64, RegsAt(env, m, h).csw);
    if InFirstHalf(m.big, Address(m, RegsAt(env, m, h)), x) == RegsAt(env, m, h).phase.Whole? {
      assert Returns(env, m, h + [a], x);
    }
  }

  // ----- Writing -----

  /** One register write, or nothing. */
  lemma {:induction false} RegisterWritten(env: Env, m: MemPort, h0: seq<ApAccess>, addr: Word, value: Word,
                                           h: seq<ApAccess>)
    requires addr == TAR || (addr == TARHI && m.large)
    requires Partly(h0, [ApAccess(PortOf(m.sel, addr), false, value)], h)
    ensures Overwritten(env, m, h0, h, 0, [], 0)
    ensures var r, r' := RegsAt(env, m, h0), RegsAt(env, m, h);
            r' == if h == h0 then r else if addr == TAR then r.(tar := value) else r.(tarhi := value)
  {
    hide RegsAt, ByteAt, PortOf, Overwritten;
    var a := ApAccess(PortOf(m.sel, addr), false, value);
    PartlyIs(h0, [a], h);
    Distinct(m, a, addr, DRW);
    KeptMemory(env, m, h0, [a][..|h| - |h0|], 0, []);
    if h != h0 {
      assert h == h0 + [a];
      if addr == TAR {
        AfterTar(env, m, h0, value);
      } else {
        AfterTarhi(env, m, h0, value);
      }
    }
  }

  /** Setting the address changes nothing else. */
  lemma {:induction false} AddressEffects(env: Env, m: MemPort, h0: seq<ApAccess>, addr: int, h: seq<ApAccess>)
    requires InRange(m.large, addr) && Partly(h0, AddressAccesses(m.large, m.sel, addr), h)
    ensures Overwritten(env, m, h0, h, 0, [], 0)
    ensures var r, r' := RegsAt(env, m, h0), RegsAt(env, m, h);
            && r'.csw == r.csw && (!m.large ==> r'.tarhi == r.tarhi) && (r.phase.Whole? ==> r'.phase.Whole?)
            && (h == h0 + AddressAccesses(m.large, m.sel, addr) ==> Address(m, r') == addr)
  {
    hide RegsAt, ByteAt, Overwritten, PortOf, AddressAccesses, SizeField, Partly, Address;
    var s := AddressAccesses(m.large, m.sel, addr);
    PartlyIs(h0, s, h);
    var part := s[..|h| - |h0|];
    AddressOnly(m, addr);
    KeptMemory(env, m, h0, part, 0, []);
    RegsKept(env, m, h0, part);
    AddressSet(env, m, h0, addr);
  }

  /** A write of at most 32 bits with its address, or a part of it. */
  lemma {:induction false} SmallWrite(env: Env, m: MemPort, h0: seq<ApAccess>, addr: int, size: Size, bytes: seq<Byte>,
                                      h: seq<ApAccess>)
    requires InRange(m.large, addr) && size != Size64 && addr % Bytes(size) == 0 && |bytes| == Bytes(size)
    requires SizeField(RegsAt(env, m, h0).csw) == Encoding(size) && RegsAt(env, m, h0).phase.Whole?
    requires Partly(h0, AddressAccesses(m.large, m.sel, addr) +
                    [DataAccess(m, false, WriteWord(m.big, addr, size, bytes))], h)
    ensures var all := |AddressAccesses(m.large, m.sel, addr)| + 1;
            Overwritten(env, m, h0, h, addr, bytes, if |h| == |h0| + all && !env.faults(h) then Bytes(size) else 0)
    ensures var r, r' := RegsAt(env, m, h0), RegsAt(env, m, h);
            r'.csw == r.csw && (!m.large ==> r'.tarhi == r.tarhi) && r'.phase.Whole?
  {
    hide RegsAt, ByteAt, PortOf, AddressAccesses, SizeField, Partly, Address, WriteWord, Overwritten;
    var s, w := AddressAccesses(m.large, m.sel, addr), DataAccess(m, false, WriteWord(m.big, addr, size, bytes));
    PartlyIs(h0, s + [w], h);
    var part, h1 := (s + [w])[..|h| - |h0|], h0 + s;
    AddressOnly(m, addr);
    AddressSet(env, m, h0, addr);
    Distinct(m, w, DRW, CSW);
    Distinct(m, w, DRW, TARHI);
    RegsKept(env, m, h0, part);
    if |h| == |h0| + |s| + 1 {
      assert h == h1 + [w];
      KeptMemory(env, m, h0, s, addr, bytes);
      WroteOne(env, m, h1, size, bytes);
      OverwriteMore(env, m, h0, h1, h, addr, bytes, 0, bytes, if env.faults(h) then 0 else Bytes(size));
    } else {
      assert part == s[..|h| - |h0|];
      KeptMemory(env, m, h0, part, addr, bytes);
    }
  }

  lemma {:induction false} SmallWriteSeen(large: bool, sel: Word, addr: int, data: Word)
    requires InRange(large, addr)
    ensures var ops := AddressOps(large, sel, addr) + [WriteAp(sel, DRW, data, true)];
            Seen(ops, 0, |ops|) == AddressAccesses(large, sel, addr) + [ApAccess(PortOf(sel, DRW), false, data)] &&
            AllAp(ops)
  {
    hide PortOf, AddressAccesses;
    var ops := AddressOps(large, sel, addr) + [WriteAp(sel, DRW, data, true)];
    AddressSeen(large, sel, addr, [WriteAp(sel, DRW, data, true)]);
    assert AccessOf(ops[|ops| - 1]) == [ApAccess(PortOf(sel, DRW), false, data)];
  }

  /** Data words that write `bytes` at `base`: a run of words, or one narrow value. */
  ghost predicate Carries(big: bool, base: int, size: Size, values: seq<Word>, bytes: seq<Byte>) {
    size != Size64 && base % Bytes(size) == 0 &&
    if size == Size32 then Encodes(big, base, values, bytes)
    else |values| == 1 && |bytes| == Bytes(size) && values[0] == WriteWord(big, base, size, bytes)
  }

  /** The port is set for writing `count` values from `addr` on. */
  ghost predicate WriteAt(env: Env, m: MemPort, h: seq<ApAccess>, addr: int, size: Size, count: nat) {
    var r := RegsAt(env, m, h);
    && SizeField(r.csw) == Encoding(size) && r.phase.Whole? && Address(m, r) == addr
    && (count > 1 ==> size == Size32 && IncField(r.csw) == INC_SINGLE && addr % WINDOW + 4 * count <= WINDOW)
  }

  /** A sequence of data writes, or a part of it: memory has the bytes of the writes that
      were made, except those of a last one that faulted. */
  lemma {:induction false} SequenceWrite(env: Env, m: MemPort, h: seq<ApAccess>, addr: int, size: Size,
                                         values: seq<Word>, bytes: seq<Byte>,
                                         h': seq<ApAccess>)
    requires values != [] && Carries(m.big, addr, size, values, bytes) && WriteAt(env, m, h, addr, size, |values|)
    requires Partly(h, WritesOf(m.sel, DRW, values, |values|), h') && Unbroken(env, h, h')
    ensures |h| <= |h'| <= |h| + |values|
    ensures var j := |h'| - |h|;
            Overwritten(env, m, h, h', addr, bytes, Bytes(size) * if j > 0 && env.faults(h') then j - 1 else j)
    ensures var r, r' := RegsAt(env, m, h), RegsAt(env, m, h');
            r'.csw == r.csw && r'.tarhi == r.tarhi && r'.phase.Whole?
  {
    hide RegsAt, ByteAt, PortOf, SizeField, IncField, Partly, WriteWord, Address, Overwritten, Unbroken;
    PartlyIs(h, WritesOf(m.sel, DRW, values, |values|), h');
    var j := |h'| - |h|;
    WritesPrefix(m.sel, DRW, values, |values|, j);
    WritesOnly(m, values, j);
    RegsKept(env, m, h, WritesOf(m.sel, DRW, values, j));
    if |values| == 1 {
      OneWrite(env, m, h, addr, size, values, bytes, j);
    } else {
      AddressParts(m, RegsAt(env, m, h));
      WroteRun(env, m, h, values, bytes, j);
    }
  }

  lemma {:induction false} OneWrite(env: Env, m: MemPort, h: seq<ApAccess>, addr: int, size: Size, values: seq<Word>,
                                    bytes: seq<Byte>, j: nat)
    requires |values| == 1 && j <= 1 && Carries(m.big, addr, size, values, bytes) && WriteAt(env, m, h, addr, size, 1)
    ensures var h' := h + WritesOf(m.sel, DRW, values, j);
            Overwritten(env, m, h, h', addr, bytes, if j == 0 || env.faults(h') then 0 else Bytes(size))
  {
    hide RegsAt, ByteAt, PortOf, SizeField, IncField, WriteWord, Address, Overwritten;
    assert bytes[0..|bytes|] == bytes;
    if j == 0 {
      assert h + WritesOf(m.sel, DRW, values, 0) == h;
      SameMemory(env, m, h, addr, bytes);
    } else {
      assert WritesOf(m.sel, DRW, values, 0) == [];
      assert WritesOf(m.sel, DRW, values, 1) == [ApAccess(PortOf(m.sel, DRW), false, values[0])];
      WroteOne(env, m, h, size, bytes);
    }
  }

  lemma {:induction false} WritesOnly(m: MemPort, values: seq<Word>, j: nat)
    requires j <= |values|
    ensures NoAccess(m, WritesOf(m.sel, DRW, values, j), CSW) && NoAccess(m, WritesOf(m.sel, DRW, values, j), TARHI)
  {
    hide PortOf;
    if j > 0 {
      WritesOnly(m, values, j - 1);
      var a := ApAccess(PortOf(m.sel, DRW), false, values[j - 1]);
      Distinct(m, a, DRW, CSW);
      Distinct(m, a, DRW, TARHI);
    }
  }

  lemma {:induction false} UndisturbedWrote(env: Env, m: MemPort, h0: seq<ApAccess>, h: seq<ApAccess>, base: int,
                                            bytes: seq<Byte>)
    requires Overwritten(env, m, h0, h, 0, [], 0)
    ensures Overwritten(env, m, h0, h, base, bytes, 0)
  {
    hide ByteAt;
  }

  /** What a transaction of both halves of a 64-bit write leaves, complete or not. */
  lemma {:induction false} LargeWritten(env: Env, m: MemPort, h0: seq<ApAccess>, ops: seq<Op>, results: seq<OpResult>,
                                        n: nat, h: seq<ApAccess>,
                                        addr: int, value: int) returns (done: nat)
    requires LargeAt(env, m, h0, addr) && Fits(Size64, value)
    requires ops == [WriteAp(m.sel, DRW, Low(value), true), WriteAp(m.sel, DRW, High(value), true)]
    requires Answered(env, ops, results, h0, n, h)
    ensures |results| == 2 && results[0].Resolved? && (results[0].err.None? <==> n > 0)
    ensures (done == 0 || (done == 8 && |h| == |h0| + 2)) && (n == 2 ==> done == 8)
    ensures Overwritten(env, m, h0, h, addr, BytesOf(m.big, Size64, value), done)
    ensures var r, r' := RegsAt(env, m, h0), RegsAt(env, m, h);
            r'.csw == r.csw && r'.tar == r.tar && r'.tarhi == r.tarhi && (n == 2 ==> r'.phase.Whole?)
  {
    hide RegsAt, PortOf, Overwritten, Joined, Unbroken, Partly, NoFault, LargeAt, Seen, ScalarByte;
    var s := [DataAccess(m, false, Low(value)), DataAccess(m, false, High(value))];
    SeenTwo(ops);
    assert Seen(ops, 0, 2) == s;
    LowHigh(value);
    assert Joined(Low(value), High(value)) == value by {
      Rejoined(value);
    }
    LargeWrite(env, m, h0, h, addr, Low(value), High(value));
    done := if |h| == |h0| + 2 && !env.faults(h) then 8 else 0;
    if n == 2 {
      LastFault(env, h0, s);
    }
  }

  lemma {:induction false} Rejoined(value: int)
    requires Fits(Size64, value)
    ensures Joined(Low(value), High(value)) == value
  {
  }

  /** What a transaction of a write sequence leaves, complete or not. */
  lemma {:induction false} SequenceWritten(env: Env, m: MemPort, h: seq<ApAccess>, addr: int, size: Size,
                                           values: seq<Word>, bytes: seq<Byte>,
                                           results: seq<OpResult>, n: nat, h': seq<ApAccess>,
                                           confirmed: nat) returns (done: nat)
    requires values != [] && Carries(m.big, addr, size, values, bytes) && WriteAt(env, m, h, addr, size, |values|)
    requires Answered(env, [WriteSeq(m.sel, DRW, values)], results, h, n, h')
    requires confirmed > 0 ==>
               confirmed == |values| && h' == h + Seen([WriteSeq(m.sel, DRW, values)], 0, 1) && !env.faults(h')
    ensures Bytes(size) * confirmed <= done <= |bytes| && Overwritten(env, m, h, h', addr, bytes, done)
    ensures done > 0 ==> h' != h
    ensures |bytes| == Bytes(size) * |values|
    ensures var r, r' := RegsAt(env, m, h), RegsAt(env, m, h');
            r'.csw == r.csw && r'.tarhi == r.tarhi && r'.phase.Whole?
  {
    hide RegsAt, PortOf, Overwritten, Unbroken, Partly, NoFault, Seen, WriteAt, WritesOf, WriteWord;
    var ops := [WriteSeq(m.sel, DRW, values)];
    FirstSeen(ops);
    AnsweredAll(env, ops, results, h, n, h');
    SequenceWrite(env, m, h, addr, size, values, bytes, h');
    var j := |h'| - |h|;
    var k := if j > 0 && env.faults(h') then j - 1 else j;
    done := Bytes(size) * k;
  }

  lemma {:induction false} CarriesLength(big: bool, base: int, values: seq<Word>, bytes: seq<Byte>)
    requires Carries(big, base, Size32, values, bytes)
    ensures |bytes| == 4 * |values| && base % 4 == 0
  {
    hide WriteWord;
  }

  /** One word of a run on its own. */
  lemma {:induction false} CarriesOne(big: bool, base: int, values: seq<Word>, bytes: seq<Byte>, i: nat)
    requires Carries(big, base, Size32, values, bytes) && i < |values|
    ensures 4 * i + 4 <= |bytes| && Carries(big, base + 4 * i, Size32, values[i..i + 1], bytes[4 * i..4 * i + 4])
  {
    hide WriteWord;
    EncodesAt(big, base, values, bytes, i);
    var part := bytes[4 * i..4 * i + 4];
    assert part[0..4] == part;
    assert values[i..i + 1] == [values[i]];
  }

  lemma {:induction false} ChunkStarts(large: bool, addr: nat, size: Size, values: seq<Word>)
    requires values != [] && InRange(large, addr + Bytes(size) * |values| - 1)
    ensures InRange(large, addr)
  {
  }

  /** A chunk of a segment lies within it. */
  lemma {:induction false} ChunkWithin(s: Segment, addr: nat, first: nat, count: nat, length: nat)
    requires Proper(s, addr) && s.offset + Extent(s) <= length && first + count <= s.count && count > 0
    ensures var w := Bytes(s.size);
            var at := s.offset + w * first;
            && w > 0 && (addr + at) % w == 0 && at + w * count <= length
            && s.size != Size64 && (s.size == Size32 || count == 1)
            && (s.inc ==> s.size == Size32 && (addr + at) % WINDOW + 4 * count <= WINDOW)
            && (!s.inc ==> count == 1)
  {
    if s.inc {
      ChunkInWindow(s.address, 4 * first, 4 * count);
    }
  }

  lemma {:induction false} ChunkNext(size: Size, first: nat, count: nat)
    ensures Bytes(size) * (first + count) == Bytes(size) * first + Bytes(size) * count
  {
  }

  // ----- Immediate accesses -----

  /** A saved register is written back, or nothing happens. */
  lemma {:induction false} PutBack(env: Env, m: MemPort, h0: seq<ApAccess>, addr: Word, value: Word, h: seq<ApAccess>)
    requires addr == CSW || addr == TAR || (addr == TARHI && m.large)
    requires addr == CSW ==> Supported(m, value)
    requires Immediate.OnceAtMost(h0, ApAccess(PortOf(m.sel, addr), false, value), h)
    ensures Overwritten(env, m, h0, h, 0, [], 0)
    ensures var r, r' := RegsAt(env, m, h0), RegsAt(env, m, h);
            r' == if h == h0 then r
                  else if addr == CSW then r.(csw := value, phase := Whole)
                  else if addr == TAR then r.(tar := value)
                  else r.(tarhi := value)
  {
    hide RegsAt, ByteAt, PortOf, Overwritten, Supported, TakenCsw;
    var a := ApAccess(PortOf(m.sel, addr), false, value);
    Distinct(m, a, addr, DRW);
    if h == h0 {
      SameMemory(env, m, h0, 0, []);
    } else {
      KeptMemory(env, m, h0, [a], 0, []);
      if addr == CSW {
        AfterCsw(env, m, h0, value);
        TakenSupported(m, RegsAt(env, m, h0).csw, value);
      } else if addr == TAR {
        AfterTar(env, m, h0, value);
      } else {
        AfterTarhi(env, m, h0, value);
      }
    }
  }

  /** Reading a register other than DRW ends a 64-bit transfer if it is CSW, and changes
      nothing else. */
  lemma {:induction false} LookedAt(env: Env, m: MemPort, h0: seq<ApAccess>, addr: Word, h: seq<ApAccess>)
    requires Serves(env, m) && addr < 0x100 && addr != DRW &&
             Immediate.OnceAtMost(h0, ApAccess(PortOf(m.sel, addr), true, 0), h)
    ensures Overwritten(env, m, h0, h, 0, [], 0)
    ensures var r, r' := RegsAt(env, m, h0), RegsAt(env, m, h);
            && r' == r.(phase := r'.phase) && (r.phase.Whole? ==> r'.phase.Whole?)
            && (h != h0 ==> Answers(m, r, addr, env.value(h)) && (addr == CSW ==> r'.phase.Whole?))
  {
    hide RegsAt, ByteAt, PortOf, Overwritten, Supported;
    var a := ApAccess(PortOf(m.sel, addr), true, 0);
    Distinct(m, a, addr, DRW);
    if h == h0 {
      SameMemory(env, m, h0, 0, []);
    } else {
      KeptMemory(env, m, h0, [a], 0, []);
      LookStep(env, m, h0, a);
      assert ReadsRegister(m, h, addr);
    }
  }

  lemma {:induction false} LookStep(env: Env, m: MemPort, h: seq<ApAccess>, a: ApAccess)
    requires a.read && !IsAccess(m, a, DRW)
    ensures var r, r' := RegsAt(env, m, h), RegsAt(env, m, h + [a]);
            r' == if IsAccess(m, a, CSW) then r.(phase := Whole) else r
  {
    hide TakenCsw, NextTar, PortOf;
    Snoc(h, a);
  }

  /** A size that the port has selected is one that it supports. */
  lemma {:induction false} TakesSize(env: Env, m: MemPort, h: seq<ApAccess>, size: Size)
    requires Serves(env, m) && SizeField(RegsAt(env, m, h).csw) == Encoding(size)
    ensures m.sizes(Encoding(size))
  {
    hide RegsAt;
    StaysSupported(env, m, h);
  }

  lemma {:induction false} AddressWrites(large: bool, sel: Word, addr: int)
    requires InRange(large, addr)
    ensures |AddressOps(large, sel, addr)| == |AddressAccesses(large, sel, addr)|
    ensures forall i :: 0 <= i < |AddressOps(large, sel, addr)| ==> AddressOps(large, sel, addr)[i].WriteAp?
  {
  }

  lemma {:induction false} ProperCount(s: Segment, addr: nat)
    requires Proper(s, addr)
    ensures (s.inc ==> s.size == Size32) && (!s.inc ==> s.count == 1) && s.count > 0 && ChunkStart(s, 0)
  {
  }
}
