/** What the transactions of a MEM-AP owner do to its registers and to memory. */
module DapMemHistory {
  import opened Words
  import opened SwdTarget
  import opened DapPartial
  import opened SimMemAp
  import opened DapMemCodec

  // ----- What a list of accesses leaves alone -----

  ghost predicate NoDataWrite(m: MemPort, s: seq<ApAccess>) {
    forall i :: 0 <= i < |s| ==> s[i].read || !IsAccess(m, s[i], DRW)
  }

  ghost predicate NoAccess(m: MemPort, s: seq<ApAccess>, addr: Word) {
    forall i :: 0 <= i < |s| ==> !IsAccess(m, s[i], addr)
  }

  lemma {:induction false} Front(h: seq<ApAccess>, s: seq<ApAccess>)
    requires s != []
    ensures h + s == (h + s[..|s| - 1]) + [s[|s| - 1]]
  {
  }

  lemma {:induction false} MemoryKept(env: Env, m: MemPort, h: seq<ApAccess>, s: seq<ApAccess>, x: int)
    requires NoDataWrite(m, s)
    ensures ByteAt(env, m, h + s, x) == ByteAt(env, m, h, x)
    decreases |s|
  {
    hide ByteAt;
    if s == [] {
      assert h + s == h;
    } else {
      Front(h, s);
      MemoryKept(env, m, h, s[..|s| - 1], x);
      MemoryStays(env, m, h + s[..|s| - 1], s[|s| - 1], x);
    }
  }

  lemma {:induction false} OneStep(env: Env, m: MemPort, h: seq<ApAccess>, a: ApAccess)
    ensures var r, r' := RegsAt(env, m, h), RegsAt(env, m, h + [a]);
            && (!IsAccess(m, a, CSW) ==> r'.csw == r.csw)
            && (!IsAccess(m, a, TAR) && !IsAccess(m, a, DRW) ==> r'.tar == r.tar)
            && (!IsAccess(m, a, TARHI) ==> r'.tarhi == r.tarhi)
            && (!IsAccess(m, a, DRW) || SizeField(r.csw) != 3 ==> r.phase.Whole? ==> r'.phase.Whole?)
            && (IsAccess(m, a, CSW) ==> r'.phase.Whole?)
  {
    hide TakenCsw, NextTar, PortOf;
    Snoc(h, a);
    if IsAccess(m, a, CSW) {
      Distinct(m, a, CSW, DRW);
    } else if IsAccess(m, a, TAR) {
      Distinct(m, a, TAR, TARHI);
    }
  }

  /** Registers that a list of accesses does not address keep their values, and only a
      64-bit access leaves a transfer unfinished. */
  lemma {:induction false} RegsKept(env: Env, m: MemPort, h: seq<ApAccess>, s: seq<ApAccess>)
    ensures var r, r' := RegsAt(env, m, h), RegsAt(env, m, h + s);
            && (NoAccess(m, s, CSW) ==> r'.csw == r.csw)
            && (NoAccess(m, s, TAR) && NoAccess(m, s, DRW) ==> r'.tar == r.tar)
            && (NoAccess(m, s, TARHI) ==> r'.tarhi == r.tarhi)
            && (r.phase.Whole? && (NoAccess(m, s, DRW) || (NoAccess(m, s, CSW) && SizeField(r.csw) != 3)) ==>
                  r'.phase.Whole?)
    decreases |s|
  {
    hide RegsAt, SizeField, IsAccess;
    if s == [] {
      assert h + s == h;
    } else {
      var front := s[..|s| - 1];
      Front(h, s);
      RegsKept(env, m, h, front);
      OneStep(env, m, h + front, s[|s| - 1]);
      assert NoAccess(m, s, CSW) ==> NoAccess(m, front, CSW) && !IsAccess(m, s[|s| - 1], CSW);
      assert NoAccess(m, s, TAR) ==> NoAccess(m, front, TAR) && !IsAccess(m, s[|s| - 1], TAR);
      assert NoAccess(m, s, TARHI) ==> NoAccess(m, front, TARHI) && !IsAccess(m, s[|s| - 1], TARHI);
      assert NoAccess(m, s, DRW) ==> NoAccess(m, front, DRW) && !IsAccess(m, s[|s| - 1], DRW);
    }
  }

  /** The accesses between two histories. */
  lemma {:induction false} PartlyIs(h0: seq<ApAccess>, s: seq<ApAccess>, h: seq<ApAccess>)
    requires Partly(h0, s, h)
    ensures |h0| <= |h| <= |h0| + |s| && h == h0 + s[..|h| - |h0|]
  {
    assert h == (h0 + s)[..|h|];
  }

  // ----- Data reads -----

  function ReadsOf(sel: Word, n: nat): (s: seq<ApAccess>)
    ensures |s| == n && forall i :: 0 <= i < n ==> s[i] == ApAccess(PortOf(sel, DRW), true, 0)
  {
    seq(n, i => ApAccess(PortOf(sel, DRW), true, 0))
  }

  lemma {:induction false} ReadsMore(sel: Word, n: nat)
    ensures ReadsOf(sel, n + 1) == ReadsOf(sel, n) + [ApAccess(PortOf(sel, DRW), true, 0)]
  {
  }

  /** TAR follows a run of words within its window. */
  lemma {:induction false} TarStep(tar: Word)
    requires tar % WINDOW + 4 < WINDOW && tar % 4 == 0
    ensures tar + 4 < 0x1_0000_0000 && NextTar(tar, 4) == tar + 4 && (tar + 4) % WINDOW == tar % WINDOW + 4
  {
  }

  ghost predicate WordRunning(r: Regs) {
    SizeField(r.csw) == 2 && IncField(r.csw) == INC_SINGLE && r.tar % 4 == 0
  }

  lemma {:induction false} RegsAfterReads(env: Env, m: MemPort, h: seq<ApAccess>, n: nat)
    requires var r := RegsAt(env, m, h); WordRunning(r) && r.tar % WINDOW + 4 * n < WINDOW
    requires NoFault(env, h, ReadsOf(m.sel, n))
    ensures var r := RegsAt(env, m, h);
            && r.tar + 4 * n < 0x1_0000_0000 && (r.tar + 4 * n) % WINDOW == r.tar % WINDOW + 4 * n
            && RegsAt(env, m, h + ReadsOf(m.sel, n)) == r.(tar := r.tar + 4 * n)
  {
    hide RegsAt, SizeField, IncField, NextTar, PortOf;
    var r := RegsAt(env, m, h);
    if n == 0 {
      assert h + ReadsOf(m.sel, 0) == h;
    } else {
      var a := ApAccess(PortOf(m.sel, DRW), true, 0);
      ReadsMore(m.sel, n - 1);
      FewerFaults(env, h, ReadsOf(m.sel, n), n - 1);
      assert ReadsOf(m.sel, n)[..n - 1] == ReadsOf(m.sel, n - 1);
      RegsAfterReads(env, m, h, n - 1);
      assert h + ReadsOf(m.sel, n) == (h + ReadsOf(m.sel, n - 1)) + [a];
      assert ReadsOf(m.sel, n)[..n] == ReadsOf(m.sel, n);
      AfterData(env, m, h + ReadsOf(m.sel, n - 1), true, 0);
      TarStep(r.tar + 4 * (n - 1));
      SizeWidth(Size32, r.csw);
    }
  }

  lemma {:induction false} FewerFaults(env: Env, h: seq<ApAccess>, s: seq<ApAccess>, n: nat)
    requires NoFault(env, h, s) && n <= |s|
    ensures NoFault(env, h, s[..n])
  {
    forall i | 0 < i <= n
      ensures !env.faults(h + s[..n][..i])
    {
      assert s[..n][..i] == s[..i];
    }
  }

  /** An aligned data read returns the addressed bytes in their lanes. */
  lemma {:induction false} ReadByte(env: Env, m: MemPort, h: seq<ApAccess>, size: Size, x: int)
    requires Serves(env, m) && size != Size64
    requires var r := RegsAt(env, m, h);
             && SizeField(r.csw) == Encoding(size) && Address(m, r) % Bytes(size) == 0
             && Address(m, r) <= x < Address(m, r) + Bytes(size)
    requires !env.faults(h + ReadsOf(m.sel, 1))
    ensures Lane(env.value(h + ReadsOf(m.sel, 1)), LaneOf(m.big, x)) == ByteAt(env, m, h, x)
  {
    hide RegsAt, ByteAt, Address, PortOf, Lane, LaneOf, SizeField, Width;
    var a := ApAccess(PortOf(m.sel, DRW), true, 0);
    assert ReadsOf(m.sel, 1) == [a];
    Snoc(h, a);
    SizeWidth(size, RegsAt(env, m, h).csw);
    MemoryStays(env, m, h, a, x);
    assert Returns(env, m, h + [a], x);
  }

  lemma {:induction false} AddressParts(m: MemPort, r: Regs)
    ensures Address(m, r) % WINDOW == r.tar % WINDOW && Address(m, r) % 4 == r.tar % 4
  {
  }

  lemma {:induction false} AddressOffset(m: MemPort, r: Regs, d: nat)
    requires r.tar + d < 0x1_0000_0000
    ensures Address(m, r.(tar := r.tar + d)) == Address(m, r) + d
  {
  }

  /** Read `j` of a run of words returns the bytes at its own address. */
  lemma {:induction false} RunByte(env: Env, m: MemPort, h: seq<ApAccess>, j: nat, x: int)
    requires Serves(env, m)
    requires var r := RegsAt(env, m, h);
             && WordRunning(r) && r.tar % WINDOW + 4 * j < WINDOW
             && Address(m, r) + 4 * j <= x < Address(m, r) + 4 * j + 4
    requires NoFault(env, h, ReadsOf(m.sel, j + 1))
    ensures Lane(env.value(h + ReadsOf(m.sel, j + 1)), LaneOf(m.big, x)) == ByteAt(env, m, h, x)
  {
    hide RegsAt, ByteAt, Address, PortOf, Lane, LaneOf, SizeField, IncField;
    var r, g := RegsAt(env, m, h), h + ReadsOf(m.sel, j);
    FewerFaults(env, h, ReadsOf(m.sel, j + 1), j);
    assert ReadsOf(m.sel, j + 1)[..j] == ReadsOf(m.sel, j);
    RegsAfterReads(env, m, h, j);
    AddressParts(m, r);
    AddressOffset(m, r, 4 * j);
    assert h + ReadsOf(m.sel, j + 1) == g + ReadsOf(m.sel, 1);
    assert ReadsOf(m.sel, j + 1)[..j + 1] == ReadsOf(m.sel, j + 1);
    ReadByte(env, m, g, Size32, x);
    MemoryKept(env, m, h, ReadsOf(m.sel, j), x);
  }

  // ----- Data writes -----

  /** Memory after `h'` is memory after `h` with the first `n` of `bytes` at `base`. */
  ghost predicate Overwritten(env: Env, m: MemPort, h: seq<ApAccess>, h': seq<ApAccess>, base: int, bytes: seq<Byte>,
                              n: nat)
  {
    n <= |bytes| &&
    forall x: int :: ByteAt(env, m, h', x) == if base <= x < base + n then bytes[x - base] else ByteAt(env, m, h, x)
  }

  lemma {:induction false} SameMemory(env: Env, m: MemPort, h: seq<ApAccess>, base: int, bytes: seq<Byte>)
    ensures Overwritten(env, m, h, h, base, bytes, 0)
  {
  }

  lemma {:induction false} KeptMemory(env: Env, m: MemPort, h: seq<ApAccess>, s: seq<ApAccess>, base: int,
                                      bytes: seq<Byte>)
    requires NoDataWrite(m, s)
    ensures Overwritten(env, m, h, h + s, base, bytes, 0)
  {
    hide ByteAt;
    forall x: int
      ensures ByteAt(env, m, h + s, x) == ByteAt(env, m, h, x)
    {
      MemoryKept(env, m, h, s, x);
    }
  }

  /** Writing one part after another. */
  lemma {:induction false} OverwriteMore(env: Env, m: MemPort, h: seq<ApAccess>, h1: seq<ApAccess>, h2: seq<ApAccess>,
                                         base: int, bytes: seq<Byte>, n: nat, part: seq<Byte>, k: nat)
    requires Overwritten(env, m, h, h1, base, bytes, n) && Overwritten(env, m, h1, h2, base + n, part, k)
    requires n + k <= |bytes| && k <= |part| && forall i :: 0 <= i < k ==> bytes[n + i] == part[i]
    ensures Overwritten(env, m, h, h2, base, bytes, n + k)
  {
    hide ByteAt;
  }

  /** One aligned write. */
  lemma {:induction false} WroteOne(env: Env, m: MemPort, h: seq<ApAccess>, size: Size, bytes: seq<Byte>)
    requires size != Size64 && |bytes| == Bytes(size)
    requires var r := RegsAt(env, m, h); SizeField(r.csw) == Encoding(size) && Address(m, r) % Bytes(size) == 0
    ensures var base := Address(m, RegsAt(env, m, h));
            var h' := h + [ApAccess(PortOf(m.sel, DRW), false, WriteWord(m.big, base, size, bytes))];
            Overwritten(env, m, h, h', base, bytes, if env.faults(h') then 0 else Bytes(size))
  {
    hide RegsAt, ByteAt, Address, PortOf, Lane, LaneOf, SizeField, WriteWord, Width;
    var r := RegsAt(env, m, h);
    var base := Address(m, r);
    var data := WriteWord(m.big, base, size, bytes);
    var h' := h + [ApAccess(PortOf(m.sel, DRW), false, data)];
    SizeWidth(size, r.csw);
    forall x: int
      ensures ByteAt(env, m, h', x) ==
              if !env.faults(h') && base <= x < base + Bytes(size) then bytes[x - base] else ByteAt(env, m, h, x)
    {
      MemoryWritten(env, m, h, data, x);
      if base <= x < base + Bytes(size) {
        WriteLanes(m.big, base, size, bytes, x - base);
      }
    }
  }

  /** The data words that write `bytes` at `base`. */
  ghost predicate Encodes(big: bool, base: int, values: seq<Word>, bytes: seq<Byte>) {
    && base % 4 == 0 && |bytes| == 4 * |values|
    && forall i :: 0 <= i < |values| ==> values[i] == WriteWord(big, base + 4 * i, Size32, bytes[4 * i..4 * i + 4])
  }

  lemma {:induction false} EncodesAt(big: bool, base: int, values: seq<Word>, bytes: seq<Byte>, i: nat)
    requires Encodes(big, base, values, bytes) && i < |values|
    ensures base % 4 == 0 && (base + 4 * i) % 4 == 0 && 4 * i + 4 <= |bytes|
    ensures values[i] == WriteWord(big, base + 4 * i, Size32, bytes[4 * i..4 * i + 4])
  {
    hide WriteWord;
  }

  /** Write `i` of a run: it goes to its own word, and TAR moves on. */
  lemma {:induction false} RunStep(env: Env, m: MemPort, r: Regs, g: seq<ApAccess>, values: seq<Word>, bytes: seq<Byte>,
                                   i: nat)
    requires i < |values| && WordRunning(r) && r.tar % WINDOW + 4 * |values| <= WINDOW &&
             Encodes(m.big, Address(m, r), values, bytes)
    requires r.tar + 4 * i < 0x1_0000_0000 && RegsAt(env, m, g) == r.(tar := r.tar + 4 * i)
    ensures 4 * i + 4 <= |bytes|
    ensures var h' := g + [ApAccess(PortOf(m.sel, DRW), false, values[i])];
            && Overwritten(env, m, g, h', Address(m, r) + 4 * i, bytes[4 * i..4 * i + 4],
                           if env.faults(h') then 0 else 4)
            && (!env.faults(h') && i + 1 < |values| ==>
                  r.tar + 4 * (i + 1) < 0x1_0000_0000 && RegsAt(env, m, h') == r.(tar := r.tar + 4 * (i + 1)))
  {
    hide RegsAt, ByteAt, Address, PortOf, SizeField, IncField, NextTar, WriteWord, Overwritten, Encodes;
    EncodesAt(m.big, Address(m, r), values, bytes, i);
    AddressOffset(m, r, 4 * i);
    WroteOne(env, m, g, Size32, bytes[4 * i..4 * i + 4]);
    AfterData(env, m, g, false, values[i]);
    SizeWidth(Size32, r.csw);
    if i + 1 < |values| {
      RunTar(r.tar, i + 1);
    }
  }

  /** A run of word writes, of which only the last may have faulted. */
  lemma {:induction false} WroteRun(env: Env, m: MemPort, h: seq<ApAccess>, values: seq<Word>, bytes: seq<Byte>, j: nat)
    requires j <= |values|
    requires var r := RegsAt(env, m, h);
             WordRunning(r) && r.tar % WINDOW + 4 * |values| <= WINDOW && Encodes(m.big, Address(m, r), values, bytes)
    requires Unbroken(env, h, h + WritesOf(m.sel, DRW, values, j))
    ensures var r, h' := RegsAt(env, m, h), h + WritesOf(m.sel, DRW, values, j);
            && Overwritten(env, m, h, h', Address(m, r), bytes, if j > 0 && env.faults(h') then 4 * (j - 1) else 4 * j)
            && ((j == 0 || !env.faults(h')) && j < |values| ==>
                  r.tar + 4 * j < 0x1_0000_0000 && RegsAt(env, m, h') == r.(tar := r.tar + 4 * j))
  {
    hide RegsAt, ByteAt, Address, PortOf, Overwritten, Unbroken, Encodes, WordRunning;
    var r := RegsAt(env, m, h);
    var base := Address(m, r);
    if j == 0 {
      assert h + WritesOf(m.sel, DRW, values, 0) == h;
      SameMemory(env, m, h, base, bytes);
    } else {
      var i, g := j - 1, h + WritesOf(m.sel, DRW, values, j - 1);
      var h' := h + WritesOf(m.sel, DRW, values, j);
      var a := ApAccess(PortOf(m.sel, DRW), false, values[i]);
      assert h' == g + [a];
      UnbrokenBefore(env, h, g, a);
      WroteRun(env, m, h, values, bytes, i);
      RunStep(env, m, r, g, values, bytes, i);
      OverwriteMore(env, m, h, g, h', base, bytes, 4 * i, bytes[4 * i..4 * i + 4], if env.faults(h') then 0 else 4);
    }
  }

  lemma {:induction false} RunTar(tar: Word, j: nat)
    requires 0 < j && tar % 4 == 0 && tar % WINDOW + 4 * j < WINDOW
    ensures tar + 4 * j < 0x1_0000_0000 && NextTar(tar + 4 * (j - 1), 4) == tar + 4 * j
  {
    hide NextTar;
    InWindow(tar, 4 * j);
    InWindow(tar, 4 * (j - 1));
    TarStep(tar + 4 * (j - 1));
  }

  lemma {:induction false} InWindow(tar: Word, d: nat)
    requires tar % WINDOW + d < WINDOW
    ensures tar + d < 0x1_0000_0000 && (tar + d) % WINDOW == tar % WINDOW + d
  {
    var block := tar / WINDOW;
    assert tar == block * WINDOW + tar % WINDOW;
    assert tar + d == block * WINDOW + (tar % WINDOW + d);
  }

  lemma {:induction false} UnbrokenBefore(env: Env, h: seq<ApAccess>, g: seq<ApAccess>, a: ApAccess)
    requires Unbroken(env, h, g + [a]) && h <= g
    ensures Unbroken(env, h, g) && (|h| < |g| ==> !env.faults(g))
  {
    forall n | |h| < n < |g|
      ensures !env.faults(g[..n])
    {
      assert (g + [a])[..n] == g[..n];
    }
    assert (g + [a])[..|g|] == g;
  }
}
