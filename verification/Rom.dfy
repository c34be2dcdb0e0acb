/** CoreSight component identification and ROM table entries. */
module CoreSight {
  import opened Options

  const WORD_LIMIT := 0x1_0000_0000
  const ADDRESS_LIMIT := 0x1_0000_0000_0000_0000
  const PAGE := 0x1000

  type Word = w: nat | w < WORD_LIMIT
  type Address = a: nat | a < ADDRESS_LIMIT

  datatype Error =
    | Cancelled
    | Unreadable(address: nat)
    | Unaligned(base: nat)
    | BadCidr(base: nat)
    | BadSnapshot
    | NotRomTable
    | Unsupported
    | BadIndex
    | BadPresence
    | BadReserved
    | BadOffset

  datatype Result<T> = Ok(value: T) | Err(error: Error)

  /**
    * Target memory as the reader sees it. Every read and every look at the context is one step of time, so
    * memory may change, reads may fail and the caller may give up at any step.
    */
  datatype Env = Env(word: (nat, nat) -> Option<Word>, live: nat -> bool)

  /** A result, and the time after it. */
  datatype Timed<T> = Timed(now: nat, result: Result<T>)

  function ReadWord(env: Env, now: nat, address: nat): Result<Word> {
    if !env.live(now) then Err(Cancelled)
    else
      var w := env.word(now, address);
      if w.None? then Err(Unreadable(address)) else Ok(w.value)
  }

  // ----- Identification -----

  datatype Component = Component(base: Address, cidr: nat, pidr: nat, devarch: nat, devid: nat, devtype: nat)

  /** The low bytes of the words at `offsets`, least significant first. */
  function IdFrom(env: Env, now: nat, base: Address, offsets: seq<nat>, i: nat): (r: Timed<nat>)
    requires i <= |offsets|
    ensures now <= r.now <= now + (|offsets| - i)
    decreases |offsets| - i
  {
    if i == |offsets| then Timed(now, Ok(0))
    else
      var w := ReadWord(env, now, base + offsets[i]);
      if w.Err? then Timed(now + 1, Err(w.error))
      else
        var rest := IdFrom(env, now + 1, base, offsets, i + 1);
        if rest.result.Err? then rest else Timed(rest.now, Ok(w.value % 256 + 256 * rest.result.value))
  }

  /** Low bytes already placed, and what the rest of the bytes add. */
  function Onto(id: nat, place: nat, rest: Timed<nat>): Timed<nat> {
    if rest.result.Err? then rest else Timed(rest.now, Ok(id + place * rest.result.value))
  }

  lemma {:induction false} OntoStep(env: Env, now: nat, base: Address, offsets: seq<nat>, i: nat, id: nat, place: nat)
    requires i < |offsets|
    ensures var w := ReadWord(env, now, base + offsets[i]);
            Onto(id, place, IdFrom(env, now, base, offsets, i))
            == if w.Err? then Timed(now + 1, Err(w.error))
               else Onto(id + w.value % 256 * place, 256 * place, IdFrom(env, now + 1, base, offsets, i + 1))
  {
    var w := ReadWord(env, now, base + offsets[i]);
    var rest := IdFrom(env, now + 1, base, offsets, i + 1);
    if w.Ok? && rest.result.Ok? {
      Placed(place, w.value % 256, rest.result.value);
    }
  }

  /** Bytes are put in place one by one, up to the first read that fails. */
  method ReadId(env: Env, now: nat, base: Address, offsets: seq<nat>) returns (r: Timed<nat>)
    ensures r == IdFrom(env, now, base, offsets, 0)
  {
    var id: nat, place: nat, time: nat := 0, 1, now;
    for i := 0 to |offsets|
      invariant IdFrom(env, now, base, offsets, 0) == Onto(id, place, IdFrom(env, time, base, offsets, i))
    {
      hide IdFrom, Onto;
      OntoStep(env, time, base, offsets, i, id, place);
      var w := ReadWord(env, time, base + offsets[i]);
      if w.Err? {
        return Timed(time + 1, Err(w.error));
      }
      id := id + w.value % 256 * place;
      place := 256 * place;
      time := time + 1;
    }
    return Timed(time, Ok(id));
  }

  lemma {:induction false} Placed(place: nat, byte: nat, rest: nat)
    ensures place * (byte + 256 * rest) == byte * place + 256 * place * rest
  {
    assert place * (byte + 256 * rest) == place * byte + place * (256 * rest);
  }

  const CIDR_OFFSETS: seq<nat> := [0xff0, 0xff4, 0xff8, 0xffc]
  const PIDR_OFFSETS: seq<nat> := [0xfe0, 0xfe4, 0xfe8, 0xfec, 0xfd0, 0xfd4, 0xfd8, 0xfdc]

  predicate ValidCidr(cidr: nat) {
    cidr % 0x1_0000_0000 / 0x10000 == 0xb105 && cidr % 0x1000 == 0x00d
  }

  function Class(c: Component): nat {
    c.cidr / 0x1000 % 16
  }

  /** DEVARCH, DEVID and DEVTYPE, read only for class 9. */
  function ReadDevice(env: Env, now: nat, c: Component): (r: Timed<Component>)
    ensures now < r.now <= now + 3
    ensures r.result.Ok? ==> r.result.value.(devarch := c.devarch, devid := c.devid, devtype := c.devtype) == c
  {
    var arch := ReadWord(env, now, c.base + 0xfbc);
    if arch.Err? then Timed(now + 1, Err(arch.error))
    else
      var id := ReadWord(env, now + 1, c.base + 0xfc8);
      if id.Err? then Timed(now + 2, Err(id.error))
      else
        var kind := ReadWord(env, now + 2, c.base + 0xfcc);
        if kind.Err? then Timed(now + 3, Err(kind.error))
        else Timed(now + 3, Ok(c.(devarch := arch.value, devid := id.value, devtype := kind.value % 256)))
  }

  function Identify(env: Env, now: nat, base: Address): (r: Timed<Component>)
    ensures now <= r.now <= now + 16
    ensures r.result.Ok? ==>
              && var c := r.result.value;
              && c.base == base && base % PAGE == 0 && ValidCidr(c.cidr)
              && (Class(c) != 9 ==> c.devarch == c.devid == c.devtype == 0)
  {
    if base % PAGE != 0 then Timed(now, Err(Unaligned(base)))
    else if !env.live(now) then Timed(now + 1, Err(Cancelled))
    else
      var cidr := IdFrom(env, now + 1, base, CIDR_OFFSETS, 0);
      if cidr.result.Err? then Timed(cidr.now, Err(cidr.result.error))
      else if !ValidCidr(cidr.result.value) then Timed(cidr.now, Err(BadCidr(base)))
      else
        var pidr := IdFrom(env, cidr.now, base, PIDR_OFFSETS, 0);
        if pidr.result.Err? then Timed(pidr.now, Err(pidr.result.error))
        else
          var c := Component(base, cidr.result.value, pidr.result.value, 0, 0, 0);
          if Class(c) == 9 then ReadDevice(env, pidr.now, c) else Timed(pidr.now, Ok(c))
  }

  // ----- Tables -----

  datatype Table = Table(base: Address, count: nat, stride: nat, class_: nat)

  /** Class 1, and Arm's class 9 ROM architecture 0x0af7 revision 0 with 32- or 64-bit entries. */
  function RomTable(c: Component): (r: Result<Table>)
    ensures r.Ok? ==>
              && var t := r.value;
              && t.base == c.base && t.base % PAGE == 0 && 0 < t.count * t.stride <= PAGE && TableShape(t)
  {
    if c.base % PAGE != 0 || !ValidCidr(c.cidr) then Err(BadSnapshot)
    else if Class(c) == 1 then Ok(Table(c.base, 960, 4, 1))
    else if Class(c) != 9 || c.devarch / 0x10_0000 % 2 == 0 || c.devarch / 0x20_0000 != 0x23b ||
            c.devarch % 0x10000 != 0x0af7 then
      Err(NotRomTable)
    else if c.devarch / 0x10000 % 16 != 0 || c.devid % 16 > 1 then Err(Unsupported)
    else if c.devid % 16 == 1 then Ok(Table(c.base, 256, 8, 9))
    else Ok(Table(c.base, 512, 4, 9))
  }

  predicate TableShape(t: Table) {
    (t.class_ == 1 && t.stride == 4) || (t.class_ == 9 && (t.stride == 4 || t.stride == 8))
  }

  datatype Entry = Entry(raw: nat, base: nat, present: bool, end: bool, powerId: nat, powered: bool)

  /** A two's complement number of `limit` values. */
  function Signed(v: nat, limit: nat): int {
    if v < limit / 2 then v else v - limit
  }

  function Width(t: Table): (n: nat)
    ensures n > 0
  {
    if t.stride == 4 then WORD_LIMIT else ADDRESS_LIMIT
  }

  function OffsetOf(t: Table, raw: nat): int {
    var pages := raw - raw % PAGE;
    if t.stride == 4 then Signed(pages % WORD_LIMIT, WORD_LIMIT) else Signed(pages, ADDRESS_LIMIT)
  }

  /** 64-bit addition that notices when it wrapped. */
  function EntryBase(t: Table, raw: nat): (r: Result<Address>)
    requires raw < ADDRESS_LIMIT
    ensures var offset := OffsetOf(t, raw);
            r == if offset != 0 && 0 <= t.base + offset < ADDRESS_LIMIT then Ok(t.base + offset) else Err(BadOffset)
  {
    var offset := OffsetOf(t, raw);
    var base := (t.base + offset) % ADDRESS_LIMIT;
    if offset == 0 || (offset > 0 && base < t.base) || (offset < 0 && base > t.base) then Err(BadOffset) else Ok(base)
  }

  function Decode(t: Table, raw: nat): Result<Entry>
    requires raw < ADDRESS_LIMIT
  {
    if raw == 0 then Ok(Entry(0, 0, false, true, 0, false))
    else if t.class_ == 9 && raw % 4 == 2 then Ok(Entry(raw, 0, false, false, 0, false))
    else if raw / 2 % 2 == 0 || (t.class_ == 9 && raw % 4 != 3) then Err(BadPresence)
    else if raw / 0x200 % 8 != 0 || raw / 8 % 2 != 0 || (raw / 4 % 2 == 0 && raw / 16 % 32 != 0) then Err(BadReserved)
    else if raw % 2 == 0 then Ok(Entry(raw, 0, false, false, 0, false))
    else
      var base := EntryBase(t, raw);
      if base.Err? then Err(base.error)
      else Ok(Entry(raw, base.value, true, false, raw / 16 % 32, raw / 4 % 2 == 1))
  }

  /** The architectural layout of a present entry: a page offset, a power domain, and the format and present bits. */
  function Layout(t: Table, offset: int, powerId: nat, powered: bool): int {
    offset % Width(t) + 16 * powerId + (if powered then 4 else 0) + 3
  }

  /** Offsets an entry of this table can hold. */
  predicate Reaches(t: Table, offset: int) {
    offset != 0 && offset % PAGE == 0 && 0 - Width(t) <= 2 * offset < Width(t)
  }

  lemma {:induction false} OffsetFits(t: Table, raw: nat)
    requires TableShape(t) && raw < Width(t)
    ensures var offset := OffsetOf(t, raw);
            offset % PAGE == 0 && 0 - Width(t) <= 2 * offset < Width(t) && offset % Width(t) == raw - raw % PAGE
  {
    var n := raw / PAGE;
    assert raw - raw % PAGE == PAGE * n;
    SignedPages(n, t);
  }

  lemma {:induction false} SignedPages(n: nat, t: Table)
    requires TableShape(t) && PAGE * n < Width(t)
    ensures var offset := Signed(PAGE * n, Width(t));
            offset % PAGE == 0 && 0 - Width(t) <= 2 * offset < Width(t) && offset % Width(t) == PAGE * n
    ensures PAGE * n % WORD_LIMIT == PAGE * n || t.stride != 4
  {
    var offset := Signed(PAGE * n, Width(t));
    if offset < 0 {
      assert offset + Width(t) == PAGE * n;
      if t.stride == 4 {
        assert offset == PAGE * (n - 0x10_0000);
      } else {
        assert offset == PAGE * (n - 0x10_0000_0000_0000);
      }
    }
  }

  /** The fields of an entry word, lowest first: format and present, power valid, reserved,
      power domain, reserved, page. */
  lemma {:induction false} Fields(raw: nat)
    ensures raw == 4096 * (raw / 4096) + 512 * (raw / 512 % 8) + 16 * (raw / 16 % 32) + 8 * (raw / 8 % 2) +
            4 * (raw / 4 % 2) + 2 * (raw / 2 % 2) + raw % 2
  {
    Nested(raw, 2, 2);
    Nested(raw, 4, 2);
    Nested(raw, 8, 2);
    Nested(raw, 16, 32);
    Nested(raw, 512, 8);
  }

  lemma {:induction false} Quotient(x: nat, q: nat, r: nat, m: nat)
    requires r < m && x == m * q + r
    ensures x / m == q && x % m == r
  {
    var d := x / m - q;
    assert x == m * (x / m) + x % m;
    assert m * d == m * (x / m) - m * q;
    assert d >= 1 ==> m * d >= m;
    assert d <= -1 ==> m * d <= 0 - m;
  }

  lemma {:induction false} Recombined(v: nat, a: nat, x: nat, r: nat, b: nat, y: nat, s: nat)
    requires r < a && s < b && v == a * x + r && x == b * y + s
    ensures v == a * b * y + (a * s + r) && 0 <= a * s + r < a * b
  {
    assert a * (b * y + s) == a * b * y + a * s;
    assert a * s <= a * (b - 1);
  }

  lemma {:induction false} Nested(v: nat, a: nat, b: nat)
    requires a > 0 && b > 0
    ensures a * b > 0 && v / a == b * (v / (a * b)) + v / a % b
  {
    var x := v / a;
    Recombined(v, a, x, v % a, b, x / b, x % b);
    Quotient(v, x / b, a * (x % b) + v % a, a * b);
  }

  lemma {:induction false} Composed(raw: nat, page: nat, power: nat, valid: nat)
    requires power < 32 && valid <= 1 && raw == 4096 * page + 16 * power + 4 * valid + 3
    ensures raw / 4096 == page && raw % 4096 == 16 * power + 4 * valid + 3
    ensures raw / 512 % 8 == 0 && raw / 16 % 32 == power && raw / 8 % 2 == 0 && raw / 4 % 2 == valid
    ensures raw / 2 % 2 == 1 && raw % 2 == 1 && raw % 4 == 3
  {
    Quotient(raw, page, 16 * power + 4 * valid + 3, 4096);
    Quotient(raw, 8 * page, 16 * power + 4 * valid + 3, 512);
    Quotient(8 * page, page, 0, 8);
    Quotient(raw, 256 * page + power, 4 * valid + 3, 16);
    Quotient(256 * page + power, 8 * page, power, 32);
    Quotient(raw, 512 * page + 2 * power, 4 * valid + 3, 8);
    Quotient(512 * page + 2 * power, 256 * page + power, 0, 2);
    Quotient(raw, 1024 * page + 4 * power + valid, 3, 4);
    Quotient(1024 * page + 4 * power + valid, 512 * page + 2 * power, valid, 2);
    Quotient(raw, 2048 * page + 8 * power + 2 * valid + 1, 1, 2);
    Quotient(2048 * page + 8 * power + 2 * valid + 1, 1024 * page + 4 * power + valid, 1, 2);
  }

  lemma {:induction false} FlagBits(raw: nat)
    requires raw / 2 % 2 == 1 && raw % 2 == 1 && raw / 8 % 2 == 0 && raw / 0x200 % 8 == 0
    ensures raw % PAGE == 16 * (raw / 16 % 32) + (if raw / 4 % 2 == 1 then 4 else 0) + 3
  {
    Fields(raw);
    Composed(raw, raw / 4096, raw / 16 % 32, raw / 4 % 2);
  }

  /** A present entry is the layout of what it decodes to. */
  lemma {:induction false} DecodeSound(t: Table, raw: nat)
    requires TableShape(t) && raw < Width(t) && Decode(t, raw).Ok? && Decode(t, raw).value.present
    ensures var e := Decode(t, raw).value;
            && Reaches(t, e.base - t.base) && e.powerId < 32 && (e.powered || e.powerId == 0)
            && raw == Layout(t, e.base - t.base, e.powerId, e.powered)
  {
    FlagBits(raw);
    OffsetFits(t, raw);
  }

  /** Every layout decodes to its fields, unless the child lies outside the address space. */
  lemma {:induction false} DecodeComplete(t: Table, offset: int, powerId: nat, powered: bool)
    requires TableShape(t) && Reaches(t, offset) && powerId < 32 && (powered || powerId == 0)
    ensures var raw := Layout(t, offset, powerId, powered);
            && 0 < raw < Width(t)
            && Decode(t, raw) == if 0 <= t.base + offset < ADDRESS_LIMIT
                                 then Ok(Entry(raw, t.base + offset, true, false, powerId, powered)) else Err(BadOffset)
  {
    var raw := Layout(t, offset, powerId, powered);
    LayoutBits(t, offset, powerId, powered);
    OffsetBack(t, offset, powerId, powered);
  }

  lemma {:induction false} LayoutBits(t: Table, offset: int, powerId: nat, powered: bool)
    requires TableShape(t) && Reaches(t, offset) && powerId < 32
    ensures var raw := Layout(t, offset, powerId, powered);
            && 0 < raw < Width(t) && raw % 4 == 3 && raw / 2 % 2 == 1 && raw % 2 == 1 && raw / 0x200 % 8 == 0
            && raw / 8 % 2 == 0
            && raw / 16 % 32 == powerId && (raw / 4 % 2 == 1 <==> powered)
            && raw - raw % PAGE == offset % Width(t)
  {
    var pages := offset % Width(t);
    WholePages(t, offset);
    Composed(Layout(t, offset, powerId, powered), pages / PAGE, powerId, if powered then 1 else 0);
  }

  lemma {:induction false} WholePages(t: Table, offset: int)
    requires TableShape(t) && Reaches(t, offset)
    ensures var pages := offset % Width(t);
            pages == PAGE * (pages / PAGE) && pages + PAGE <= Width(t) && Signed(pages, Width(t)) == offset
  {
    var n := offset / PAGE;
    assert offset == PAGE * n;
    if offset >= 0 {
      assert offset % Width(t) == offset;
    } else {
      assert offset % Width(t) == offset + Width(t);
    }
  }

  lemma {:induction false} OffsetBack(t: Table, offset: int, powerId: nat, powered: bool)
    requires TableShape(t) && Reaches(t, offset) && powerId < 32
    ensures Layout(t, offset, powerId, powered) >= 0 && OffsetOf(t, Layout(t, offset, powerId, powered)) == offset
  {
    hide Layout, Reaches, Signed;
    LayoutBits(t, offset, powerId, powered);
    WholePages(t, offset);
  }

  function ReadEntry(env: Env, now: nat, t: Table, index: nat): (r: Timed<Entry>)
    ensures now <= r.now <= now + 2
    ensures r.result.Ok? ==>
              !(r.result.value.present && r.result.value.end) &&
              (r.result.value.present ==> r.result.value.base < ADDRESS_LIMIT)
  {
    if index >= t.count then Timed(now, Err(BadIndex))
    else
      var address := t.base + index * t.stride;
      var low := ReadWord(env, now, address);
      if low.Err? then Timed(now + 1, Err(low.error))
      else if t.stride == 8 then
        var high := ReadWord(env, now + 1, address + 4);
        if high.Err? then Timed(now + 2, Err(high.error))
        else Timed(now + 2, Decode(t, low.value + WORD_LIMIT * high.value))
      else Timed(now + 1, Decode(t, low.value))
  }
}
