/** Transfer sizes, byte lanes as the host packs them, and the segments of a block. */
module DapMemCodec {
  import opened Words
  import opened SimMemAp

  datatype Size = Size8 | Size16 | Size32 | Size64

  function Bytes(size: Size): nat {
    match size
    case Size8 => 1
    case Size16 => 2
    case Size32 => 4
    case Size64 => 8
  }

  function Encoding(size: Size): nat {
    match size
    case Size8 => 0
    case Size16 => 1
    case Size32 => 2
    case Size64 => 3
  }

  lemma {:induction false} SizeWidth(size: Size, csw: Word)
    requires SizeField(csw) == Encoding(size)
    ensures Width(csw) == Bytes(size)
  {
  }

  /** A data word shifted right by `lanes` bytes. */
  function ShiftRight(word: Word, lanes: int): Word {
    if lanes == 0 then word
    else if lanes == 1 then word / 0x100
    else if lanes == 2 then word / 0x1_0000
    else word / 0x100_0000
  }

  function Masked(word: Word, size: Size): Word {
    match size
    case Size8 => word % 0x100
    case Size16 => word % 0x1_0000
    case _ => word
  }

  /** How many lanes a scalar of this size is shifted by at `addr`. */
  function LaneShift(big: bool, addr: int, size: Size): int {
    if big then 4 - Bytes(size) - addr % 4 else addr % 4
  }

  /** The scalar in a data word, right-justified. */
  function Scalar(big: bool, addr: int, size: Size, word: Word): Word
    requires size != Size64 && addr % Bytes(size) == 0
  {
    Masked(ShiftRight(word, LaneShift(big, addr, size)), size)
  }

  function Low(v: int): Word {
    v % 0x1_0000_0000
  }

  function High(v: int): Word
    requires 0 <= v < 0x1_0000_0000_0000_0000
  {
    v / 0x1_0000_0000
  }

  lemma {:induction false} LowHigh(v: int)
    requires 0 <= v < 0x1_0000_0000_0000_0000
    ensures High(v) * 0x1_0000_0000 + Low(v) == v
    ensures v < 0x1_0000_0000 ==> Low(v) == v
    ensures Low(v) % WINDOW == v % WINDOW && Low(v) % 4 == v % 4
  {
  }

  /** The scalar is right-justified: no bit above its size is set. */
  predicate Fits(size: Size, value: int) {
    0 <= value < match size
                 case Size8 => 0x100
                 case Size16 => 0x1_0000
                 case Size32 => 0x1_0000_0000
                 case Size64 => 0x1_0000_0000_0000_0000
  }

  /** Byte `j` of a scalar as it lies in memory or in a buffer. */
  function ScalarByte(big: bool, size: Size, value: int, j: int): Byte
    requires Fits(size, value) && 0 <= j < Bytes(size)
  {
    var i := if big then Bytes(size) - 1 - j else j;
    if i < 4 then Lane(Low(value), i) else Lane(High(value), i - 4)
  }

  function BytesOf(big: bool, size: Size, value: int): (s: seq<Byte>)
    requires Fits(size, value)
    ensures |s| == Bytes(size) && forall j :: 0 <= j < |s| ==> s[j] == ScalarByte(big, size, value, j)
  {
    seq(Bytes(size), j requires 0 <= j < Bytes(size) => ScalarByte(big, size, value, j))
  }

  lemma {:induction false} ScalarFits(big: bool, addr: int, size: Size, word: Word)
    requires size != Size64 && addr % Bytes(size) == 0
    ensures Fits(size, Scalar(big, addr, size, word))
  {
  }

  /** Byte `j` of a scalar of at most 32 bits. */
  lemma {:induction false} SmallByte(big: bool, size: Size, value: int, j: int)
    requires Fits(size, value) && size != Size64 && 0 <= j < Bytes(size)
    ensures 0 <= value < 0x1_0000_0000 &&
            ScalarByte(big, size, value, j) == Lane(value, if big then Bytes(size) - 1 - j else j)
  {
  }

  /** Reading a scalar and storing it moves each byte from its lane to its place. */
  lemma {:induction false} ScalarBytes(big: bool, addr: int, size: Size, word: Word, j: int)
    requires size != Size64 && addr % Bytes(size) == 0 && 0 <= j < Bytes(size)
    ensures Fits(size, Scalar(big, addr, size, word))
    ensures ScalarByte(big, size, Scalar(big, addr, size, word), j) == Lane(word, LaneOf(big, addr + j))
  {
    ScalarFits(big, addr, size, word);
    SmallByte(big, size, Scalar(big, addr, size, word), j);
    match size
    case Size8 => ByteLane(word, LaneOf(big, addr));
    case Size16 => HalfWordBytes(big, addr, word, j);
    case Size32 =>
      assert addr % 4 == 0 && (addr + j) % 4 == j;
  }

  lemma {:induction false} HalfWordBytes(big: bool, addr: int, word: Word, j: int)
    requires addr % 2 == 0 && 0 <= j < 2
    ensures Lane(Scalar(big, addr, Size16, word), if big then 1 - j else j) == Lane(word, LaneOf(big, addr + j))
  {
    hide Lane, LaneOf, LaneShift, ShiftRight, Masked;
    HalfWordPlace(big, addr, j);
    HalfWordLane(word, LaneShift(big, addr, Size16), if big then 1 - j else j);
  }

  lemma {:induction false} HalfWordPlace(big: bool, addr: int, j: int)
    requires addr % 2 == 0 && 0 <= j < 2
    ensures var lane := LaneShift(big, addr, Size16);
            (lane == 0 || lane == 2) && LaneOf(big, addr + j) == lane + (if big then 1 - j else j)
  {
    assert addr % 4 == 0 || addr % 4 == 2;
  }

  lemma {:induction false} HalfWordLane(word: Word, lane: int, i: int)
    requires (lane == 0 || lane == 2) && (i == 0 || i == 1)
    ensures Lane(Masked(ShiftRight(word, lane), Size16), i) == Lane(word, lane + i)
  {
    HalfWordLanes(word);
  }

  lemma {:induction false} ByteLane(w: Word, lane: int)
    requires 0 <= lane < 4
    ensures Lane(Masked(ShiftRight(w, lane), Size8), 0) == Lane(w, lane)
  {
  }

  lemma {:induction false} HalfWordLanes(w: Word)
    ensures w % 0x1_0000 % 0x100 == w % 0x100
    ensures w % 0x1_0000 / 0x100 % 0x100 == w / 0x100 % 0x100
    ensures w / 0x1_0000 % 0x1_0000 % 0x100 == w / 0x1_0000 % 0x100
    ensures w / 0x1_0000 % 0x1_0000 / 0x100 % 0x100 == w / 0x100_0000 % 0x100
  {
    var low, high := w % 0x1_0000, w / 0x1_0000;
    assert w == high * 0x1_0000 + low;
    assert high == high / 0x100 * 0x100 + high % 0x100;
    assert w / 0x100_0000 == high / 0x100;
    assert w / 0x100 == high * 0x100 + low / 0x100;
  }

  function FromLanes(b0: int, b1: int, b2: int, b3: int): int {
    b0 + b1 * 0x100 + b2 * 0x1_0000 + b3 * 0x100_0000
  }

  /** The bytes of a scalar, as a number. */
  function Packed(big: bool, size: Size, src: seq<Byte>): (r: Word)
    requires |src| == Bytes(size) && size != Size64
    ensures Fits(size, r)
  {
    match size
    case Size8 => src[0]
    case Size16 => if big then FromLanes(src[1], src[0], 0, 0) else FromLanes(src[0], src[1], 0, 0)
    case Size32 =>
      if big then FromLanes(src[3], src[2], src[1], src[0]) else FromLanes(src[0], src[1], src[2], src[3])
  }

  /** A scalar in the lanes of its address. */
  function InPlace(big: bool, addr: int, size: Size, value: int): Word
    requires Fits(size, value) && size != Size64 && addr % Bytes(size) == 0
  {
    var lane := LaneShift(big, addr, size);
    if lane == 0 then value
    else if lane == 1 then value * 0x100
    else if lane == 2 then value * 0x1_0000
    else value * 0x100_0000
  }

  /** The data word that writes `src` at `addr`. */
  function WriteWord(big: bool, addr: int, size: Size, src: seq<Byte>): Word
    requires |src| == Bytes(size) && size != Size64 && addr % Bytes(size) == 0
  {
    InPlace(big, addr, size, Packed(big, size, src))
  }

  /** A scalar and its bytes determine each other. */
  lemma {:induction false} PackedBytes(big: bool, size: Size, value: int)
    requires Fits(size, value) && size != Size64
    ensures Packed(big, size, BytesOf(big, size, value)) == value
  {
    hide ScalarByte, Lane;
    SmallByte(big, size, value, 0);
    SmallByte(big, size, value, Bytes(size) - 1);
    match size
    case Size8 => NarrowLanes(value);
    case Size16 => NarrowLanes(value);
    case Size32 =>
      SmallByte(big, size, value, 1);
      SmallByte(big, size, value, 2);
      AllLanes(value);
  }

  lemma {:induction false} NarrowLanes(w: Word)
    requires w < 0x1_0000
    ensures w < 0x100 ==> Lane(w, 0) == w
    ensures FromLanes(Lane(w, 0), Lane(w, 1), 0, 0) == w
  {
    assert Lane(w, 2) == 0 && Lane(w, 3) == 0;
    hide Lane;
    AllLanes(w);
  }

  lemma {:induction false} AllLanes(w: Word)
    ensures FromLanes(Lane(w, 0), Lane(w, 1), Lane(w, 2), Lane(w, 3)) == w
  {
    assert w == w % 0x100 + 0x100 * (w / 0x100);
    assert w / 0x100 == w / 0x100 % 0x100 + 0x100 * (w / 0x1_0000);
    assert w / 0x1_0000 == w / 0x1_0000 % 0x100 + 0x100 * (w / 0x100_0000);
  }

  /** Every byte of a write travels in the lane of its own address. */
  lemma {:induction false} WriteLanes(big: bool, addr: int, size: Size, src: seq<Byte>, j: int)
    requires |src| == Bytes(size) && size != Size64 && addr % Bytes(size) == 0 && 0 <= j < Bytes(size)
    ensures Lane(WriteWord(big, addr, size, src), LaneOf(big, addr + j)) == src[j]
  {
    match size
    case Size8 => ByteWriteLane(src[0], LaneOf(big, addr));
    case Size16 => HalfWordWriteLanes(big, addr, src, j);
    case Size32 =>
      assert addr % 4 == 0 && (addr + j) % 4 == j;
      FourLanes(if big then src[3] else src[0], if big then src[2] else src[1],
                if big then src[1] else src[2], if big then src[0] else src[3]);
  }

  lemma {:induction false} ByteWriteLane(b: Byte, lane: int)
    requires 0 <= lane < 4
    ensures Lane(if lane == 0 then b else if lane == 1 then b * 0x100 else if lane == 2 then b * 0x1_0000
                 else b * 0x100_0000, lane) == b
  {
  }

  lemma {:induction false} FourLanes(b0: Byte, b1: Byte, b2: Byte, b3: Byte)
    ensures var w := FromLanes(b0, b1, b2, b3);
            && 0 <= w < 0x1_0000_0000
            && Lane(w, 0) == b0 && Lane(w, 1) == b1 && Lane(w, 2) == b2 && Lane(w, 3) == b3
  {
    var w := FromLanes(b0, b1, b2, b3);
    assert w == b0 + 0x100 * (b1 + b2 * 0x100 + b3 * 0x1_0000);
    assert w / 0x100 == b1 + 0x100 * (b2 + b3 * 0x100);
    assert w / 0x1_0000 == b2 + 0x100 * b3;
  }

  lemma {:induction false} HalfWordWriteLanes(big: bool, addr: int, src: seq<Byte>, j: int)
    requires |src| == 2 && addr % 2 == 0 && 0 <= j < 2
    ensures Lane(WriteWord(big, addr, Size16, src), LaneOf(big, addr + j)) == src[j]
  {
    var lane := LaneShift(big, addr, Size16);
    var low, high := if big then src[1] else src[0], if big then src[0] else src[1];
    assert lane == 0 || lane == 2;
    assert LaneOf(big, addr + j) == lane + (if big then 1 - j else j);
    if lane == 0 {
      FourLanes(low, high, 0, 0);
    } else {
      FourLanes(0, 0, low, high);
    }
  }

  // ----- Segments -----

  const WINDOW := 0x400

  datatype Segment = Segment(offset: nat, address: nat, size: Size, count: nat, inc: bool)

  function Extent(s: Segment): nat {
    Bytes(s.size) * s.count
  }

  /** A segment of a block at `addr`: aligned, and either one narrow access or a run of
      words that does not leave its increment window. */
  predicate Proper(s: Segment, addr: nat) {
    && s.address == addr + s.offset && s.count > 0 && s.size != Size64
    && s.address % Bytes(s.size) == 0
    && (if s.inc then s.size == Size32 && s.address % WINDOW + 4 * s.count <= WINDOW
        else s.count == 1 && s.size != Size32)
  }

  /** Words written in one transaction. */
  const CHUNK_WORDS := 64

  /** No chunk of the segment writes a value on its own. */
  predicate Grouped(s: Segment) {
    s.inc && s.count % CHUNK_WORDS != 1
  }

  /** Where a chunk of the segment starts. */
  predicate ChunkStart(s: Segment, first: nat) {
    first == 0 || first >= s.count || (s.inc && first % CHUNK_WORDS == 0)
  }

  /** The values of the chunk that starts there. */
  function ChunkCount(s: Segment, first: nat): (n: nat)
    requires first < s.count
    ensures 0 < n <= s.count - first && (if s.inc then n <= CHUNK_WORDS else n == 1)
  {
    var limit := if s.inc then CHUNK_WORDS else 1;
    if s.count - first < limit then s.count - first else limit
  }

  lemma {:induction false} ChunkSteps(s: Segment, first: nat)
    requires first < s.count && ChunkStart(s, first) && (!s.inc ==> s.count == 1)
    ensures ChunkStart(s, first + ChunkCount(s, first)) && (Grouped(s) ==> ChunkCount(s, first) > 1)
  {
    if s.inc {
      assert (first + 1) % CHUNK_WORDS == 1;
    }
  }

  /** Words from `addr` on, window by window, none of them alone in its chunk. */
  predicate WordsInPairs(addr: nat, words: nat)
    decreases words
  {
    var room := (WINDOW - addr % WINDOW) / 4;
    var n := if words < room then words else room;
    words == 0 || n == 0 || (n % CHUNK_WORDS != 1 && WordsInPairs(addr + 4 * n, words - n))
  }

  /** A block all of whose chunks write at least two values. */
  predicate InPairs(addr: nat, length: nat) {
    length == 0 || (addr % 4 == 0 && length % 4 == 0 && WordsInPairs(addr, length / 4))
  }

  /** The segments cover offsets 0 to `end` without gap or overlap, in order. */
  ghost predicate Tiles(segments: seq<Segment>, addr: nat, end: nat) {
    && (segments == [] ==> end == 0)
    && (segments != [] ==>
          && segments[0].offset == 0
          && segments[|segments| - 1].offset + Extent(segments[|segments| - 1]) == end)
    && (forall i :: 0 <= i < |segments| ==> Proper(segments[i], addr))
    && (forall i :: 0 <= i < |segments| - 1 ==> segments[i + 1].offset == segments[i].offset + Extent(segments[i]))
  }

  lemma {:induction false} TilesMore(segments: seq<Segment>, addr: nat, end: nat, s: Segment)
    requires Tiles(segments, addr, end) && Proper(s, addr) && s.offset == end
    ensures Tiles(segments + [s], addr, end + Extent(s))
  {
    hide Proper, Extent;
  }

  /** Each segment starts where the part before it ends. */
  lemma {:induction false} TilesPart(segments: seq<Segment>, addr: nat, end: nat, i: nat)
    requires Tiles(segments, addr, end) && i < |segments|
    ensures Proper(segments[i], addr) && segments[i].offset + Extent(segments[i]) <= end
    ensures i == 0 ==> segments[i].offset == 0
    ensures i + 1 == |segments| ==> segments[i].offset + Extent(segments[i]) == end
    ensures i + 1 < |segments| ==> segments[i + 1].offset == segments[i].offset + Extent(segments[i])
    decreases |segments| - i
  {
    hide Proper, Extent;
    if i + 1 < |segments| {
      TilesPart(segments, addr, end, i + 1);
    }
  }

  /** The widest narrow access that fits at `addr` within `left` bytes. */
  function EdgeSize(addr: nat, left: nat): Size {
    if addr % 2 == 0 && left >= 2 then Size16 else Size8
  }

  function Edge(addr: nat, offset: nat, left: nat): Segment {
    Segment(offset, addr + offset, EdgeSize(addr + offset, left), 1, false)
  }

  /** Words up to the end of the increment window of `addr + offset`. */
  function WordRun(addr: nat, offset: nat, words: nat): Segment
    requires (addr + offset) % 4 == 0
  {
    var room := (WINDOW - (addr + offset) % WINDOW) / 4;
    Segment(offset, addr + offset, Size32, if words < room then words else room, true)
  }

  lemma {:induction false} EdgeProper(addr: nat, offset: nat, left: nat)
    requires left > 0
    ensures Proper(Edge(addr, offset, left), addr) && 0 < Extent(Edge(addr, offset, left)) <= left
  {
  }

  lemma {:induction false} WordRunProper(addr: nat, offset: nat, words: nat)
    requires (addr + offset) % 4 == 0 && words > 0
    ensures var s := WordRun(addr, offset, words);
            Proper(s, addr) && 0 < s.count <= words && Extent(s) == 4 * s.count && (addr + offset + Extent(s)) % 4 == 0
  {
    var within := (addr + offset) % WINDOW;
    assert within % 4 == 0;
  }

  /** Splits a block into an unaligned head, runs of words within increment windows, and
      a tail. */
  method BlockSegments(addr: nat, length: nat) returns (segments: seq<Segment>)
    ensures Tiles(segments, addr, length)
    ensures InPairs(addr, length) <==> AllGrouped(segments)
  {
    hide Tiles, Edge, WordRun, Extent, Proper, Grouped, WordsInPairs, AllGrouped;
    segments := [];
    var offset: nat := 0;
    TilesNone(addr);
    NoneGrouped();
    while offset < length && (addr + offset) % 4 != 0
      invariant offset <= length && Tiles(segments, addr, offset)
      invariant if offset == 0 then segments == [] else addr % 4 != 0 && !AllGrouped(segments)
    {
      var s := Edge(addr, offset, length - offset);
      EdgeProper(addr, offset, length - offset);
      EdgeAt(addr, offset, length - offset);
      TilesMore(segments, addr, offset, s);
      GroupedMore(segments, s);
      segments, offset := segments + [s], offset + Extent(s);
    }
    var words := (length - offset) / 4;
    ghost var head, all := offset, words;
    while words > 0
      invariant 0 <= words <= all && offset == head + 4 * (all - words) && Tiles(segments, addr, offset)
      invariant words > 0 ==> (addr + offset) % 4 == 0
      invariant head > 0 ==> !AllGrouped(segments)
      invariant head == 0 ==> (WordsInPairs(addr, all) <==> AllGrouped(segments) && WordsInPairs(addr + offset, words))
      decreases words
    {
      var s := WordRun(addr, offset, words);
      WordRunProper(addr, offset, words);
      WordRunAt(addr, offset, words);
      WordRunPairs(addr, offset, words);
      TilesMore(segments, addr, offset, s);
      GroupedMore(segments, s);
      segments, offset, words := segments + [s], offset + Extent(s), words - s.count;
    }
    NoWords(addr + offset);
    ghost var end := offset;
    while offset < length
      invariant offset <= length && Tiles(segments, addr, offset) && end <= offset
      invariant if offset > end || head > 0 then !AllGrouped(segments)
                else WordsInPairs(addr, all) <==> AllGrouped(segments)
    {
      var s := Edge(addr, offset, length - offset);
      EdgeProper(addr, offset, length - offset);
      EdgeAt(addr, offset, length - offset);
      TilesMore(segments, addr, offset, s);
      GroupedMore(segments, s);
      segments, offset := segments + [s], offset + Extent(s);
    }
  }

  ghost predicate AllGrouped(segments: seq<Segment>) {
    forall i :: 0 <= i < |segments| ==> Grouped(segments[i])
  }

  lemma {:induction false} NoneGrouped()
    ensures AllGrouped([])
  {
  }

  lemma {:induction false} GroupedMore(segments: seq<Segment>, s: Segment)
    ensures AllGrouped(segments + [s]) <==> AllGrouped(segments) && Grouped(s)
  {
    hide Grouped;
    var more := segments + [s];
    assert more[|segments|] == s;
    if AllGrouped(more) {
      forall i | 0 <= i < |segments|
        ensures Grouped(segments[i])
      {
        assert more[i] == segments[i];
      }
    }
  }

  /** The chunks of the next run of words, and of the words after it. */
  lemma {:induction false} WordRunPairs(addr: nat, offset: nat, words: nat)
    requires words > 0 && (addr + offset) % 4 == 0
    ensures var s := WordRun(addr, offset, words);
            && 0 < s.count <= words && Extent(s) == 4 * s.count
            && (WordsInPairs(addr + offset, words) <==>
                  Grouped(s) && WordsInPairs(addr + offset + Extent(s), words - s.count))
  {
    WordRunProper(addr, offset, words);
  }

  lemma {:induction false} NoWords(addr: nat)
    ensures WordsInPairs(addr, 0)
  {
  }

  lemma {:induction false} EdgeAt(addr: nat, offset: nat, left: nat)
    ensures Edge(addr, offset, left).offset == offset && !Grouped(Edge(addr, offset, left))
  {
  }

  lemma {:induction false} WordRunAt(addr: nat, offset: nat, words: nat)
    requires (addr + offset) % 4 == 0
    ensures WordRun(addr, offset, words).offset == offset
  {
  }

  lemma {:induction false} TilesNone(addr: nat)
    ensures Tiles([], addr, 0)
  {
  }
}
