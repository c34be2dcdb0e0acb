/** SWD frames of 54 bits: printed by the host, parsed by the target, and back. */
module SwdFrame {
  import opened Options
  import opened Words
  import opened Bits
  import opened Rows
  import opened Packing
  import opened SwdTarget

  const FRAME_BITS := 54

  // ----- Parity -----

  /** Whether an odd number of the first `n` bits is set. */
  function Odd(s: seq<bool>, n: nat): bool
    requires n <= |s|
  {
    if n == 0 then false else Odd(s, n - 1) != s[n - 1]
  }

  function OddValue(v: nat): bool {
    if v == 0 then false else (v % 2 == 1) != OddValue(v / 2)
  }

  lemma {:induction false} OddFirst(s: seq<bool>, n: nat)
    requires 0 < n <= |s|
    ensures Odd(s, n) == (s[0] != Odd(s[1..], n - 1))
  {
    if n > 1 {
      OddFirst(s, n - 1);
    }
  }

  lemma {:induction false} OddBits(v: nat, n: nat)
    requires v < Pow2(n)
    ensures OddValue(v) == Odd(BitsOf(v, n), n)
  {
    if n > 0 {
      OddBits(v / 2, n - 1);
      OddFirst(BitsOf(v, n), n);
      assert BitsOf(v, n)[1..] == BitsOf(v / 2, n - 1);
    }
  }

  /** The host counts bit by bit. */
  method Parity(value: Word) returns (parity: bool)
    ensures parity == OddValue(value)
  {
    parity := false;
    var v: nat := value;
    while v != 0
      invariant (parity != OddValue(v)) == OddValue(value)
      decreases v
    {
      parity := parity != (v % 2 == 1);
      v := v / 2;
    }
  }

  /** The target folds the word onto itself. */
  function Fold(s: seq<bool>, k: nat): (r: seq<bool>)
    ensures |r| == |s|
  {
    seq(|s|, i requires 0 <= i < |s| => s[i] != (i + k < |s| && s[i + k]))
  }

  function FoldedParity(s: seq<bool>): bool
    requires |s| == 32
  {
    Fold(Fold(Fold(Fold(Fold(s, 16), 8), 4), 2), 1)[0]
  }

  /** Folding by `k` keeps the parity of the first `2 * k` bits in the first `k`. */
  lemma {:induction false} FoldHalf(s: seq<bool>, k: nat, n: nat)
    requires 2 * k <= |s| && n <= k
    ensures Odd(Fold(s, k), n) == (Odd(s, n) != (Odd(s, k + n) != Odd(s, k)))
  {
    if n > 0 {
      FoldHalf(s, k, n - 1);
    }
  }

  lemma {:induction false} FoldStep(s: seq<bool>, k: nat)
    requires 2 * k <= |s|
    ensures Odd(Fold(s, k), k) == Odd(s, 2 * k)
  {
    FoldHalf(s, k, k);
  }

  /** Both ways of computing parity agree. */
  lemma {:induction false} FoldedIsOdd(s: seq<bool>)
    requires |s| == 32
    ensures FoldedParity(s) == Odd(s, 32)
  {
    hide Fold;
    var a := Fold(s, 16);
    var b := Fold(a, 8);
    var c := Fold(b, 4);
    var d := Fold(c, 2);
    FoldStep(s, 16);
    FoldStep(a, 8);
    FoldStep(b, 4);
    FoldStep(c, 2);
    FoldStep(d, 1);
    assert Odd(Fold(d, 1), 1) == (Odd(Fold(d, 1), 0) != Fold(d, 1)[0]);
  }

  // ----- Printing a frame -----

  predicate ValidRequest(r: Req) {
    r.addr == 0 || r.addr == 4 || r.addr == 8 || r.addr == 12
  }

  function Fields(r: Req): nat
    requires ValidRequest(r)
  {
    r.addr + Bit(r.ap) + 2 * Bit(r.read)
  }

  /** Start, four fields, their parity, stop and park. */
  function RequestByte(r: Req): nat
    requires ValidRequest(r)
  {
    0x81 + 2 * Fields(r) + if OddValue(Fields(r)) then 0x20 else 0
  }

  function Header(r: Req): seq<bool>
    requires ValidRequest(r)
  {
    [true, r.ap, r.read, r.addr / 4 % 2 == 1, r.addr / 8 == 1,
     ((r.ap != r.read) != (r.addr / 4 % 2 == 1)) != (r.addr / 8 == 1), false, true]
  }

  lemma {:induction false} OddFields(r: Req)
    requires ValidRequest(r)
    ensures OddValue(Fields(r)) == (((r.ap != r.read) != (r.addr / 4 % 2 == 1)) != (r.addr / 8 == 1))
  {
    var f := Fields(r);
    assert OddValue(f) == ((f % 2 == 1) != OddValue(f / 2));
    assert OddValue(f / 2) == if f / 2 == 0 then false else (f / 2 % 2 == 1) != OddValue(f / 4);
    assert OddValue(f / 4) == if f / 4 == 0 then false else (f / 4 % 2 == 1) != OddValue(f / 8);
  }

  lemma {:induction false} HeaderBits(r: Req)
    requires ValidRequest(r)
    ensures BitsOf(RequestByte(r), 8) == Header(r)
  {
    hide BitsOf, Value, OddValue, Pow2;
    OddFields(r);
    EightBits(Header(r));
    BitsOfValue(Header(r));
  }

  lemma {:induction false} EightBits(s: seq<bool>)
    requires |s| == 8
    ensures Value(s) == Bit(s[0]) + 2 * Bit(s[1]) + 4 * Bit(s[2]) + 8 * Bit(s[3]) +
                        16 * Bit(s[4]) + 32 * Bit(s[5]) + 64 * Bit(s[6]) + 128 * Bit(s[7])
  {
    hide Value, Pow2, Bit;
    FourBits(s, 0);
    FourBits(s, 4);
    NoBits(s);
    assert s[0..] == s;
  }

  lemma {:induction false} FourBits(s: seq<bool>, i: nat)
    requires i + 4 <= |s|
    ensures Value(s[i..]) == Bit(s[i]) + 2 * Bit(s[i + 1]) + 4 * Bit(s[i + 2]) + 8 * Bit(s[i + 3]) +
            16 * Value(s[i + 4..])
  {
    hide Value, Pow2, Bit;
    LowBit(s, i);
    LowBit(s, i + 1);
    LowBit(s, i + 2);
    LowBit(s, i + 3);
  }

  lemma {:induction false} LowBit(s: seq<bool>, i: nat)
    requires i < |s|
    ensures Value(s[i..]) == Bit(s[i]) + 2 * Value(s[i + 1..])
  {
    hide Value, Pow2, Bit;
    assert s[i..] == [s[i]] + s[i + 1..];
    ValueCons(s[i], s[i + 1..]);
  }

  lemma {:induction false} NoBits(s: seq<bool>)
    ensures Value(s[|s|..]) == 0
  {
  }

  /** Which bits the host drives. */
  function FrameDirections(read: bool): (s: seq<bool>)
    ensures |s| == FRAME_BITS
  {
    if read then Ones(8) + Zeros(38) + Ones(8) else Ones(8) + Zeros(5) + Ones(41)
  }

  function FrameOutputs(f: Frame): (s: seq<bool>)
    requires ValidRequest(f.req)
    ensures |s| == FRAME_BITS
  {
    if f.req.read then Header(f.req) + Zeros(46)
    else Header(f.req) + Zeros(5) + BitsOf(f.data, 32) + [Odd(BitsOf(f.data, 32), 32)] + Zeros(8)
  }

  lemma {:induction false} Filled(n: nat)
    ensures seq(n, _ => true) == Ones(n) && seq(n, _ => false) == Zeros(n)
  {
  }

  lemma {:induction false} ReadShape(dirs: seq<bool>, outs: seq<bool>, header: seq<bool>)
    ensures dirs + Ones(8) + Zeros(4) + Zeros(34) + Ones(8) == dirs + (Ones(8) + Zeros(38) + Ones(8))
    ensures outs + header + Zeros(4) + Zeros(34) + Zeros(8) == outs + (header + Zeros(46))
  {
    assert Zeros(4) + Zeros(34) == Zeros(38) && Zeros(38) + Zeros(8) == Zeros(46);
  }

  lemma {:induction false} WriteShape(dirs: seq<bool>, outs: seq<bool>, header: seq<bool>, data: seq<bool>,
                                      parity: bool)
    ensures dirs + Ones(8) + Zeros(4) + Zeros(1) + Ones(32) + [true] + Ones(8) == dirs + (Ones(8) + Zeros(5) + Ones(41))
    ensures outs + header + Zeros(4) + Zeros(1) + data + [parity] + Zeros(8) ==
            outs + (header + Zeros(5) + data + [parity] + Zeros(8))
  {
    assert Zeros(4) + Zeros(1) == Zeros(5) && Ones(32) + [true] + Ones(8) == Ones(41);
  }

  /** Appends one frame to the stream. */
  method PrintFrame(stream: Sequence, f: Frame)
    requires stream.Valid() && ValidRequest(f.req)
    modifies stream
    ensures stream.Valid()
    ensures stream.Directions() == old(stream.Directions()) + FrameDirections(f.req.read)
    ensures stream.Outputs() == old(stream.Outputs()) + FrameOutputs(f)
  {
    hide BitsOf, OddValue, Odd, Pow2, View, BitAt, Header, Ones, Zeros, RequestByte, Sequence.Directions,
         Sequence.Outputs;
    HeaderBits(f.req);
    ghost var dirs, outs := stream.Directions(), stream.Outputs();
    Filled(8);
    Filled(4);
    Filled(34);
    Filled(1);
    Filled(32);
    stream.AppendBits(true, BitsOf(RequestByte(f.req), 8));
    stream.AppendN(1 + 3, false, false);
    if f.req.read {
      stream.AppendN(33 + 1, false, false);
      stream.AppendN(8, true, false);
      ReadShape(dirs, outs, Header(f.req));
    } else {
      stream.AppendN(1, false, false);
      stream.AppendBits(true, BitsOf(f.data, 32));
      var parity := Parity(f.data);
      Pow32();
      OddBits(f.data, 32);
      stream.Append(true, parity);
      stream.AppendN(8, true, false);
      WriteShape(dirs, outs, Header(f.req), BitsOf(f.data, 32), parity);
    }
  }

  // ----- Parsing it -----

  predicate All(s: seq<bool>, value: bool) {
    forall i :: 0 <= i < |s| ==> s[i] == value
  }

  function DecodeRequest(h: seq<bool>): Option<Req>
    requires |h| == 8
  {
    if !h[0] || h[6] || !h[7] || h[5] != (((h[1] != h[2]) != h[3]) != h[4]) then None
    else Some(Req(h[1], h[2], 4 * Bit(h[3]) + 8 * Bit(h[4])))
  }

  predicate DirectionsFor(read: bool, dir: seq<bool>)
    requires |dir| == FRAME_BITS
  {
    if read then All(dir[12..46], false) && All(dir[46..54], true) else !dir[12] && All(dir[13..54], true)
  }

  /** What the target makes of one frame. */
  function Parsed(dir: seq<bool>, out: seq<bool>): Option<Frame>
    requires |dir| == |out| == FRAME_BITS
  {
    if !All(dir[..8], true) || !All(dir[8..12], false) then None
    else
      var req := DecodeRequest(out[..8]);
      if req.None? || !DirectionsFor(req.value.read, dir) || !All(out[46..54], false) then None
      else if req.value.read then Some(Frame(req.value, 0))
      else if out[45] != FoldedParity(out[13..45]) then None
      else Some(Frame(req.value, Word32(out[13..45])))
  }

  function Word32(s: seq<bool>): Word
    requires |s| == 32
  {
    Pow32();
    Value(s)
  }

  /** What a frame asks for. */
  function Asked(f: Frame): Frame {
    if f.req.read then f.(data := 0) else f
  }

  lemma {:induction false} HeaderParses(r: Req)
    requires ValidRequest(r)
    ensures DecodeRequest(Header(r)) == Some(r)
  {
  }

  lemma {:induction false} DirectionsParse(read: bool)
    ensures var dir := FrameDirections(read);
            All(dir[..8], true) && All(dir[8..12], false) && DirectionsFor(read, dir)
  {
  }

  /** Parsing undoes printing. */
  lemma {:induction false} ParsePrint(f: Frame)
    requires ValidRequest(f.req)
    ensures Parsed(FrameDirections(f.req.read), FrameOutputs(f)) == Some(Asked(f))
  {
    hide FrameDirections, Header, BitsOf, Value, Pow2, Odd, FoldedParity, DirectionsFor, DecodeRequest, OddValue;
    DirectionsParse(f.req.read);
    HeaderParses(f.req);
    var out := FrameOutputs(f);
    assert out[..8] == Header(f.req);
    if !f.req.read {
      var data := BitsOf(f.data, 32);
      assert out[13..45] == data;
      FoldedIsOdd(data);
      Pow32();
      ValueOfBits(f.data, 32);
    }
  }

  function DirectionParts(fs: seq<Frame>): (p: seq<seq<bool>>)
    ensures |p| == |fs| && forall i :: 0 <= i < |p| ==> p[i] == FrameDirections(fs[i].req.read)
  {
    seq(|fs|, i requires 0 <= i < |fs| => FrameDirections(fs[i].req.read))
  }

  function OutputParts(fs: seq<Frame>): (p: seq<seq<bool>>)
    requires forall i :: 0 <= i < |fs| ==> ValidRequest(fs[i].req)
    ensures |p| == |fs| && forall i :: 0 <= i < |p| ==> p[i] == FrameOutputs(fs[i])
  {
    seq(|fs|, i requires 0 <= i < |fs| => FrameOutputs(fs[i]))
  }

  /** Packs frames one after the other. */
  method PrintAll(fs: seq<Frame>) returns (stream: Sequence)
    requires forall i :: 0 <= i < |fs| ==> ValidRequest(fs[i].req)
    ensures fresh(stream) && stream.Valid()
    ensures stream.Directions() == Flat(DirectionParts(fs), |fs|) && stream.Outputs() == Flat(OutputParts(fs), |fs|)
  {
    hide FrameDirections, FrameOutputs, ValidRequest, View, BitAt;
    stream := new Sequence();
    for i := 0 to |fs|
      invariant stream.Valid() && fresh(stream)
      invariant stream.Directions() == Flat(DirectionParts(fs), i) && stream.Outputs() == Flat(OutputParts(fs), i)
    {
      PrintFrame(stream, fs[i]);
    }
  }

  /** At every 54-bit offset the target finds the frame that was packed there. */
  lemma {:induction false} StreamParses(fs: seq<Frame>, i: nat)
    requires i < |fs| && forall k :: 0 <= k < |fs| ==> ValidRequest(fs[k].req)
    ensures var dirs, outs, at := Flat(DirectionParts(fs), |fs|), Flat(OutputParts(fs), |fs|), FRAME_BITS * i;
            && at + FRAME_BITS <= |dirs| == |outs| == FRAME_BITS * |fs|
            && Parsed(dirs[at..at + FRAME_BITS], outs[at..at + FRAME_BITS]) == Some(Asked(fs[i]))
  {
    hide FrameDirections, FrameOutputs, ValidRequest, Parsed, Flat;
    Slot(DirectionParts(fs), FRAME_BITS, i);
    Slot(OutputParts(fs), FRAME_BITS, i);
    ParsePrint(fs[i]);
  }

  // ----- Answers -----

  /** An answer, with the data that comes with bad parity. */
  datatype Answer = Answer(reply: Reply, noise: Word)

  function AckBits(r: Reply): (s: seq<bool>)
    ensures |s| == 3
  {
    match r
    case Done(_) => [true, false, false]
    case BadParity => [true, false, false]
    case Waited => [false, true, false]
    case Faulted => [false, false, true]
  }

  function AnswerBits(read: bool, a: Answer): (s: seq<bool>)
    ensures |s| == FRAME_BITS
  {
    if Accepts(a.reply) && read then
      var value := if a.reply.Done? then a.reply.value else a.noise;
      Zeros(9) + AckBits(a.reply) + BitsOf(value, 32) + [Odd(BitsOf(value, 32), 32) != a.reply.BadParity?] + Zeros(9)
    else Zeros(9) + AckBits(a.reply) + Zeros(42)
  }

  datatype Received = Data(value: Word) | GotWait | GotFault | BadData | BadAck

  /** What the host should make of it. */
  function Expected(read: bool, a: Answer): Received {
    match a.reply
    case Done(value) => Data(if read then value else 0)
    case BadParity => if read then BadData else Data(0)
    case Waited => GotWait
    case Faulted => GotFault
  }

  /** What the host makes of 54 bits. */
  function Decoded(read: bool, s: seq<bool>): Received
    requires |s| == FRAME_BITS
  {
    var ack := s[9..12];
    if ack == [false, true, false] then GotWait
    else if ack == [false, false, true] then GotFault
    else if ack != [true, false, false] then BadAck
    else if !read then Data(0)
    else if s[44] != Odd(s[12..44], 32) then BadData
    else Data(Word32(s[12..44]))
  }

  /** Decoding recovers every answer. */
  lemma {:induction false} DecodeAnswer(read: bool, a: Answer)
    ensures Decoded(read, AnswerBits(read, a)) == Expected(read, a)
  {
    hide BitsOf, Value, Pow2, Odd;
    var s := AnswerBits(read, a);
    assert s[9..12] == AckBits(a.reply);
    if Accepts(a.reply) && read {
      var value := if a.reply.Done? then a.reply.value else a.noise;
      assert s[12..44] == BitsOf(value, 32);
      Pow32();
      ValueOfBits(value, 32);
    }
  }

  function ReadAck(s: seq<bool>): nat
    requires |s| == 3
  {
    Bit(s[0]) + 2 * Bit(s[1]) + 4 * Bit(s[2])
  }

  /** Decodes the frame at `offset` of a packed buffer. */
  method DecodeFixedFrame(input: seq<Byte>, offset: nat, read: bool) returns (r: Received)
    requires offset + FRAME_BITS <= 8 * |input|
    ensures r == Decoded(read, View(input, offset + FRAME_BITS)[offset..])
  {
    hide BitAt, Value, Pow2, Odd, OddValue, BitsOf;
    ghost var s := View(input, offset + FRAME_BITS)[offset..];
    var ack := 0;
    for bit := 0 to 3
      invariant ack == (if bit > 0 then Bit(s[9]) else 0) + (if bit > 1 then 2 * Bit(s[10]) else 0) +
                (if bit > 2 then 4 * Bit(s[11]) else 0)
    {
      if BitAt(input, offset + 9 + bit) {
        ack := ack + if bit == 0 then 1 else if bit == 1 then 2 else 4;
      }
    }
    AckIs(s[9..12]);
    if ack == 2 {
      return GotWait;
    }
    if ack == 4 {
      return GotFault;
    }
    if ack != 1 {
      return BadAck;
    }
    if !read {
      return Data(0);
    }
    var value := ExtractWord(input, offset + 12);
    assert s[12..44] == View(input, offset + 44)[offset + 12..];
    var parity := Parity(value);
    Pow32();
    OddBits(value, 32);
    BitsOfValue(s[12..44]);
    if BitAt(input, offset + 44) != parity {
      return BadData;
    }
    return Data(value);
  }

  lemma {:induction false} AckIs(s: seq<bool>)
    requires |s| == 3
    ensures ReadAck(s) == 1 <==> s == [true, false, false]
    ensures ReadAck(s) == 2 <==> s == [false, true, false]
    ensures ReadAck(s) == 4 <==> s == [false, false, true]
  {
  }

  method ExtractWord(input: seq<Byte>, offset: nat) returns (value: Word)
    requires offset + 32 <= 8 * |input|
    ensures value == Word32(View(input, offset + 32)[offset..])
  {
    hide BitAt, Value, Pow2;
    ghost var s := View(input, offset + 32)[offset..];
    var v, power := 0, 1;
    Start(s);
    for bit := 0 to 32
      invariant v == Value(s[..bit]) && power == Pow2(bit)
    {
      ValueMore(s[..bit], s[bit]);
      assert s[..bit] + [s[bit]] == s[..bit + 1];
      if BitAt(input, offset + bit) {
        v := v + power;
      }
      Doubled(bit);
      power := 2 * power;
    }
    assert s[..32] == s;
    Pow32();
    value := v;
  }

  lemma {:induction false} Start(s: seq<bool>)
    ensures Value(s[..0]) == 0 && Pow2(0) == 1
  {
  }

  function AnswerParts(directions: seq<bool>, answers: seq<Answer>): (p: seq<seq<bool>>)
    requires |directions| == |answers|
    ensures |p| == |answers| && forall i :: 0 <= i < |p| ==> p[i] == AnswerBits(directions[i], answers[i])
  {
    seq(|answers|, i requires 0 <= i < |answers| => AnswerBits(directions[i], answers[i]))
  }

  /** At every 54-bit offset the host decodes the answer that was packed there. */
  lemma {:induction false} AnswersDecode(directions: seq<bool>, answers: seq<Answer>, i: nat)
    requires |directions| == |answers| && i < |answers|
    ensures var s, at := Flat(AnswerParts(directions, answers), |answers|), FRAME_BITS * i;
            && at + FRAME_BITS <= |s| == FRAME_BITS * |answers|
            && Decoded(directions[i], s[at..at + FRAME_BITS]) == Expected(directions[i], answers[i])
  {
    hide AnswerBits, Decoded, Expected, Flat;
    Slot(AnswerParts(directions, answers), FRAME_BITS, i);
    DecodeAnswer(directions[i], answers[i]);
  }

  /** Sets the bits of `values` from `offset` on. */
  method PutBits(buf: seq<Byte>, offset: nat, values: seq<bool>) returns (r: seq<Byte>)
    requires offset + |values| <= 8 * |buf| && forall i :: offset <= i < 8 * |buf| ==> !BitAt(buf, i)
    ensures |r| == |buf| && View(r, offset + |values|) == View(buf, offset) + values
    ensures forall i :: offset + |values| <= i < 8 * |r| ==> !BitAt(r, i)
  {
    hide BitAt, SetBit;
    r := buf;
    for i := 0 to |values|
      invariant |r| == |buf| && View(r, offset + i) == View(buf, offset) + values[..i]
      invariant forall j :: offset + i <= j < 8 * |r| ==> !BitAt(r, j)
    {
      ViewMore(r, offset + i, values[i]);
      r := SetBit(r, offset + i, values[i]);
    }
  }

  /** The target's answers to a packed stream, in a zeroed buffer. */
  method Respond(directions: seq<bool>, answers: seq<Answer>) returns (input: seq<Byte>)
    requires |directions| == |answers|
    ensures FRAME_BITS * |answers| <= 8 * |input|
    ensures View(input, FRAME_BITS * |answers|) == Flat(AnswerParts(directions, answers), |answers|)
  {
    hide BitAt, AnswerBits;
    var bits := FRAME_BITS * |answers|;
    input := seq((bits + 7) / 8, _ => 0);
    forall i | 0 <= i < 8 * |input|
      ensures !BitAt(input, i)
    {
      ZeroBits(i, |input|);
    }
    for i := 0 to |answers|
      invariant |input| == (bits + 7) / 8 && View(input, FRAME_BITS * i) == Flat(AnswerParts(directions, answers), i)
      invariant forall j :: FRAME_BITS * i <= j < 8 * |input| ==> !BitAt(input, j)
    {
      input := PutBits(input, FRAME_BITS * i, AnswerBits(directions[i], answers[i]));
    }
  }
}
