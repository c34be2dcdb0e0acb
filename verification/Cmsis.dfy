/** CMSIS-DAP: an SWD bit stream as DAP_SWD_Sequence packets, and the samples they return. */
module CmsisSwd {
  import opened Options
  import opened Bits
  import Rows

  const COMMAND: Octet := 0x1d

  /** One sequence of a packet: at most 64 bits in one direction. */
  datatype Descriptor = Drive(bits: seq<bool>) | Sample(count: nat)

  function Count(d: Descriptor): nat {
    if d.Drive? then |d.bits| else d.count
  }

  predicate Proper(d: Descriptor) {
    0 < Count(d) <= 64
  }

  function OctetsFor(n: nat): nat {
    (n + 7) / 8
  }

  // ----- Packing bits -----

  /** Byte `k` of packed bits. */
  function OctetAt(bits: seq<bool>, k: nat): Octet
    requires 8 * k < |bits|
  {
    var end := if 8 * k + 8 <= |bits| then 8 * k + 8 else |bits|;
    SmallValue(bits[8 * k..end]);
    Value(bits[8 * k..end])
  }

  function Octets(bits: seq<bool>): (r: seq<Octet>)
    ensures |r| == OctetsFor(|bits|) && forall k :: 0 <= k < |r| ==> r[k] == OctetAt(bits, k)
  {
    seq(OctetsFor(|bits|), k requires 0 <= k < OctetsFor(|bits|) => OctetAt(bits, k))
  }

  /** Bit `i` of packed bytes. */
  predicate BitIn(bytes: seq<Octet>, i: nat)
    requires i / 8 < |bytes|
  {
    BitsOf(bytes[i / 8], 8)[i % 8]
  }

  function Unpacked(bytes: seq<Octet>, n: nat): (s: seq<bool>)
    requires n <= 8 * |bytes|
    ensures |s| == n && forall i :: 0 <= i < n ==> s[i] == BitIn(bytes, i)
  {
    seq(n, i requires 0 <= i < n => BitIn(bytes, i))
  }

  /** Longer numbers start with the bits of shorter ones. */
  lemma {:induction false} BitsPrefix(v: nat, n: nat, m: nat)
    requires n <= m
    ensures BitsOf(v, m)[..n] == BitsOf(v, n)
  {
    if n > 0 {
      BitsPrefix(v / 2, n - 1, m - 1);
      assert BitsOf(v, m) == [v % 2 == 1] + BitsOf(v / 2, m - 1);
    }
  }

  lemma {:induction false} OctetBit(bits: seq<bool>, i: nat)
    requires i < |bits|
    ensures BitsOf(OctetAt(bits, i / 8), 8)[i % 8] == bits[i]
  {
    hide BitsOf, Value, Pow2;
    var k := i / 8;
    var end := if 8 * k + 8 <= |bits| then 8 * k + 8 else |bits|;
    var part := bits[8 * k..end];
    BitsOfValue(part);
    BitsPrefix(Value(part), |part|, 8);
    assert BitsOf(Value(part), 8)[..|part|][i % 8] == part[i % 8];
  }

  lemma {:induction false} UnpackOctets(bits: seq<bool>)
    ensures Unpacked(Octets(bits), |bits|) == bits
  {
    hide BitsOf, OctetAt;
    forall i | 0 <= i < |bits|
      ensures BitIn(Octets(bits), i) == bits[i]
    {
      OctetBit(bits, i);
    }
  }

  // ----- Requests -----

  function Info(d: Descriptor): Octet
    requires Proper(d)
  {
    Count(d) % 64 + if d.Sample? then 128 else 0
  }

  function Encoded(d: Descriptor): (r: seq<Octet>)
    requires Proper(d)
    ensures |r| == 1 + if d.Drive? then OctetsFor(Count(d)) else 0
  {
    [Info(d)] + if d.Drive? then Octets(d.bits) else []
  }

  ghost predicate AllProper(ds: seq<Descriptor>) {
    forall i :: 0 <= i < |ds| ==> Proper(ds[i])
  }

  function Payload(ds: seq<Descriptor>, n: nat): seq<Octet>
    requires n <= |ds| && forall i :: 0 <= i < |ds| ==> Proper(ds[i])
  {
    if n == 0 then [] else Payload(ds, n - 1) + Encoded(ds[n - 1])
  }

  /** What the probe reads from a payload: `n` sequences and nothing else. */
  function Parse(bytes: seq<Octet>, n: nat): Option<seq<Descriptor>>
    decreases n
  {
    if n == 0 then if bytes == [] then Some([]) else None
    else if bytes == [] then None
    else
      var count := if bytes[0] % 64 == 0 then 64 else bytes[0] % 64;
      var size := if bytes[0] / 64 >= 2 then 0 else OctetsFor(count);
      if |bytes| < 1 + size then None
      else
        var d := if bytes[0] / 64 >= 2 then Sample(count) else Drive(Unpacked(bytes[1..1 + size], count));
        var rest := Parse(bytes[1 + size..], n - 1);
        if rest.None? then None else Some([d] + rest.value)
  }

  function PayloadFrom(ds: seq<Descriptor>, i: nat): seq<Octet>
    requires i <= |ds| && forall i :: 0 <= i < |ds| ==> Proper(ds[i])
    decreases |ds| - i
  {
    if i == |ds| then [] else Encoded(ds[i]) + PayloadFrom(ds, i + 1)
  }

  lemma {:induction false} PayloadSplit(ds: seq<Descriptor>, i: nat)
    requires i <= |ds| && AllProper(ds)
    ensures Payload(ds, |ds|) == Payload(ds, i) + PayloadFrom(ds, i)
    decreases |ds| - i
  {
    hide Encoded;
    if i < |ds| {
      PayloadSplit(ds, i + 1);
    }
  }

  lemma {:induction false} InfoParts(d: Descriptor)
    requires Proper(d)
    ensures Count(d) == if Info(d) % 64 == 0 then 64 else Info(d) % 64
    ensures Info(d) / 64 >= 2 <==> d.Sample?
  {
  }

  lemma {:induction false} ParseOne(d: Descriptor, rest: seq<Octet>, n: nat)
    requires Proper(d)
    ensures var r := Parse(rest, n);
            Parse(Encoded(d) + rest, n + 1) == if r.None? then None else Some([d] + r.value)
  {
    hide Octets, Unpacked, BitIn, Info, Count;
    InfoParts(d);
    var code := Encoded(d);
    var bytes := code + rest;
    assert bytes[0] == Info(d) && bytes[|code|..] == rest;
    if d.Drive? {
      DriveCount(d);
      UnpackOctets(d.bits);
      assert bytes[1..|code|] == Octets(d.bits);
    } else {
      DriveCount(d);
    }
  }

  lemma {:induction false} DriveCount(d: Descriptor)
    ensures d.Drive? ==> Count(d) == |d.bits|
    ensures d.Sample? ==> d == Sample(Count(d))
  {
  }

  lemma {:induction false} ParseNone()
    ensures Parse([], 0) == Some([])
  {
  }

  lemma {:induction false} ParseFrom(ds: seq<Descriptor>, i: nat)
    requires i <= |ds| && AllProper(ds)
    ensures Parse(PayloadFrom(ds, i), |ds| - i) == Some(ds[i..])
    decreases |ds| - i
  {
    hide Encoded, Proper, Parse;
    if i == |ds| {
      ParseNone();
    } else {
      ParseFrom(ds, i + 1);
      ParseOne(ds[i], PayloadFrom(ds, i + 1), |ds| - i - 1);
      assert [ds[i]] + ds[i + 1..] == ds[i..];
    }
  }

  /** The probe reads exactly the sequences that were written. */
  lemma {:induction false} ParsePayload(ds: seq<Descriptor>)
    requires AllProper(ds)
    ensures Parse(Payload(ds, |ds|), |ds|) == Some(ds)
  {
    PayloadSplit(ds, 0);
    ParseFrom(ds, 0);
    assert Payload(ds, 0) == [] && [] + PayloadFrom(ds, 0) == PayloadFrom(ds, 0) && ds[0..] == ds;
  }

  // ----- What a packet says about the stream -----

  /** Bits covered by the first `n` sequences. */
  function Span(ds: seq<Descriptor>, n: nat): nat
    requires n <= |ds|
  {
    if n == 0 then 0 else Span(ds, n - 1) + Count(ds[n - 1])
  }

  /** Bytes that the first `n` sequences return. */
  function Returned(ds: seq<Descriptor>, n: nat): nat
    requires n <= |ds|
  {
    if n == 0 then 0 else Returned(ds, n - 1) + if ds[n - 1].Sample? then OctetsFor(ds[n - 1].count) else 0
  }

  datatype Capture = Capture(offset: nat, bits: nat)

  function Captures(ds: seq<Descriptor>, start: nat, n: nat): seq<Capture>
    requires n <= |ds|
  {
    if n == 0 then []
    else
      Captures(ds, start, n - 1) +
      if ds[n - 1].Sample? then [Capture(start + Span(ds, n - 1), ds[n - 1].count)] else []
  }

  /** The sequence does to the wire what the stream has from `at` on. */
  ghost predicate Matches(d: Descriptor, dir: seq<bool>, out: seq<bool>, at: nat) {
    && at + Count(d) <= |dir| == |out|
    && (forall k :: at <= k < at + Count(d) ==> dir[k] == d.Drive?)
    && (d.Drive? ==> d.bits == out[at..at + |d.bits|])
  }

  /** The sequences are the stream from `start` on. */
  ghost predicate Follows(ds: seq<Descriptor>, dir: seq<bool>, out: seq<bool>, start: nat) {
    AllProper(ds) && forall i :: 0 <= i < |ds| ==> Matches(ds[i], dir, out, start + Span(ds, i))
  }

  lemma {:induction false} SpanPrefix(ds: seq<Descriptor>, d: Descriptor, n: nat)
    requires n <= |ds|
    ensures Span(ds + [d], n) == Span(ds, n)
  {
    if n > 0 {
      SpanPrefix(ds, d, n - 1);
    }
  }

  lemma {:induction false} FollowsMore(ds: seq<Descriptor>, dir: seq<bool>, out: seq<bool>, start: nat, d: Descriptor)
    requires Follows(ds, dir, out, start) && Proper(d) && Matches(d, dir, out, start + Span(ds, |ds|))
    ensures Follows(ds + [d], dir, out, start)
  {
    hide Matches, Span, Proper;
    var longer := ds + [d];
    forall i | 0 <= i < |longer|
      ensures Matches(longer[i], dir, out, start + Span(longer, i))
    {
      SpanPrefix(ds, d, i);
    }
  }

  /** Sizes and captures with one sequence more. */
  lemma {:induction false} OneMore(ds: seq<Descriptor>, d: Descriptor, start: nat, n: nat)
    requires n <= |ds| && AllProper(ds) && Proper(d)
    ensures AllProper(ds + [d]) && Payload(ds + [d], n) == Payload(ds, n)
    ensures Returned(ds + [d], n) == Returned(ds, n) && Captures(ds + [d], start, n) == Captures(ds, start, n)
  {
    hide Encoded, Proper;
    if n > 0 {
      OneMore(ds, d, start, n - 1);
      SpanPrefix(ds, d, n - 1);
    }
  }

  // ----- Planning -----

  /** The end of the run of equal directions at `i`. */
  function RunEnd(dir: seq<bool>, i: nat): (e: nat)
    requires i < |dir|
    ensures i < e <= |dir| && (forall k :: i <= k < e ==> dir[k] == dir[i]) && (e < |dir| ==> dir[e] != dir[i])
    decreases |dir| - i
  {
    if i + 1 < |dir| && dir[i + 1] == dir[i] then RunEnd(dir, i + 1) else i + 1
  }

  lemma {:induction false} RunEndIs(dir: seq<bool>, i: nat, j: nat)
    requires i < |dir| && i <= j < RunEnd(dir, i)
    ensures RunEnd(dir, j) == RunEnd(dir, i)
    decreases j - i
  {
    if i < j {
      RunEndIs(dir, i + 1, j);
    }
  }

  method SwdRun(dir: seq<bool>, start: nat) returns (count: nat)
    requires start < |dir|
    ensures count == RunEnd(dir, start) - start
  {
    count := 1;
    while start + count < |dir| && dir[start + count] == dir[start]
      invariant 0 < count && start + count <= RunEnd(dir, start)
    {
      RunEndIs(dir, start, start + count);
      count := count + 1;
    }
  }

  /** A sampled run of `bits` bits fits into what is left of a packet. */
  predicate CaptureFits(bits: nat, requestBytes: nat, responseBytes: nat, sequences: nat, size: nat) {
    var descriptors := (bits + 63) / 64;
    responseBytes + OctetsFor(bits) <= size && requestBytes + descriptors <= size && sequences + descriptors <= 255
  }

  /** Position `i` continues a run that the target drives. */
  predicate Inside(dir: seq<bool>, i: nat) {
    0 < i < |dir| && !dir[i - 1] && !dir[i]
  }

  /** A run that the target drives starts at `i`. */
  predicate Starts(dir: seq<bool>, i: nat) {
    i < |dir| && !dir[i] && (i == 0 || dir[i - 1])
  }

  ghost predicate FitsEmpty(dir: seq<bool>, i: nat, size: nat)
    requires i < |dir|
  {
    CaptureFits(RunEnd(dir, i) - i, 2, 2, 0, size)
  }

  method PackBits(data: seq<bool>, start: nat, count: nat) returns (packed: seq<Octet>)
    requires start + count <= |data|
    ensures packed == Octets(data[start..start + count])
  {
    hide BitsOf, Value, Pow2;
    ghost var bits := data[start..start + count];
    packed := seq(OctetsFor(count), _ => 0);
    for i := 0 to count
      invariant |packed| == OctetsFor(count)
      invariant forall k :: 0 <= k < |packed| ==>
                  packed[k] == if 8 * k >= i then 0 else Value(bits[8 * k..if 8 * k + 8 <= i then 8 * k + 8 else i])
    {
      var k := i / 8;
      if i % 8 == 0 {
        NoValue(bits, i);
      }
      ValueMore(bits[8 * k..i], bits[i]);
      assert bits[8 * k..i] + [bits[i]] == bits[8 * k..i + 1];
      SmallValue(bits[8 * k..i + 1]);
      packed := packed[k := packed[k] + Bit(data[start + i]) * Pow2(i % 8)];
    }
  }

  lemma {:induction false} NoValue(s: seq<bool>, i: nat)
    requires i <= |s|
    ensures Value(s[i..i]) == 0
  {
  }

  function AtLeastTwo(size: nat): nat {
    if size < 2 then 2 else size
  }

  /** A packet under construction from `start`, with the stream up to `position` in it. It
      keeps to the limits, and a sampled run it has begun will fit. */
  ghost predicate Partway(dir: seq<bool>, out: seq<bool>, start: nat, size: nat, position: nat, ds: seq<Descriptor>) {
    && |dir| == |out| && start <= position <= |dir| && |ds| <= 255
    && Follows(ds, dir, out, start) && position == start + Span(ds, |ds|)
    && 2 + |Payload(ds, |ds|)| <= AtLeastTwo(size) && 2 + Returned(ds, |ds|) <= AtLeastTwo(size)
    && (Inside(dir, position) && position > start ==>
          CaptureFits(RunEnd(dir, position) - position, 2 + |Payload(ds, |ds|)|, 2 + Returned(ds, |ds|), |ds|, size))
    && (forall i :: start <= i < position && Starts(dir, i) ==> FitsEmpty(dir, i, size))
  }

  /** Sizes of a packet with one sequence more. */
  lemma {:induction false} Grown(ds: seq<Descriptor>, d: Descriptor, start: nat)
    requires AllProper(ds) && Proper(d)
    ensures var e := ds + [d];
            && AllProper(e) && Payload(e, |e|) == Payload(ds, |ds|) + Encoded(d)
            && Returned(e, |e|) == Returned(ds, |ds|) + (if d.Sample? then OctetsFor(d.count) else 0)
            && Span(e, |e|) == Span(ds, |ds|) + Count(d)
            && Captures(e, start, |e|) ==
                 Captures(ds, start, |ds|) + if d.Sample? then [Capture(start + Span(ds, |ds|), d.count)] else []
  {
    hide Encoded, Proper, Count;
    OneMore(ds, d, start, |ds|);
    SpanPrefix(ds, d, |ds|);
  }

  lemma {:induction false} StillFits(run: nat, request: nat, response: nat, n: nat, size: nat)
    requires run > 64 && CaptureFits(run, request, response, n, size)
    ensures CaptureFits(run - 64, request + 1, response + 8, n + 1, size) && OctetsFor(64) == 8
  {
    assert (run - 64 + 63) / 64 == (run + 63) / 64 - 1;
    assert (run - 64 + 7) / 8 == (run + 7) / 8 - 8;
  }

  lemma {:induction false} FitsLess(run: nat, request: nat, response: nat, n: nat, size: nat)
    requires CaptureFits(run, request, response, n, size) && request >= 2 && response >= 2
    ensures CaptureFits(run, 2, 2, 0, size)
  {
  }

  /** The next part of a run that the target drives. */
  lemma {:induction false} SampleStep(dir: seq<bool>, out: seq<bool>, start: nat, size: nat, position: nat,
                                      ds: seq<Descriptor>, count: nat)
    requires Partway(dir, out, start, size, position, ds) && position < |dir| && !dir[position] && |ds| < 255
    requires var run := RunEnd(dir, position) - position;
             && CaptureFits(run, 2 + |Payload(ds, |ds|)|, 2 + Returned(ds, |ds|), |ds|, size)
             && count == if run < 64 then run else 64
    ensures Partway(dir, out, start, size, position + count, ds + [Sample(count)])
  {
    hide Payload, Returned, Span, CaptureFits, Follows, RunEnd;
    var d, run := Sample(count), RunEnd(dir, position) - position;
    FollowsMore(ds, dir, out, start, d);
    FollowsProper(ds, dir, out, start);
    Grown(ds, d, start);
    FitsSizes(run, 2 + |Payload(ds, |ds|)|, 2 + Returned(ds, |ds|), |ds|, size);
    FitsLess(run, 2 + |Payload(ds, |ds|)|, 2 + Returned(ds, |ds|), |ds|, size);
    if run > 64 {
      StillFits(run, 2 + |Payload(ds, |ds|)|, 2 + Returned(ds, |ds|), |ds|, size);
      RunEndIs(dir, position, position + 64);
    }
  }

  lemma {:induction false} FollowsProper(ds: seq<Descriptor>, dir: seq<bool>, out: seq<bool>, start: nat)
    requires Follows(ds, dir, out, start)
    ensures AllProper(ds)
  {
  }

  lemma {:induction false} FitsSizes(run: nat, request: nat, response: nat, n: nat, size: nat)
    requires CaptureFits(run, request, response, n, size) && run > 0
    ensures request + 1 <= size && response + OctetsFor(if run < 64 then run else 64) <= size && n < 255
    ensures (size - response) * 8 >= run
  {
  }

  /** The next part of a run that the host drives. */
  lemma {:induction false} DriveStep(dir: seq<bool>, out: seq<bool>, start: nat, size: nat, position: nat,
                                     ds: seq<Descriptor>, count: nat)
    requires Partway(dir, out, start, size, position, ds) && position < |dir| && dir[position] && |ds| < 255
    requires 0 < count <= 64 && position + count <= RunEnd(dir, position)
    requires 2 + |Payload(ds, |ds|)| + 1 + OctetsFor(count) <= size
    ensures Partway(dir, out, start, size, position + count, ds + [Drive(out[position..position + count])])
  {
    hide Payload, Returned, Span, CaptureFits, Follows, RunEnd;
    var d := Drive(out[position..position + count]);
    FollowsMore(ds, dir, out, start, d);
    FollowsProper(ds, dir, out, start);
    Grown(ds, d, start);
  }

  /** Plans one packet. It takes in as much of the stream as fits, and never ends inside a
      run that the target drives. */
  method PlanPacket(dir: seq<bool>, out: seq<bool>, start: nat, size: nat)
    returns (request: seq<Octet>, captures: seq<Capture>, next: nat, ghost ds: seq<Descriptor>)
    requires start < |dir| == |out|
    ensures Partway(dir, out, start, size, next, ds) && (next > start ==> !Inside(dir, next))
    ensures request == [COMMAND, |ds|] + Payload(ds, |ds|) && captures == Captures(ds, start, |ds|)
    ensures size >= 4 && (dir[start] || FitsEmpty(dir, start, size)) ==> next > start
  {
    hide Partway, Payload, Returned, CaptureFits, RunEnd, Captures, OctetsFor, Octets, Info, Span;
    var payload: seq<Octet>, n, responseBytes := [], 0, 2;
    captures, next, ds := [], start, [];
    StartPacket(dir, out, start, size);
    while next < |dir| && n != 255
      invariant Partway(dir, out, start, size, next, ds) && n == |ds| && start <= next <= |dir|
      invariant payload == PayloadOf(ds) && responseBytes == 2 + Returned(ds, |ds|) &&
                captures == Captures(ds, start, |ds|)
      invariant next == start ==> n == 0 && |payload| == 0 && responseBytes == 2
      decreases |dir| - next
    {
      var input := !dir[next];
      var run := SwdRun(dir, next);
      PartwayFacts(dir, out, start, size, next, ds);
      if input && !CaptureFits(run, 2 + |payload|, responseBytes, n, size) {
        assert !(Inside(dir, next) && next > start);
        break;
      }
      var capacity := 0;
      if input && 2 + |payload| + 1 <= size {
        capacity := (size - responseBytes) * 8;
      } else if !input && 2 + |payload| + 1 < size {
        capacity := (size - 2 - |payload| - 1) * 8;
      }
      if input {
        FitsSizes(run, 2 + |payload|, responseBytes, n, size);
      }
      var count := if run < 64 then run else 64;
      count := if count < capacity then count else capacity;
      if count <= 0 {
        assert !Inside(dir, next);
        break;
      }
      var d;
      if input {
        d := Sample(count);
        SampleStep(dir, out, start, size, next, ds, count);
        captures := captures + [Capture(next, count)];
        responseBytes := responseBytes + OctetsFor(count);
        payload := payload + [Info(d)];
      } else {
        d := Drive(out[next..next + count]);
        RoomForBits(count, size - 2 - |payload| - 1);
        DriveStep(dir, out, start, size, next, ds, count);
        var packed := PackBits(out, next, count);
        payload := payload + [Info(d)] + packed;
      }
      Grown(ds, d, start);
      ds := ds + [d];
      n, next := n + 1, next + count;
    }
    PartwayFacts(dir, out, start, size, next, ds);
    if n == 255 && next < |dir| && CaptureFits(RunEnd(dir, next) - next, 2 + |payload|, responseBytes, n, size) {
      FitsSizes(RunEnd(dir, next) - next, 2 + |payload|, responseBytes, n, size);
    }
    request := [COMMAND, n] + payload;
  }

  lemma {:induction false} RoomForBits(count: nat, bytes: nat)
    requires count <= bytes * 8
    ensures OctetsFor(count) <= bytes
  {
  }

  lemma {:induction false} StartPacket(dir: seq<bool>, out: seq<bool>, start: nat, size: nat)
    requires start <= |dir| == |out|
    ensures Partway(dir, out, start, size, start, []) && Payload([], 0) == [] && Returned([], 0) == 0 &&
            Captures([], start, 0) == []
  {
  }

  lemma {:induction false} PartwayFacts(dir: seq<bool>, out: seq<bool>, start: nat, size: nat, position: nat,
                                        ds: seq<Descriptor>)
    requires Partway(dir, out, start, size, position, ds)
    ensures AllProper(ds) && PayloadOf(ds) == Payload(ds, |ds|) && position == start + Span(ds, |ds|)
    ensures Inside(dir, position) && position > start ==>
              CaptureFits(RunEnd(dir, position) - position, 2 + |Payload(ds, |ds|)|, 2 + Returned(ds, |ds|), |ds|, size)
    ensures 2 + |Payload(ds, |ds|)| <= AtLeastTwo(size) && 2 + Returned(ds, |ds|) <= AtLeastTwo(size)
  {
    hide Payload, Returned, CaptureFits, Span, RunEnd;
  }

  ghost function PayloadOf(ds: seq<Descriptor>): seq<Octet> {
    if AllProper(ds) then Payload(ds, |ds|) else []
  }

  datatype Packet = Packet(request: seq<Octet>, captures: seq<Capture>)

  /** Where packet `i` starts in the stream. */
  function StartOf(plans: seq<seq<Descriptor>>, i: nat): nat
    requires i <= |plans|
  {
    if i == 0 then 0 else StartOf(plans, i - 1) + Span(plans[i - 1], |plans[i - 1]|)
  }

  lemma {:induction false} StartPrefix(plans: seq<seq<Descriptor>>, ds: seq<Descriptor>, i: nat)
    requires i <= |plans|
    ensures StartOf(plans + [ds], i) == StartOf(plans, i)
  {
    hide Span;
    if i > 0 {
      StartPrefix(plans, ds, i - 1);
    }
  }

  /** Packet `i` carries its part of the stream, within all limits, and starts at no place
      inside a run that the target drives. */
  ghost predicate Carries(p: Packet, plans: seq<seq<Descriptor>>, i: nat, dir: seq<bool>, out: seq<bool>, size: nat)
    requires i < |plans|
  {
    var start, ds := StartOf(plans, i), plans[i];
    && Partway(dir, out, start, size, StartOf(plans, i + 1), ds) && !Inside(dir, start)
    && p.request == [COMMAND, |ds|] + Payload(ds, |ds|) && p.captures == Captures(ds, start, |ds|)
  }

  /** The first packets of a plan. */
  ghost predicate Planned(packets: seq<Packet>, plans: seq<seq<Descriptor>>, dir: seq<bool>, out: seq<bool>,
                          size: nat) {
    |packets| == |plans| && forall i :: 0 <= i < |packets| ==> Carries(packets[i], plans, i, dir, out, size)
  }

  /** Every run that the target drives fits into a packet of its own. */
  ghost predicate AllFit(dir: seq<bool>, size: nat, n: nat) {
    forall i :: 0 <= i < n && Starts(dir, i) ==> FitsEmpty(dir, i, size)
  }

  lemma {:induction false} PlannedMore(packets: seq<Packet>, plans: seq<seq<Descriptor>>, dir: seq<bool>,
                                       out: seq<bool>, size: nat,
                                       p: Packet, ds: seq<Descriptor>, next: nat)
    requires Planned(packets, plans, dir, out, size)
    requires var start := StartOf(plans, |plans|);
             && Partway(dir, out, start, size, next, ds) && !Inside(dir, start)
             && AllProper(ds) && p.request == [COMMAND, |ds|] + Payload(ds, |ds|)
             && p.captures == Captures(ds, start, |ds|)
    ensures Planned(packets + [p], plans + [ds], dir, out, size) && StartOf(plans + [ds], |plans| + 1) == next
  {
    hide Span, Payload, Captures, Partway;
    StartPrefix(plans, ds, |plans|);
    PartwayFacts(dir, out, StartOf(plans, |plans|), size, next, ds);
    forall i | 0 <= i < |packets|
      ensures Carries((packets + [p])[i], plans + [ds], i, dir, out, size)
    {
      assert Carries(packets[i], plans, i, dir, out, size);
      StartPrefix(plans, ds, i);
      StartPrefix(plans, ds, i + 1);
    }
  }

  /** Plans a whole stream. It succeeds exactly when packets have room for a bit, the host
      drives the last bit and every run that the target drives fits into one packet. */
  method PlanStream(dir: seq<bool>, out: seq<bool>, size: nat)
    returns (packets: Option<seq<Packet>>, ghost plans: seq<seq<Descriptor>>)
    requires 0 < |dir| == |out|
    ensures packets.Some? <==> size >= 4 && dir[|dir| - 1] && AllFit(dir, size, |dir|)
    ensures packets.Some? ==> Planned(packets.value, plans, dir, out, size) && StartOf(plans, |plans|) == |dir|
  {
    hide Partway, Payload, Captures, FitsEmpty, StartOf;
    plans := [];
    if !dir[|dir| - 1] {
      return None, [];
    }
    var list: seq<Packet>, position := [], 0;
    NoneYet();
    while position < |dir|
      invariant position <= |dir| && Planned(list, plans, dir, out, size) && StartOf(plans, |plans|) == position
      invariant !Inside(dir, position) && AllFit(dir, size, position)
      invariant size < 4 ==> forall i :: 0 <= i < position ==> !dir[i]
      decreases |dir| - position
    {
      var request, captures, next, ds := PlanPacket(dir, out, position, size);
      PartwayRuns(dir, out, position, size, next, ds);
      SmallPacket(dir, out, position, size, next, ds);
      if next == position {
        return None, plans;
      }
      PlannedMore(list, plans, dir, out, size, Packet(request, captures), ds, next);
      list, plans := list + [Packet(request, captures)], plans + [ds];
      position := next;
    }
    return Some(list), plans;
  }

  /** A packet under four bytes has no room for a bit that the host drives. */
  lemma {:induction false} SmallPacket(dir: seq<bool>, out: seq<bool>, start: nat, size: nat, next: nat,
                                       ds: seq<Descriptor>)
    requires Partway(dir, out, start, size, next, ds)
    ensures next <= |dir| && (size < 4 ==> forall i :: start <= i < next ==> !dir[i])
  {
    hide FitsEmpty, CaptureFits, RunEnd, Octets, Returned;
    if size < 4 && ds != [] {
      PayloadLength(ds, |ds|);
      assert ds[0].Sample? && Span(ds, 1) == Count(ds[0]) && Span(ds, 0) == 0;
      assert Matches(ds[0], dir, out, start + Span(ds, 0));
    }
  }

  lemma {:induction false} PayloadLength(ds: seq<Descriptor>, n: nat)
    requires AllProper(ds) && n <= |ds|
    ensures |Payload(ds, n)| >= n && (n > 0 && ds[0].Drive? ==> |Payload(ds, n)| > n)
  {
    hide Octets;
    if n > 0 {
      PayloadLength(ds, n - 1);
    }
  }

  lemma {:induction false} NoneYet()
    ensures StartOf([], 0) == 0
  {
  }

  lemma {:induction false} PartwayRuns(dir: seq<bool>, out: seq<bool>, start: nat, size: nat, next: nat,
                                       ds: seq<Descriptor>)
    requires Partway(dir, out, start, size, next, ds)
    ensures AllProper(ds) && start <= next <= |dir| &&
            forall i :: start <= i < next && Starts(dir, i) ==> FitsEmpty(dir, i, size)
  {
    hide FitsEmpty, Payload, Returned, CaptureFits, Span;
  }

  // ----- Responses -----

  /** What the probe returns for the first `n` sequences when the wire carries `samples`. */
  function Sampled(ds: seq<Descriptor>, start: nat, samples: seq<bool>, n: nat): (r: seq<Octet>)
    requires n <= |ds| && start + Span(ds, n) <= |samples|
  {
    if n == 0 then []
    else
      Sampled(ds, start, samples, n - 1) +
      if ds[n - 1].Sample? then Octets(samples[start + Span(ds, n - 1)..start + Span(ds, n)]) else []
  }

  /** `input` with `bits` added from `at` on. */
  function Placed(input: seq<bool>, at: nat, bits: seq<bool>): (r: seq<bool>)
    requires at + |bits| <= |input|
    ensures |r| == |input|
  {
    seq(|input|, i requires 0 <= i < |input| => input[i] || (at <= i < at + |bits| && bits[i - at]))
  }

  /** Bytes used by the first `c` captures. */
  function Used(captures: seq<Capture>, c: nat): nat
    requires c <= |captures|
  {
    if c == 0 then 0 else Used(captures, c - 1) + OctetsFor(captures[c - 1].bits)
  }

  predicate Enough(input: seq<bool>, bytes: seq<Octet>, captures: seq<Capture>) {
    Used(captures, |captures|) <= |bytes| &&
    forall i :: 0 <= i < |captures| ==> captures[i].offset + captures[i].bits <= |input|
  }

  lemma {:induction false} UsedGrows(captures: seq<Capture>, a: nat, b: nat)
    requires a <= b <= |captures|
    ensures Used(captures, a) <= Used(captures, b)
  {
    if a < b {
      UsedGrows(captures, a, b - 1);
    }
  }

  /** The first `c` captures, put in place. */
  function Decoded(input: seq<bool>, bytes: seq<Octet>, captures: seq<Capture>, c: nat): (r: seq<bool>)
    requires c <= |captures| && Enough(input, bytes, captures)
    ensures |r| == |input|
  {
    if c == 0 then input
    else
      var cap := captures[c - 1];
      UsedGrows(captures, c, |captures|);
      var part := bytes[Used(captures, c - 1)..Used(captures, c)];
      Placed(Decoded(input, bytes, captures, c - 1), cap.offset, Unpacked(part, cap.bits))
  }

  /** Puts the samples of one response in their places. */
  method DecodeResponse(input: seq<bool>, response: seq<Octet>, captures: seq<Capture>) returns (r: Option<seq<bool>>)
    requires |response| >= 2 && forall i :: 0 <= i < |captures| ==> captures[i].offset + captures[i].bits <= |input|
    ensures r.None? <==> Used(captures, |captures|) > |response| - 2
    ensures r.Some? ==> r.value == Decoded(input, response[2..], captures, |captures|)
  {
    hide BitIn;
    var offset := 2;
    var now := input;
    if Used(captures, |captures|) <= |response| - 2 {
      assert Decoded(input, response[2..], captures, 0) == input;
    }
    for c := 0 to |captures|
      invariant offset == 2 + Used(captures, c) <= |response| && |now| == |input|
      invariant Used(captures, |captures|) <= |response| - 2 ==> now == Decoded(input, response[2..], captures, c)
    {
      var bytes := OctetsFor(captures[c].bits);
      UsedGrows(captures, c + 1, |captures|);
      if offset + bytes > |response| {
        return None;
      }
      var part := response[offset..offset + bytes];
      assert response[2..] == response[2..|response|];
      Rows.SlicePart(response, 2, |response|, Used(captures, c), Used(captures, c + 1));
      now := PlaceBits(now, captures[c].offset, part, captures[c].bits);
      offset := offset + bytes;
    }
    r := Some(now);
  }

  method PlaceBits(input: seq<bool>, at: nat, part: seq<Octet>, bits: nat) returns (r: seq<bool>)
    requires at + bits <= |input| && bits <= 8 * |part|
    ensures r == Placed(input, at, Unpacked(part, bits))
  {
    hide BitIn;
    r := input;
    for bit := 0 to bits
      invariant |r| == |input|
      invariant forall i :: 0 <= i < |input| ==> r[i] == (input[i] || (at <= i < at + bit && BitIn(part, i - at)))
    {
      if BitIn(part, bit) {
        r := r[at + bit := true];
      }
    }
  }

  lemma {:induction false} PrefixesOf(ds: seq<Descriptor>, start: nat, samples: seq<bool>, n: nat, m: nat)
    requires n <= m <= |ds| && start + Span(ds, |ds|) <= |samples|
    ensures Span(ds, n) <= Span(ds, m) <= Span(ds, |ds|)
    ensures Captures(ds, start, n) <= Captures(ds, start, m) &&
            Sampled(ds, start, samples, n) <= Sampled(ds, start, samples, m)
    decreases |ds| - n, m - n
  {
    hide Count, Octets;
    SpanGrows(ds, n, m);
    SpanGrows(ds, m, |ds|);
    if n < m {
      PrefixesOf(ds, start, samples, n, m - 1);
    }
  }

  lemma {:induction false} SpanGrows(ds: seq<Descriptor>, a: nat, b: nat)
    requires a <= b <= |ds|
    ensures Span(ds, a) <= Span(ds, b)
  {
    if a < b {
      SpanGrows(ds, a, b - 1);
    }
  }

  lemma {:induction false} UsedPrefix(a: seq<Capture>, b: seq<Capture>, c: nat)
    requires c <= |a| <= |b| && a <= b
    ensures Used(a, c) == Used(b, c)
  {
    if c > 0 {
      UsedPrefix(a, b, c - 1);
    }
  }

  lemma {:induction false} SampledLast(ds: seq<Descriptor>, start: nat, samples: seq<bool>, n: nat)
    requires 0 < n <= |ds| && start + Span(ds, n) <= |samples|
    ensures |Sampled(ds, start, samples, n)| ==
            |Sampled(ds, start, samples, n - 1)| + if ds[n - 1].Sample? then OctetsFor(ds[n - 1].count) else 0
  {
    hide Octets, OctetsFor, OctetAt;
    assert Span(ds, n) == Span(ds, n - 1) + Count(ds[n - 1]);
  }

  lemma {:induction false} UsedLast(ds: seq<Descriptor>, start: nat, n: nat)
    requires 0 < n <= |ds|
    ensures Used(Captures(ds, start, n), |Captures(ds, start, n)|) ==
            Used(Captures(ds, start, n - 1), |Captures(ds, start, n - 1)|) +
            if ds[n - 1].Sample? then OctetsFor(ds[n - 1].count) else 0
  {
    hide OctetsFor, Span;
    var before, now := Captures(ds, start, n - 1), Captures(ds, start, n);
    UsedPrefix(before, now, |before|);
  }

  /** The response has what the captures need. */
  lemma {:induction false} SampledUsed(ds: seq<Descriptor>, start: nat, samples: seq<bool>, n: nat)
    requires n <= |ds| && start + Span(ds, |ds|) <= |samples|
    ensures start + Span(ds, n) <= |samples|
    ensures Used(Captures(ds, start, n), |Captures(ds, start, n)|) == |Sampled(ds, start, samples, n)|
  {
    SpanGrows(ds, n, |ds|);
    if n > 0 {
      hide Octets, OctetsFor, Captures, Used, Sampled, Span;
      SampledUsed(ds, start, samples, n - 1);
      SampledLast(ds, start, samples, n);
      UsedLast(ds, start, n);
    }
  }

  lemma {:induction false} CapturesFit(ds: seq<Descriptor>, start: nat, n: nat, limit: nat)
    requires n <= |ds| && start + Span(ds, n) <= limit
    ensures forall i :: 0 <= i < |Captures(ds, start, n)| ==>
              Captures(ds, start, n)[i].offset + Captures(ds, start, n)[i].bits <= limit
  {
    if n > 0 {
      SpanGrows(ds, n - 1, n);
      CapturesFit(ds, start, n - 1, limit);
    }
  }

  /** Decoding puts every sample at its own bit. */
  lemma {:induction false} DecodeSampled(ds: seq<Descriptor>, dir: seq<bool>, out: seq<bool>, start: nat,
                                         samples: seq<bool>, input: seq<bool>, n: nat)
    requires Follows(ds, dir, out, start) && start + Span(ds, |ds|) <= |dir| == |out| == |samples| == |input| &&
             n <= |ds|
    ensures var caps, bytes := Captures(ds, start, |ds|), Sampled(ds, start, samples, |ds|);
            var c := |Captures(ds, start, n)|;
            && c <= |caps| && Enough(input, bytes, caps) && start + Span(ds, n) <= |samples|
            && forall i :: 0 <= i < |input| ==>
                 Decoded(input, bytes, caps, c)[i] ==
                 (input[i] || (start <= i < start + Span(ds, n) && !dir[i] && samples[i]))
  {
    hide Octets, Unpacked, Captures, Sampled, Used, Span, Follows, OctetsFor, Decoded;
    var caps, bytes, c := Captures(ds, start, |ds|), Sampled(ds, start, samples, |ds|), |Captures(ds, start, n)|;
    PrefixesOf(ds, start, samples, n, |ds|);
    SampledUsed(ds, start, samples, |ds|);
    CapturesFit(ds, start, |ds|, |input|);
    if n > 0 {
      DecodeSampled(ds, dir, out, start, samples, input, n - 1);
      SampleInPlace(ds, dir, out, start, samples, n);
      if ds[n - 1].Sample? {
        DecodedMore(input, bytes, caps, c, samples[start + Span(ds, n - 1)..start + Span(ds, n)]);
      }
    } else {
      NothingCaptured(ds, start);
      NothingDecoded(input, bytes, caps);
    }
  }

  /** One more capture, whose bytes unpack to `part`. */
  lemma {:induction false} DecodedMore(input: seq<bool>, bytes: seq<Octet>, captures: seq<Capture>, c: nat,
                                       part: seq<bool>)
    requires 0 < c <= |captures| && Enough(input, bytes, captures) && captures[c - 1].bits == |part|
    requires Used(captures, c - 1) <= Used(captures, c) <= |bytes|
    requires |part| <= 8 * (Used(captures, c) - Used(captures, c - 1))
    requires Unpacked(bytes[Used(captures, c - 1)..Used(captures, c)], |part|) == part
    ensures Decoded(input, bytes, captures, c) ==
            Placed(Decoded(input, bytes, captures, c - 1), captures[c - 1].offset, part)
  {
    hide Unpacked, Placed, Used;
  }

  lemma {:induction false} NothingDecoded(input: seq<bool>, bytes: seq<Octet>, captures: seq<Capture>)
    requires Enough(input, bytes, captures)
    ensures Decoded(input, bytes, captures, 0) == input
  {
  }

  lemma {:induction false} NothingCaptured(ds: seq<Descriptor>, start: nat)
    ensures Captures(ds, start, 0) == [] && Span(ds, 0) == 0
  {
  }

  /** Sequence `n - 1` and its capture. */
  lemma {:induction false} SampleInPlace(ds: seq<Descriptor>, dir: seq<bool>, out: seq<bool>, start: nat,
                                         samples: seq<bool>, n: nat)
    requires Follows(ds, dir, out, start) && start + Span(ds, |ds|) <= |dir| == |out| == |samples| && 0 < n <= |ds|
    ensures var caps, bytes := Captures(ds, start, |ds|), Sampled(ds, start, samples, |ds|);
            var c := |Captures(ds, start, n)|;
            var a, b := start + Span(ds, n - 1), start + Span(ds, n);
            && a <= b <= |samples| && (forall k :: a <= k < b ==> dir[k] == ds[n - 1].Drive?)
            && (ds[n - 1].Drive? ==> c == |Captures(ds, start, n - 1)|)
            && (ds[n - 1].Sample? ==>
                  && c == |Captures(ds, start, n - 1)| + 1 && c <= |caps| && caps[c - 1] == Capture(a, b - a)
                  && Used(caps, c - 1) <= Used(caps, c) <= |bytes|
                  && b - a <= 8 * (Used(caps, c) - Used(caps, c - 1))
                  && Unpacked(bytes[Used(caps, c - 1)..Used(caps, c)], b - a) == samples[a..b])
  {
    hide Octets, Unpacked, Used, Sampled, OctetsFor, Captures, Span;
    PrefixesOf(ds, start, samples, n, |ds|);
    PrefixesOf(ds, start, samples, n - 1, n);
    assert Matches(ds[n - 1], dir, out, start + Span(ds, n - 1));
    LastCapture(ds, start, n);
    if ds[n - 1].Sample? {
      BytesAt(ds, start, samples, n);
      var part := samples[start + Span(ds, n - 1)..start + Span(ds, n)];
      UnpackOctets(part);
      Roomy(part);
    }
  }

  lemma {:induction false} Roomy(bits: seq<bool>)
    ensures |bits| <= 8 * |Octets(bits)|
  {
    hide OctetAt;
  }

  lemma {:induction false} Middle<T>(all: seq<T>, x: seq<T>, part: seq<T>)
    requires x + part <= all
    ensures |x| + |part| <= |all| && all[|x|..|x| + |part|] == part
  {
    assert all[..|x| + |part|] == x + part;
  }

  /** The bytes that a sampled sequence returned. */
  lemma {:induction false} BytesAt(ds: seq<Descriptor>, start: nat, samples: seq<bool>, n: nat)
    requires 0 < n <= |ds| && start + Span(ds, |ds|) <= |samples| && ds[n - 1].Sample?
    ensures var caps, bytes := Captures(ds, start, |ds|), Sampled(ds, start, samples, |ds|);
            var c := |Captures(ds, start, n)|;
            var a, b := start + Span(ds, n - 1), start + Span(ds, n);
            && a <= b <= |samples| && 0 < c <= |caps| && Used(caps, c - 1) <= Used(caps, c) <= |bytes|
            && bytes[Used(caps, c - 1)..Used(caps, c)] == Octets(samples[a..b])
  {
    hide Octets, Used, OctetsFor, Sampled, Captures, Span;
    PrefixesOf(ds, start, samples, n, |ds|);
    PrefixesOf(ds, start, samples, n - 1, n);
    SampledUsed(ds, start, samples, n - 1);
    SampledUsed(ds, start, samples, n);
    LastSample(ds, start, samples, n);
    var caps, c := Captures(ds, start, |ds|), |Captures(ds, start, n)|;
    UsedPrefix(Captures(ds, start, n), caps, c);
    UsedPrefix(Captures(ds, start, n - 1), caps, c - 1);
    Middle(Sampled(ds, start, samples, |ds|), Sampled(ds, start, samples, n - 1),
           Octets(samples[start + Span(ds, n - 1)..start + Span(ds, n)]));
  }

  lemma {:induction false} LastCapture(ds: seq<Descriptor>, start: nat, n: nat)
    requires 0 < n <= |ds|
    ensures Span(ds, n) == Span(ds, n - 1) + Count(ds[n - 1])
    ensures Captures(ds, start, n) ==
            Captures(ds, start, n - 1) + if ds[n - 1].Sample? then [Capture(start + Span(ds, n - 1), ds[n - 1].count)]
            else []
  {
    hide Count;
  }

  lemma {:induction false} LastSample(ds: seq<Descriptor>, start: nat, samples: seq<bool>, n: nat)
    requires 0 < n <= |ds| && start + Span(ds, n) <= |samples| && ds[n - 1].Sample?
    ensures |Captures(ds, start, n)| == |Captures(ds, start, n - 1)| + 1 && Span(ds, n - 1) <= Span(ds, n)
    ensures Sampled(ds, start, samples, n) ==
            Sampled(ds, start, samples, n - 1) + Octets(samples[start + Span(ds, n - 1)..start + Span(ds, n)])
  {
    hide Octets, OctetsFor, Captures, Span;
    LastCapture(ds, start, n);
  }

  /** A packet that carries its part of the stream brings back the samples of that part. */
  lemma {:induction false} PacketDecodes(p: Packet, plans: seq<seq<Descriptor>>, k: nat, dir: seq<bool>, out: seq<bool>,
                                         size: nat, samples: seq<bool>, input: seq<bool>)
    requires k < |plans| && Carries(p, plans, k, dir, out, size) && |dir| == |out| == |samples| == |input|
    ensures var ds, start, end := plans[k], StartOf(plans, k), StartOf(plans, k + 1);
            && start + Span(ds, |ds|) == end <= |samples|
            && var bytes := Sampled(ds, start, samples, |ds|);
               && Enough(input, bytes, p.captures) && Used(p.captures, |p.captures|) == |bytes|
               && forall i :: 0 <= i < |input| ==>
                    Decoded(input, bytes, p.captures, |p.captures|)[i] ==
                    (input[i] || (start <= i < end && !dir[i] && samples[i]))
  {
    hide Captures, Sampled, Used, Span, Payload, Returned, CaptureFits, Decoded, FitsEmpty, RunEnd;
    var ds, start := plans[k], StartOf(plans, k);
    PartwayFacts(dir, out, start, size, StartOf(plans, k + 1), ds);
    DecodeSampled(ds, dir, out, start, samples, input, |ds|);
    SampledUsed(ds, start, samples, |ds|);
  }

  /** Executes a planned stream on a probe whose wire carries `samples`: every bit that the
      target drives is sampled at its own place, and the others read zero. */
  method Execute(packets: seq<Packet>, ghost plans: seq<seq<Descriptor>>, dir: seq<bool>, ghost out: seq<bool>,
                 ghost size: nat, samples: seq<bool>,
                 responses: seq<seq<Octet>>)
    returns (input: seq<bool>)
    requires Planned(packets, plans, dir, out, size) && StartOf(plans, |plans|) == |dir| == |out| == |samples|
    requires |responses| == |packets|
    requires forall k :: 0 <= k < |packets| ==>
               StartOf(plans, k) + Span(plans[k], |plans[k]|) <= |samples| &&
               responses[k] == [COMMAND, 0] + Sampled(plans[k], StartOf(plans, k), samples, |plans[k]|)
    ensures |input| == |dir| && forall i :: 0 <= i < |dir| ==> input[i] == (!dir[i] && samples[i])
  {
    hide Sampled, Used, Span, Decoded, Carries, StartOf;
    input := seq(|dir|, _ => false);
    StartOfNone(plans);
    for k := 0 to |packets|
      invariant |input| == |dir|
      invariant forall i :: 0 <= i < |dir| ==> input[i] == (i < StartOf(plans, k) && !dir[i] && samples[i])
    {
      assert Carries(packets[k], plans, k, dir, out, size);
      PacketDecodes(packets[k], plans, k, dir, out, size, samples, input);
      assert responses[k][2..] == Sampled(plans[k], StartOf(plans, k), samples, |plans[k]|);
      var r := DecodeResponse(input, responses[k], packets[k].captures);
      input := r.value;
    }
  }

  lemma {:induction false} StartOfNone(plans: seq<seq<Descriptor>>)
    ensures StartOf(plans, 0) == 0
  {
  }
}
