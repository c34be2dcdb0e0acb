/** Bit streams packed in bytes, the earliest bit in bit zero of byte zero. */
module Packing {

  type Byte = bv8

  function Mask(k: int): Byte {
    if k == 0 then 1 else if k == 1 then 2 else if k == 2 then 4 else if k == 3 then 8
    else if k == 4 then 16 else if k == 5 then 32 else if k == 6 then 64 else 128
  }

  predicate BitAt(buf: seq<Byte>, i: nat)
    requires i / 8 < |buf|
  {
    buf[i / 8] & Mask(i % 8) != 0
  }

  function SetBit(buf: seq<Byte>, i: nat, value: bool): (r: seq<Byte>)
    requires i / 8 < |buf|
    ensures |r| == |buf|
  {
    if value then buf[i / 8 := buf[i / 8] | Mask(i % 8)] else buf
  }

  lemma {:induction false} MaskBit(b: Byte, k: int, j: int)
    requires 0 <= k < 8 && 0 <= j < 8
    ensures (b | Mask(k)) & Mask(j) != 0 <==> k == j || b & Mask(j) != 0
  {
  }

  /** Setting a bit sets that bit. */
  lemma {:induction false} SetBitAt(buf: seq<Byte>, i: nat, value: bool, j: nat)
    requires i / 8 < |buf| && j / 8 < |buf|
    ensures BitAt(SetBit(buf, i, value), j) <==> (i == j && value) || BitAt(buf, j)
  {
    hide Mask;
    if value && i / 8 == j / 8 {
      MaskBit(buf[i / 8], i % 8, j % 8);
    }
  }

  lemma {:induction false} ZeroBits(i: nat, n: nat)
    requires i / 8 < n
    ensures !BitAt(seq(n, _ => 0), i)
  {
  }

  /** The first `n` bits of a buffer. */
  function View(buf: seq<Byte>, n: nat): (s: seq<bool>)
    requires n <= 8 * |buf|
    ensures |s| == n && forall i :: 0 <= i < n ==> s[i] == BitAt(buf, i)
  {
    seq(n, i requires 0 <= i < n => BitAt(buf, i))
  }

  /** A buffer with one bit more. */
  lemma {:induction false} ViewMore(buf: seq<Byte>, n: nat, value: bool)
    requires n < 8 * |buf| && !BitAt(buf, n)
    ensures View(SetBit(buf, n, value), n + 1) == View(buf, n) + [value]
    ensures forall i :: n < i < 8 * |buf| && !BitAt(buf, i) ==> !BitAt(SetBit(buf, n, value), i)
  {
    hide BitAt, SetBit;
    forall i | 0 <= i < 8 * |buf|
      ensures BitAt(SetBit(buf, n, value), i) <==> (i == n && value) || BitAt(buf, i)
    {
      SetBitAt(buf, n, value, i);
    }
  }

  /** A direction-explicit bit stream under construction. */
  class Sequence {
    var direction: seq<Byte>
    var output: seq<Byte>
    var bits: nat

    constructor ()
      ensures Valid() && Directions() == [] && Outputs() == []
    {
      direction, output, bits := [], [], 0;
    }

    /** The buffers are just long enough, and the padding is zero. */
    ghost predicate Valid()
      reads this
    {
      && |direction| == |output| == (bits + 7) / 8
      && (forall i :: bits <= i < 8 * |direction| ==> !BitAt(direction, i))
      && (forall i :: bits <= i < 8 * |output| ==> !BitAt(output, i))
    }

    ghost function Directions(): seq<bool>
      requires Valid()
      reads this
    {
      View(direction, bits)
    }

    ghost function Outputs(): seq<bool>
      requires Valid()
      reads this
    {
      View(output, bits)
    }

    method Append(driven: bool, value: bool)
      requires Valid()
      modifies this
      ensures Valid() && Directions() == old(Directions()) + [driven] && Outputs() == old(Outputs()) + [value]
    {
      hide BitAt, SetBit;
      if bits % 8 == 0 {
        LongerView(direction, bits);
        LongerView(output, bits);
        direction, output := direction + [0], output + [0];
      }
      ViewMore(direction, bits, driven);
      ViewMore(output, bits, value);
      direction, output := SetBit(direction, bits, driven), SetBit(output, bits, value);
      bits := bits + 1;
    }

    method AppendN(n: nat, driven: bool, value: bool)
      requires Valid()
      modifies this
      ensures Valid()
      ensures Directions() == old(Directions()) + seq(n, _ => driven) &&
              Outputs() == old(Outputs()) + seq(n, _ => value)
    {
      hide BitAt;
      for i := 0 to n
        invariant Valid()
        invariant Directions() == old(Directions()) + seq(i, _ => driven) &&
                  Outputs() == old(Outputs()) + seq(i, _ => value)
      {
        Append(driven, value);
      }
    }

    method AppendBits(driven: bool, values: seq<bool>)
      requires Valid()
      modifies this
      ensures Valid()
      ensures Directions() == old(Directions()) + seq(|values|, _ => driven) && Outputs() == old(Outputs()) + values
    {
      hide BitAt;
      for i := 0 to |values|
        invariant Valid()
        invariant Directions() == old(Directions()) + seq(i, _ => driven) && Outputs() == old(Outputs()) + values[..i]
      {
        Append(driven, values[i]);
      }
    }
  }

  lemma {:induction false} LongerView(buf: seq<Byte>, n: nat)
    requires n == 8 * |buf|
    ensures View(buf + [0], n) == View(buf, n)
    ensures forall i :: n <= i < n + 8 ==> !BitAt(buf + [0], i)
  {
    hide Mask;
  }
}
