/** Rows of bit strings: laid end to end and taken apart again. */
module Rows {

  function Ones(n: nat): (s: seq<bool>)
    ensures |s| == n && forall i :: 0 <= i < n ==> s[i]
  {
    seq(n, _ => true)
  }

  function Zeros(n: nat): (s: seq<bool>)
    ensures |s| == n && forall i :: 0 <= i < n ==> !s[i]
  {
    seq(n, _ => false)
  }

  function Flat(parts: seq<seq<bool>>, n: nat): seq<bool>
    requires n <= |parts|
  {
    if n == 0 then [] else Flat(parts, n - 1) + parts[n - 1]
  }

  function Total(lens: seq<nat>, n: nat): (t: nat)
    requires n <= |lens|
  {
    if n == 0 then 0 else Total(lens, n - 1) + lens[n - 1]
  }

  lemma {:induction false} TotalGrows(lens: seq<nat>, a: nat, b: nat)
    requires a <= b <= |lens|
    ensures Total(lens, a) <= Total(lens, b)
  {
    if a < b {
      TotalGrows(lens, a, b - 1);
    }
  }

  /** Register `i` of a row. */
  function Part(bits: seq<bool>, lens: seq<nat>, i: nat): (p: seq<bool>)
    requires i < |lens| && |bits| >= Total(lens, |lens|)
    ensures |p| == lens[i]
  {
    TotalGrows(lens, i + 1, |lens|);
    bits[Total(lens, i)..Total(lens, i + 1)]
  }

  function Parts(bits: seq<bool>, lens: seq<nat>): (p: seq<seq<bool>>)
    requires |bits| >= Total(lens, |lens|)
    ensures |p| == |lens| && forall i :: 0 <= i < |p| ==> p[i] == Part(bits, lens, i)
  {
    seq(|lens|, i requires 0 <= i < |lens| => Part(bits, lens, i))
  }

  function Lens(parts: seq<seq<bool>>): (l: seq<nat>)
    ensures |l| == |parts| && forall i :: 0 <= i < |l| ==> l[i] == |parts[i]|
  {
    seq(|parts|, i requires 0 <= i < |parts| => |parts[i]|)
  }

  lemma {:induction false} FlatLength(parts: seq<seq<bool>>, n: nat)
    requires n <= |parts|
    ensures |Flat(parts, n)| == Total(Lens(parts), n)
  {
    if n > 0 {
      FlatLength(parts, n - 1);
    }
  }

  lemma {:induction false} FlatPrefix(parts: seq<seq<bool>>, a: nat, b: nat)
    requires a <= b <= |parts|
    ensures Flat(parts, a) <= Flat(parts, b)
  {
    if a < b {
      FlatPrefix(parts, a, b - 1);
    }
  }

  /** Bit `i` of register `k` in its row. */
  lemma {:induction false} FlatAt(parts: seq<seq<bool>>, k: nat, i: nat)
    requires k < |parts| && i < |parts[k]|
    ensures var at := |Flat(parts, k)| + i;
            at < |Flat(parts, |parts|)| && Flat(parts, |parts|)[at] == parts[k][i]
  {
    FlatPrefix(parts, k + 1, |parts|);
    assert Flat(parts, k + 1) == Flat(parts, k) + parts[k];
    assert Flat(parts, k + 1)[|Flat(parts, k)| + i] == parts[k][i];
  }

  /** Laying registers in a row and taking them apart again, whatever follows them. */
  lemma {:induction false} PartOfFlat(parts: seq<seq<bool>>, more: seq<bool>, i: nat)
    requires i < |parts|
    ensures |Flat(parts, |parts|) + more| >= Total(Lens(parts), |parts|)
    ensures Part(Flat(parts, |parts|) + more, Lens(parts), i) == parts[i]
  {
    FlatLength(parts, i);
    FlatLength(parts, i + 1);
    FlatLength(parts, |parts|);
    FlatPrefix(parts, i + 1, |parts|);
    var all := Flat(parts, |parts|) + more;
    assert Flat(parts, i + 1) == Flat(parts, i) + parts[i];
    assert all[..Total(Lens(parts), i + 1)] == Flat(parts, i + 1);
  }

  /** Slot `i` of a row of equally long parts. */
  lemma {:induction false} Slot(parts: seq<seq<bool>>, n: nat, i: nat)
    requires i < |parts| && forall k :: 0 <= k < |parts| ==> |parts[k]| == n
    ensures |Flat(parts, |parts|)| == n * |parts| && n * i + n <= n * |parts|
    ensures Flat(parts, |parts|)[n * i..n * i + n] == parts[i]
  {
    SlotLength(parts, n, |parts|);
    SlotLength(parts, n, i);
    SlotLength(parts, n, i + 1);
    FlatPrefix(parts, i + 1, |parts|);
    assert Flat(parts, i + 1) == Flat(parts, i) + parts[i];
    assert Flat(parts, |parts|)[..n * i + n] == Flat(parts, i + 1);
  }

  lemma {:induction false} SlotLength(parts: seq<seq<bool>>, n: nat, k: nat)
    requires k <= |parts| && forall j :: 0 <= j < |parts| ==> |parts[j]| == n
    ensures |Flat(parts, k)| == n * k
  {
    if k > 0 {
      SlotLength(parts, n, k - 1);
    }
  }

  lemma {:induction false} SlicePart<T>(s: seq<T>, a: nat, b: nat, i: nat, j: nat)
    requires a <= b <= |s| && i <= j && a + j <= b
    ensures s[a..b][i..j] == s[a + i..a + j]
  {
    var x, y := s[a..b][i..j], s[a + i..a + j];
    assert |x| == |y|;
    forall k | 0 <= k < |x|
      ensures x[k] == y[k]
    {
      assert x[k] == s[a..b][i + k] == s[a + i + k];
    }
  }
}
