/** Numbers as bit sequences, least significant bit first. */
module Bits {

  function Pow2(n: nat): (p: nat)
    ensures p > 0
  {
    if n == 0 then 1 else 2 * Pow2(n - 1)
  }

  function Bit(b: bool): nat {
    if b then 1 else 0
  }

  function Value(s: seq<bool>): (v: nat)
    ensures v < Pow2(|s|)
  {
    if s == [] then 0 else Bit(s[0]) + 2 * Value(s[1..])
  }

  function BitsOf(v: nat, n: nat): (s: seq<bool>)
    ensures |s| == n
  {
    if n == 0 then [] else [v % 2 == 1] + BitsOf(v / 2, n - 1)
  }

  lemma {:induction false} ValueOfBits(v: nat, n: nat)
    requires v < Pow2(n)
    ensures Value(BitsOf(v, n)) == v
  {
    if n > 0 {
      ValueOfBits(v / 2, n - 1);
      assert BitsOf(v, n)[1..] == BitsOf(v / 2, n - 1);
    }
  }

  lemma {:induction false} BitsOfValue(s: seq<bool>)
    ensures BitsOf(Value(s), |s|) == s
  {
    if s != [] {
      BitsOfValue(s[1..]);
      assert s == [s[0]] + s[1..];
    }
  }

  lemma {:induction false} ValueCons(b: bool, s: seq<bool>)
    ensures Value([b] + s) == Bit(b) + 2 * Value(s)
  {
    assert ([b] + s)[1..] == s;
  }

  /** One more significant bit. */
  lemma {:induction false} ValueMore(s: seq<bool>, b: bool)
    ensures Value(s + [b]) == Value(s) + Bit(b) * Pow2(|s|)
  {
    if s == [] {
      assert (s + [b])[1..] == [];
    } else {
      ValueMore(s[1..], b);
      assert (s + [b])[1..] == s[1..] + [b];
      assert Bit(b) * Pow2(|s|) == 2 * (Bit(b) * Pow2(|s| - 1));
    }
  }

  lemma {:induction false} AllOnes(s: seq<bool>)
    ensures Value(s) == Pow2(|s|) - 1 <==> forall i :: 0 <= i < |s| ==> s[i]
  {
    if s != [] {
      AllOnes(s[1..]);
      assert forall i :: 0 <= i < |s| - 1 ==> s[1..][i] == s[i + 1];
      if forall i :: 0 <= i < |s| ==> s[i] {
        assert s[0];
        assert forall i :: 0 <= i < |s| - 1 ==> s[1..][i];
      }
      if Value(s) == Pow2(|s|) - 1 {
        forall i | 0 <= i < |s|
          ensures s[i]
        {
          if i > 0 {
            assert s[1..][i - 1];
          }
        }
      }
    }
  }

  lemma {:induction false} Doubled(n: nat)
    ensures Pow2(n + 1) == 2 * Pow2(n)
  {
  }

  lemma {:induction false} PowGrows(a: nat, b: nat)
    requires a <= b
    ensures Pow2(a) <= Pow2(b)
  {
    if a < b {
      PowGrows(a, b - 1);
    }
  }

  /** A byte of wire data. */
  type Octet = b: nat | b < 256

  lemma {:induction false} SmallValue(s: seq<bool>)
    requires |s| <= 8
    ensures Value(s) < Pow2(|s|) <= 256
  {
    PowGrows(|s|, 8);
    assert Pow2(8) == 256;
  }

  lemma {:induction false} Pow32()
    ensures Pow2(32) == 0x1_0000_0000
  {
    assert Pow2(8) == 0x100;
    assert Pow2(16) == 0x1_0000;
    assert Pow2(24) == 0x100_0000;
  }
}
