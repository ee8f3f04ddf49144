/**
 The number that stands for a method: Szudzik's pairing of class and method index.
 */
module Pairing {
  function SzudzikPairing(a: int, b: int): int {
    if a >= b then a * a + a + b else a + b * b
  }

  // The largest number whose square is at most z.
  function Root(z: nat): (s: nat)
    ensures s * s <= z < (s + 1) * (s + 1)
  {
    if z == 0 then 0
    else
      var s := Root(z - 1);
      if (s + 1) * (s + 1) <= z then
        RootStep(s, z);
        s + 1
      else s
  }

  lemma RootStep(s: nat, z: nat)
    requires z - 1 < (s + 1) * (s + 1) <= z
    ensures z < (s + 2) * (s + 2)
  {
    assert (s + 2) * (s + 2) == (s + 1) * (s + 1) + 2 * s + 3;
  }

  function Unpair(z: nat): (nat, nat) {
    var s := Root(z);
    var r := z - s * s;
    if r < s then (r, s)
    else
      assert (s + 1) * (s + 1) == s * s + 2 * s + 1;
      (s, r - s)
  }

  lemma RootUnique(z: nat, s: nat)
    requires s * s <= z < (s + 1) * (s + 1)
    ensures Root(z) == s
  {
    var r := Root(z);
    if r < s {
      SquaresGrow(r + 1, s);
    } else if s < r {
      SquaresGrow(s + 1, r);
    }
  }

  lemma SquaresGrow(a: nat, b: nat)
    requires a <= b
    ensures a * a <= b * b
  {
    assert b * b - a * a == (b - a) * (b + a);
  }

  /** Class and method index can be read back from the number. */
  lemma UnpairOfPair(a: nat, b: nat)
    ensures SzudzikPairing(a, b) >= 0 && Unpair(SzudzikPairing(a, b)) == (a, b)
  {
    var s := if a >= b then a else b;
    assert (s + 1) * (s + 1) == s * s + 2 * s + 1;
    RootUnique(SzudzikPairing(a, b), s);
  }

  /** Every natural number stands for one pair. */
  lemma PairOfUnpair(z: nat)
    ensures SzudzikPairing(Unpair(z).0, Unpair(z).1) == z
  {
    var s := Root(z);
    assert (s + 1) * (s + 1) == s * s + 2 * s + 1;
  }

  /** Different methods have different numbers. */
  lemma PairingInjective(a: nat, b: nat, c: nat, d: nat)
    ensures SzudzikPairing(a, b) == SzudzikPairing(c, d) <==> a == c && b == d
  {
    UnpairOfPair(a, b);
    UnpairOfPair(c, d);
  }

  /** The pairs of numbers below m have the numbers below its square: the shells are filled one
      after another. */
  lemma ShellExactly(a: nat, b: nat, m: nat)
    ensures SzudzikPairing(a, b) < m * m <==> a < m && b < m
  {
    var s := if a >= b then a else b;
    assert (s + 1) * (s + 1) == s * s + 2 * s + 1;
    if s < m { SquaresGrow(s + 1, m); } else { SquaresGrow(m, s); }
  }

  /** For non-negative 32-bit indices the number, and every intermediate result, fits a signed 64-bit integer. */
  lemma FitsLong(a: nat, b: nat)
    requires a < 0x8000_0000 && b < 0x8000_0000
    ensures a * a + a + b < 0x4000_0000_0000_0000 && a + b * b < 0x4000_0000_0000_0000
    ensures 0 <= SzudzikPairing(a, b) < 0x8000_0000_0000_0000
  {
    SquaresGrow(a, 0x7fff_ffff);
    SquaresGrow(b, 0x7fff_ffff);
  }
}
