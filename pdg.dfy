/**
 * Particle codes of the new coloured particles.  A code packs the colour
 * representation into its last two decimal digits and the spin code into
 * the two digits before them; only the magnitude of the code matters.
 */
module Pdg {
  import opened CInt
  import opened Wrappers

  /** Codes of magnitude at least this belong to the new heavy particles. */
  const HeavyThreshold: int := 9000000

  /** The three colour representations the program knows. */
  datatype Rep = Triplet | Sextet | Octet

  /** The representation's dimension, the number it is coded by. */
  function Dim(r: Rep): (d: int)
    ensures d in {3, 6, 8}
  {
    match r
    case Triplet => 3
    case Sextet => 6
    case Octet => 8
  }

  /** Reads a colour digit; anything but 3, 6 or 8 is no representation. */
  function RepOf(c: int): (r: Option<Rep>)
    ensures r.Some? <==> c in {3, 6, 8}
    ensures r.Some? ==> Dim(r.value) == c
  {
    if c == 3 then Some(Triplet)
    else if c == 6 then Some(Sextet)
    else if c == 8 then Some(Octet)
    else None
  }

  lemma RepOfDim(r: Rep)
    ensures RepOf(Dim(r)) == Some(r)
  {
  }

  /** The colour digit of a code: `abs(pdg) % 100`. */
  function Color(pdg: int): (c: int)
    ensures 0 <= c < 100
  {
    Abs(pdg) % 100
  }

  /** The spin digit of a code: `abs(pdg / 100) % 100` with C's truncating division. */
  function Spin(pdg: int): (s: int)
    ensures 0 <= s < 100
    ensures s == (Abs(pdg) / 100) % 100
  {
    Abs(CDiv(pdg, 100)) % 100
  }

  /** The sign of a code never changes its colour or spin. */
  lemma DecodeIgnoresSign(pdg: int)
    ensures Color(-pdg) == Color(pdg) && Spin(-pdg) == Spin(pdg)
  {
  }

  /**
   * A code built from a prefix `k`, a spin digit pair `s` and a colour digit
   * pair `c` decodes to exactly `s` and `c`, whatever its sign.
   */
  lemma {:induction false} DecodeDigits(k: nat, s: int, c: int, negative: bool)
    requires 0 <= s < 100 && 0 <= c < 100
    ensures var n := 10000 * k + 100 * s + c;
            var code := if negative then -n else n;
            Color(code) == c && Spin(code) == s
  {
    var n := 10000 * k + 100 * s + c;
    assert n / 100 == 100 * k + s by {
      assert n == 100 * (100 * k + s) + c;
    }
    assert n % 100 == c by {
      assert n == 100 * (100 * k + s) + c;
    }
    assert (100 * k + s) % 100 == s;
    DecodeIgnoresSign(n);
  }
}
