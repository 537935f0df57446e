/**
 * `improveCrossSection`: the hook through which the relic-density solver
 * lets the program replace the cross section it computed for a reaction
 * n1 n2 -> n3 n4.  The solver's value comes in through `*res`; the new
 * value of `*res` is the method's result.
 */
module Improve {
  import opened CInt
  import opened Pdg
  import opened CrossSectionTable

  /** What the program takes from the host framework. */
  datatype Host = Host(
    mass: int -> real,               // pMass(pdg2name(n))
    velocity: (real, real) -> real,  // v from the momentum and the first mass
    alphaStrong: real -> real,       // alpha_strong(q), the soft coupling
    alphaMo: real,                   // parton_alpha(GGscale), the hard coupling
    ids: ClosedForms)                // the ID_* closed forms

  /**
   * The diagnostics improveCrossSection prints itself, in the order it
   * prints them.  Two kinds of message are not among them: the NaN warning
   * (a real is never NaN), and the warnings that `xx_to_qq` / `xx_to_gg`
   * and the per-class functions print for an invalid spin or
   * representation on their way to returning 0.
   */
  datatype Warning =
    | ProcessIgnored   // no two coloured new particles in the initial state
    | MassesDiffer     // the two incoming masses are not equal
    | InvalidColor     // colour digit outside {3, 6, 8}
    | InvalidSpin      // spin digit outside 1..6
    | Mismatch         // uncorrected closed form disagrees with the solver
    | NoSommerfeld     // light final state that gets no correction
    | SetToZero        // final state outside the program's scope

  /** The initial state is not two heavy particles of colour at least 3. */
  predicate Ignored(n1: int, n2: int)
  {
    Abs(n1) < HeavyThreshold || Abs(n2) < HeavyThreshold || Color(n1) < 3 || Color(n2) < 3
  }

  predicate SamePair(n1: int, n2: int) { Abs(n1) == Abs(n2) }

  predicate IsQuark(n: int) { 1 <= Abs(n) <= 6 }

  predicate IsGluon(n: int) { n == 21 }

  predicate QuarkPair(n3: int, n4: int) { IsQuark(n3) && IsQuark(n4) }

  predicate GluonPair(n3: int, n4: int) { IsGluon(n3) && IsGluon(n4) }

  /** A reaction whose closed form replaces the solver's value. */
  predicate Corrected(n1: int, n2: int, n3: int, n4: int)
  {
    !Ignored(n1, n2) && SamePair(n1, n2) && (QuarkPair(n3, n4) || GluonPair(n3, n4))
  }

  /** Two light partons (quark or gluon) in the final state. */
  predicate LightFinal(n3: int, n4: int)
  {
    (IsGluon(n3) || IsQuark(n3)) && (IsGluon(n4) || IsQuark(n4))
  }

  /** The kinematics the closed forms are evaluated in. */
  function KinematicsOf(h: Host, n1: int, n2: int, pin: real): Kinematics
  {
    var m1 := h.mass(n1);
    var m2 := h.mass(n2);
    Kinematics(h.alphaMo, h.alphaStrong(pin), (m1 + m2) / 2.0, h.velocity(pin, m1))
  }

  /** The closed form for final state `final`, as `xx_to_qq` / `xx_to_gg` give it. */
  function ClosedForm(h: Host, final: FinalState, n1: int, n2: int, pin: real, sommerfeld: bool): real
  {
    XxTo(h.ids, final, KinematicsOf(h, n1, n2, pin), Color(n1), Spin(n1), sommerfeld)
  }

  /**
   * The test `fabs(1000 * (xsec - xsec_mo) / xsec_mo) > 1` as IEEE
   * arithmetic evaluates it: for `xsec_mo == 0` the quotient is an infinity
   * when `xsec != 0` (the test holds) and NaN when `xsec == 0` (it fails).
   */
  predicate MismatchAsWritten(xsec: real, mo: real)
  {
    if mo == 0.0 then xsec != 0.0
    else AbsReal(1000.0 * (xsec - mo) / mo) > 1.0
  }

  /** The test flags exactly a relative difference above 0.1 %, zero reference included. */
  lemma MismatchIsRelativeError(xsec: real, mo: real)
    ensures MismatchAsWritten(xsec, mo) <==> 1000.0 * AbsReal(xsec - mo) > AbsReal(mo)
  {
    if mo != 0.0 {
      var q := 1000.0 * (xsec - mo) / mo;
      QuotientTimesDivisor(1000.0 * (xsec - mo), mo);
      AbsMul(q, mo);
      AbsMul(1000.0, xsec - mo);
      ScaledComparison(AbsReal(q), AbsReal(mo), 1000.0 * AbsReal(xsec - mo));
    }
  }

  lemma QuotientTimesDivisor(d: real, y: real)
    requires y != 0.0
    ensures (d / y) * y == d
  {
  }

  lemma ScaledComparison(x: real, y: real, z: real)
    requires y > 0.0 && x * y == z
    ensures x > 1.0 <==> z > y
  {
    ScaleAboveOne(x, y);
  }

  lemma AbsMul(x: real, y: real)
    ensures AbsReal(x * y) == AbsReal(x) * AbsReal(y)
  {
    if x < 0.0 && y < 0.0 {
      assert x * y == (-x) * (-y);
    } else if x < 0.0 {
      assert -(x * y) == (-x) * y;
    } else if y < 0.0 {
      assert -(x * y) == x * (-y);
    }
  }

  lemma ScaleAboveOne(x: real, y: real)
    requires y > 0.0
    ensures x > 1.0 <==> x * y > y
  {
    if x > 1.0 {
      assert (x - 1.0) * y > 0.0;
    } else {
      assert (1.0 - x) * y >= 0.0;
    }
  }

  /** The warnings printed before any final state is looked at. */
  function Preamble(h: Host, n1: int, n2: int): (log: seq<Warning>)
    ensures MassesDiffer in log <==> h.mass(n1) != h.mass(n2)
    ensures InvalidColor in log <==> Color(n1) !in {3, 6, 8}
    ensures InvalidSpin in log <==> !(1 <= Spin(n1) <= 6)
    ensures ProcessIgnored !in log && Mismatch !in log && NoSommerfeld !in log && SetToZero !in log
  {
    (if h.mass(n1) != h.mass(n2) then [MassesDiffer] else [])
    + (if Color(n1) !in {3, 6, 8} then [InvalidColor] else [])
    + (if !(1 <= Spin(n1) <= 6) then [InvalidSpin] else [])
  }

  /**
   * improveCrossSection: `res0` is the solver's value of `*res`, `res` its
   * new value and `log` the warnings printed on the way.
   */
  method ImproveCrossSection(h: Host, sommerfeldOn: bool, n1: int, n2: int, n3: int, n4: int,
                             pin: real, res0: real)
    returns (res: real, log: seq<Warning>)
    // Not two heavy coloured particles: zero, and nothing else is printed.
    ensures Ignored(n1, n2) ==> res == 0.0 && log == [ProcessIgnored]
    // An identical pair annihilating into quarks or gluons: the closed form.
    ensures (!Ignored(n1, n2) && SamePair(n1, n2) && QuarkPair(n3, n4))
              ==> res == ClosedForm(h, Quarks, n1, n2, pin, sommerfeldOn)
    ensures (!Ignored(n1, n2) && SamePair(n1, n2) && GluonPair(n3, n4))
              ==> res == ClosedForm(h, Gluons, n1, n2, pin, sommerfeldOn)
    // Any other light final state: the solver's value stands.
    ensures !Ignored(n1, n2) && !Corrected(n1, n2, n3, n4) && LightFinal(n3, n4) ==> res == res0
    // Everything else is outside the program's scope.
    ensures !Ignored(n1, n2) && !LightFinal(n3, n4) ==> res == 0.0
    // The diagnostics.
    ensures ProcessIgnored in log <==> Ignored(n1, n2)
    ensures !Ignored(n1, n2) ==> Preamble(h, n1, n2) <= log && |log| <= |Preamble(h, n1, n2)| + 1
    ensures (!Ignored(n1, n2) && |log| > |Preamble(h, n1, n2)|)
              ==> log[|Preamble(h, n1, n2)|] in {Mismatch, NoSommerfeld, SetToZero}
    ensures Mismatch in log <==>
              Corrected(n1, n2, n3, n4) && !sommerfeldOn
              && 1000.0 * AbsReal(res - res0) > AbsReal(res0)
    ensures NoSommerfeld in log <==>
              !Ignored(n1, n2) && !Corrected(n1, n2, n3, n4) && LightFinal(n3, n4) && sommerfeldOn
    ensures SetToZero in log <==> !Ignored(n1, n2) && !LightFinal(n3, n4)
  {
    if Abs(n1) < HeavyThreshold || Abs(n2) < HeavyThreshold || Color(n1) < 3 || Color(n2) < 3 {
      return 0.0, [ProcessIgnored];
    }
    log := Preamble(h, n1, n2);
    if Abs(n1) == Abs(n2) && 1 <= Abs(n3) <= 6 && 1 <= Abs(n4) <= 6 {
      var xsec := ClosedForm(h, Quarks, n1, n2, pin, sommerfeldOn);
      if !sommerfeldOn && MismatchAsWritten(xsec, res0) {
        log := log + [Mismatch];
      }
      MismatchIsRelativeError(xsec, res0);
      return xsec, log;
    }
    if Abs(n1) == Abs(n2) && n3 == 21 && n4 == 21 {
      var xsec := ClosedForm(h, Gluons, n1, n2, pin, sommerfeldOn);
      if !sommerfeldOn && MismatchAsWritten(xsec, res0) {
        log := log + [Mismatch];
      }
      MismatchIsRelativeError(xsec, res0);
      return xsec, log;
    }
    if (n3 == 21 || 1 <= Abs(n3) <= 6) && (n4 == 21 || 1 <= Abs(n4) <= 6) {
      if sommerfeldOn {
        log := log + [NoSommerfeld];
      }
      return res0, log;
    }
    log := log + [SetToZero];
    res := 0.0;
  }
}
