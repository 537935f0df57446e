/**
 * The bound-state formation pipeline of the colored dark sector: the
 * Casimir table, the bound-state couplings built from the alpha table
 * (`zeta`, `zetap`, `kappa`), the binding energy and Bohr radius, the
 * dissociation cross section `sigmaDiss` with its small-velocity special
 * case, the bound-state decay width `GammaBS`, the rate
 * `bound_state_rate` that combines the ground and the spin-2 channel, and
 * the entry point `improveAveragedCrossSection`.
 *
 * The transcendental functions (`exp`, `atan`, `sqrt`, pi), the coupling
 * `parton_alpha(GGscale)`, the Bessel ratio and the two integrands are
 * parameters.  Every formula is evaluated in double precision by the
 * program; here it is evaluated exactly, and a quotient whose divisor is 0
 * (an infinity or NaN in IEEE arithmetic) is reported as `NonFinite`.
 */
module BoundState {
  import opened Wrappers
  import opened CInt
  import opened Pdg
  import AlphaTable
  import Simpson
  import CrossSectionTable

  /** Why an evaluation does not produce a finite number. */
  datatype Failure =
    | Exit(code: int)   // the program terminates with this status
    | OutOfTable        // the alpha table is read outside its buffer
    | NonFinite         // a quotient by zero: an infinity or NaN

  type Outcome = Result<real, Failure>

  /** The mathematical library the formulas call. */
  datatype Math = Math(exp: real -> real, atan: real -> real, sqrt: real -> real, pi: real)

  /** What the formulas rely on of the library's functions. */
  ghost predicate Lawful(mt: Math)
  {
    && mt.pi > 0.0
    && (forall x :: mt.exp(x) > 0.0)
    && (forall x :: x < 0.0 ==> mt.exp(x) < 1.0)
    && (forall x :: x > 0.0 ==> 0.0 < mt.atan(x) < mt.pi / 2.0)
    && (forall x :: x > 0.0 ==> mt.sqrt(x) > 0.0)
  }

  /** The `Parameters` bundle handed to an integrand. */
  datatype Pars = Pars(spin: int, color: int, m: real, T: real)

  /**
   * Everything the pipeline reads besides its arguments: the alpha table,
   * `parton_alpha(GGscale)`, the mathematical library, the Bessel ratio
   * `bessK1(x) / bessK2(x)` (None where it is NaN) and the integrands of
   * the dissociation width and of the averaged formation cross section.
   */
  datatype Env = Env(
    table: seq<real>,
    alphaGG: real,
    math: Math,
    besselRatio: real -> Option<real>,
    dissIntegrand: (Pars, real) -> real,
    bsfIntegrand: (Pars, real) -> real)

  /** Below this relative velocity `sigmaDiss` takes its limiting form. */
  const SmallU: real := 0.000001

  /** The tolerance of the two integrations. */
  const Tolerance: real := 0.000001

  /** The exponent below which `exp_cut` returns 0 instead of underflowing. */
  const CutOff: real := -50.0

  function Sq(x: real): (r: real)
    ensures r >= 0.0
  {
    x * x
  }

  /** exp_cut: the exponential, flushed to 0 below the cut-off. */
  function ExpCut(mt: Math, x: real): real
  {
    if x < CutOff then 0.0 else mt.exp(x)
  }

  lemma ExpCutOfNegative(mt: Math, x: real)
    requires Lawful(mt) && x < 0.0
    ensures 0.0 <= ExpCut(mt, x) < 1.0
    ensures x < CutOff ==> ExpCut(mt, x) == 0.0
  {
  }

  // ---------------------------------------------------------------------
  // The Casimir table and the couplings.

  /** casimir2: the quadratic Casimir of the colour representation; any other colour exits with 42. */
  function Casimir2(color: int): (r: Outcome)
    ensures r.Ok? <==> RepOf(color).Some?
    ensures r.Err? ==> r.error == Exit(42)
  {
    if color == 3 then Ok(4.0 / 3.0)
    else if color == 6 then Ok(10.0 / 3.0)
    else if color == 8 then Ok(3.0)
    else Err(Exit(42))
  }

  /** The Dynkin labels (p, q) of each representation. */
  function DynkinLabels(r: Rep): (int, int)
  {
    match r
    case Triplet => (1, 0)
    case Sextet => (2, 0)
    case Octet => (1, 1)
  }

  /** The SU(3) quadratic Casimir of the representation with Dynkin labels (p, q). */
  function QuadraticCasimir(p: int, q: int): real
  {
    ((p * p + q * q + p * q + 3 * p + 3 * q) as real) / 3.0
  }

  /** The table agrees with the group-theoretic formula on every representation. */
  lemma Casimir2IsQuadraticCasimir(r: Rep)
    ensures Casimir2(Dim(r)) == Ok(QuadraticCasimir(DynkinLabels(r).0, DynkinLabels(r).1))
  {
    match r
    case Triplet =>
    case Sextet =>
    case Octet =>
      assert QuadraticCasimir(1, 1) == 3.0;
  }

  /** casimir2 - 3/2 is negative exactly for the triplet: the potential `zetap` is repulsive only there. */
  lemma CasimirBelowThreeHalves(color: int)
    requires Casimir2(color).Ok?
    ensures Casimir2(color).value - 1.5 < 0.0 <==> color == 3
    ensures Casimir2(color).value - 1.5 != 0.0
  {
  }

  /** The alpha table entry for the colour and mass, or the out-of-buffer read. */
  function AlphaBs(env: Env, color: int, m: real): (r: Outcome)
    ensures r.Ok? <==> AlphaTable.AlphaSBs(color, m, env.table).Some?
  {
    match AlphaTable.AlphaSBs(color, m, env.table)
    case None => Err(OutOfTable)
    case Some(alpha) => Ok(alpha)
  }

  /**
   * zeta: casimir2 times the table coupling.  For a colour outside
   * {3, 6, 8} the table read uses an uninitialised index whose value is
   * discarded when casimir2 exits; the model reports the exit.
   */
  function Zeta(env: Env, color: int, m: real): (r: Outcome)
    ensures RepOf(color).None? ==> r == Err(Exit(42))
    ensures RepOf(color).Some? ==> (r.Ok? <==> AlphaTable.AlphaSBs(color, m, env.table).Some?)
  {
    var c :- Casimir2(color);
    var alpha :- AlphaBs(env, color, m);
    Ok(c * alpha)
  }

  /** zetap: (casimir2 - 3/2) times the table coupling. */
  function ZetaP(env: Env, color: int, m: real): (r: Outcome)
    ensures RepOf(color).None? ==> r == Err(Exit(42))
    ensures RepOf(color).Some? ==> (r.Ok? <==> AlphaTable.AlphaSBs(color, m, env.table).Some?)
  {
    var c :- Casimir2(color);
    var alpha :- AlphaBs(env, color, m);
    Ok((c - 1.5) * alpha)
  }

  /** kappa: zeta / |zetap|. */
  function Kappa(env: Env, color: int, m: real): Outcome
  {
    var z :- Zeta(env, color, m);
    var zp :- ZetaP(env, color, m);
    if zp == 0.0 then Err(NonFinite) else Ok(z / AbsReal(zp))
  }

  /**
   * With a positive coupling, zeta is positive, zetap is negative exactly
   * for the triplet, and kappa is 8, 20/11 or 2: the ratio of casimir2 to
   * |casimir2 - 3/2|, whatever the coupling.
   */
  lemma CouplingsOfPositiveAlpha(env: Env, color: int, m: real, alpha: real)
    requires RepOf(color).Some? && AlphaTable.AlphaSBs(color, m, env.table) == Some(alpha) && alpha > 0.0
    ensures Zeta(env, color, m).Ok? && Zeta(env, color, m).value > 0.0
    ensures ZetaP(env, color, m).Ok? && (ZetaP(env, color, m).value < 0.0 <==> color == 3)
    ensures Kappa(env, color, m) == Ok(if color == 3 then 8.0 else if color == 6 then 20.0 / 11.0 else 2.0)
  {
    var c := Casimir2(color).value;
    CasimirBelowThreeHalves(color);
    Simpson.PositiveProduct(c, alpha);
    assert Zeta(env, color, m) == Ok(c * alpha);
    var zp := (c - 1.5) * alpha;
    assert ZetaP(env, color, m) == Ok(zp);
    if color == 3 {
      ScaledRatio(c, 1.5 - c, alpha);
      assert AbsReal(zp) == (1.5 - c) * alpha;
      Simpson.PositiveProduct(1.5 - c, alpha);
    } else {
      ScaledRatio(c, c - 1.5, alpha);
      Simpson.PositiveProduct(c - 1.5, alpha);
    }
  }

  /** Scaling the numerator and the denominator by the same positive factor leaves a quotient unchanged. */
  lemma ScaledRatio(x: real, y: real, a: real)
    requires y > 0.0 && a > 0.0
    ensures y * a > 0.0
    ensures (x * a) / (y * a) == x / y
  {
    var q := x / y;
    assert x == q * y;
    assert x * a == q * (y * a);
  }

  /** A zero coupling makes kappa non-finite (0 / 0 in the program). */
  lemma KappaOfZeroAlpha(env: Env, color: int, m: real)
    requires RepOf(color).Some? && AlphaTable.AlphaSBs(color, m, env.table) == Some(0.0)
    ensures Kappa(env, color, m) == Err(NonFinite)
  {
  }

  /** BE: the binding energy zeta^2 m / 4. */
  function BE(env: Env, color: int, m: real): Outcome
  {
    var z :- Zeta(env, color, m);
    Ok(Sq(z) * m / 4.0)
  }

  /** bohr_radius: 2 / (zeta m). */
  function BohrRadius(env: Env, color: int, m: real): Outcome
  {
    var z :- Zeta(env, color, m);
    if z * m == 0.0 then Err(NonFinite) else Ok(2.0 / (z * m))
  }

  /** nu: sqrt(z / u) / kappa. */
  function Nu(env: Env, color: int, m: real, z: real, u: real): Outcome
  {
    var k :- Kappa(env, color, m);
    if k == 0.0 || u == 0.0 then Err(NonFinite) else Ok(1.0 / k * env.math.sqrt(z / u))
  }

  // ---------------------------------------------------------------------
  // The dissociation cross section.

  /** `(spin - 1) % 2 == 0` with C's truncating remainder: an odd spin code. */
  predicate OddSpinCode(spin: int)
  {
    CMod(spin - 1, 2) == 0
  }

  lemma OddSpinCodeIsParity(spin: int)
    ensures OddSpinCode(spin) <==> spin % 2 == 1
  {
    var q, r := CDiv(spin - 1, 2), CMod(spin - 1, 2);
    assert spin == 2 * q + r + 1;
    if r == 0 {
      assert spin == 2 * q + 1;
    } else if r == 1 {
      assert spin == 2 * (q + 1);
    } else {
      assert spin == 2 * q;
    }
  }

  /**
   * The factor that tells the attractive from the repulsive potential.
   * Above SmallU it is a Sommerfeld-like exponential in v; at or below,
   * the limit u -> 0: exp_cut(-4 / k) / k^3 if attractive, 0 if repulsive.
   */
  function BranchFactor(mt: Math, attractive: bool, k: real, u: real, v: real): real
    requires k != 0.0 && (u > SmallU ==> v != 0.0)
  {
    if u > SmallU then
      var t := 4.0 * v * mt.atan(1.0 / (k * v));
      if attractive then ExpCut(mt, -t) else ExpCut(mt, t - 2.0 * mt.pi * v)
    else if attractive then ExpCut(mt, -4.0 / k) / (k * k * k)
    else 0.0
  }

  /** The gluon energy omega = E (1 + u / z). */
  function Omega(E: real, u: real, z: real): real
    requires z != 0.0
  {
    E * (1.0 + u / z)
  }

  /** The velocity-independent coefficient 512 pi^2 / 3 alphaS a^2 (E / omega)^4. */
  function DissCoeff(mt: Math, alphaGG: real, a: real, E: real, omega: real): real
    requires omega != 0.0
  {
    512.0 * Sq(mt.pi) / 3.0 * alphaGG * Sq(a) * Sq(Sq(E / omega))
  }

  /** The exponent -2 pi v of the Sommerfeld factor. */
  function SommerfeldExponent(mt: Math, v: real): real
  {
    -2.0 * mt.pi * v
  }

  /** The denominator k (1 - exp_cut(-2 pi v)) of the Sommerfeld factor. */
  function Damping(mt: Math, k: real, v: real): real
  {
    k * (1.0 - ExpCut(mt, SommerfeldExponent(mt, v)))
  }

  /** (1 + v^2) / (1 + (k v)^2) / damping. */
  function VelocityFactor(k: real, v: real, damping: real): real
    requires damping != 0.0
  {
    (1.0 + Sq(v)) / (1.0 + Sq(k * v)) / damping
  }

  /**
   * The formula of sigmaDiss once the couplings are known: prefact is
   * casimir2 / 8 times the symmetry factor, k the coupling ratio kappa, E
   * the binding energy, a the Bohr radius, z = E / T, and v the value of
   * nu (read only above SmallU).
   */
  function DissFormula(mt: Math, alphaGG: real, prefact: real, attractive: bool,
                       k: real, E: real, a: real, z: real, u: real, v: real): Outcome
    requires k != 0.0 && z != 0.0
  {
    var omega := Omega(E, u, z);
    if omega == 0.0 then Err(NonFinite)
    else
      var coeff := DissCoeff(mt, alphaGG, a, E, omega);
      if u > SmallU then
        var damping := Damping(mt, k, v);
        if v == 0.0 || damping == 0.0 then Err(NonFinite)
        else Ok(prefact * (coeff * VelocityFactor(k, v, damping)) * BranchFactor(mt, attractive, k, u, v))
      else
        Ok(prefact * coeff * BranchFactor(mt, attractive, k, u, v))
  }

  /** casimir2 / 8, doubled for an odd spin code. */
  function DissPrefactor(spin: int, c: real): real
  {
    1.0 / 8.0 * c * (if OddSpinCode(spin) then 2.0 else 1.0)
  }

  /**
   * sigmaDiss: the cross section for a gluon to dissociate the bound state
   * at relative kinetic energy u (in units of the temperature).
   */
  function SigmaDiss(env: Env, spin: int, color: int, m: real, T: real, u: real): Outcome
  {
    var zetp :- ZetaP(env, color, m);
    var k :- Kappa(env, color, m);
    var E :- BE(env, color, m);
    var a :- BohrRadius(env, color, m);
    if T == 0.0 || E == 0.0 || k == 0.0 then Err(NonFinite)
    else
      var z := E / T;
      var c :- Casimir2(color);
      var v :- if u > SmallU then Nu(env, color, m, z, u) else Ok(0.0);
      DissFormula(env.math, env.alphaGG, DissPrefactor(spin, c), zetp > 0.0, k, E, a, z, u, v)
  }

  /** At small u the repulsive branch factor is exactly 0, the attractive one exp_cut(-4/k)/k^3. */
  lemma BranchFactorAtThreshold(mt: Math, attractive: bool, k: real, u: real, v: real)
    requires k != 0.0 && u <= SmallU
    ensures !attractive ==> BranchFactor(mt, attractive, k, u, v) == 0.0
    ensures attractive ==> BranchFactor(mt, attractive, k, u, v) == ExpCut(mt, -4.0 / k) / (k * k * k)
  {
  }

  /** Above the threshold the branch factor is a suppression: it lies in [0, 1). */
  lemma BranchFactorIsSuppression(mt: Math, attractive: bool, k: real, u: real, v: real)
    requires Lawful(mt) && k > 0.0 && v > 0.0 && u > SmallU
    ensures 0.0 <= BranchFactor(mt, attractive, k, u, v) < 1.0
  {
    var x := 1.0 / (k * v);
    assert k * v > 0.0;
    assert 0.0 < mt.atan(x) < mt.pi / 2.0;
    var t := 4.0 * v * mt.atan(x);
    assert t > 0.0 by {
      assert v * mt.atan(x) > 0.0;
    }
    assert t < 2.0 * mt.pi * v by {
      assert v * mt.atan(x) < v * (mt.pi / 2.0);
    }
    if attractive {
      ExpCutOfNegative(mt, -t);
    } else {
      ExpCutOfNegative(mt, t - 2.0 * mt.pi * v);
    }
  }

  /**
   * For the triplet (repulsive potential, with a positive coupling) at
   * u <= 1e-6, the dissociation cross section is exactly 0 wherever it is
   * finite.
   */
  lemma SigmaDissRepulsiveAtThreshold(env: Env, spin: int, m: real, T: real, u: real, alpha: real)
    requires AlphaTable.AlphaSBs(3, m, env.table) == Some(alpha) && alpha > 0.0 && u <= SmallU
    ensures SigmaDiss(env, spin, 3, m, T, u).Ok? ==> SigmaDiss(env, spin, 3, m, T, u).value == 0.0
  {
    CouplingsOfPositiveAlpha(env, 3, m, alpha);
    assert ZetaP(env, 3, m).value < 0.0;
  }

  /** With a positive coupling and mass, the binding energy, Bohr radius and kappa are positive. */
  lemma ScalesOfPositiveAlpha(env: Env, color: int, m: real, alpha: real)
    requires RepOf(color).Some? && AlphaTable.AlphaSBs(color, m, env.table) == Some(alpha) && alpha > 0.0 && m > 0.0
    ensures BE(env, color, m).Ok? && BE(env, color, m).value > 0.0
    ensures BohrRadius(env, color, m).Ok? && BohrRadius(env, color, m).value > 0.0
    ensures Kappa(env, color, m).Ok? && Kappa(env, color, m).value > 0.0
  {
    CouplingsOfPositiveAlpha(env, color, m, alpha);
    var z := Zeta(env, color, m).value;
    Simpson.PositiveProduct(z, m);
    Simpson.PositiveProduct(z, z * m);
    assert Sq(z) * m == z * (z * m);
  }

  // The sign of each factor of the sigmaDiss formula, one lemma per factor;
  // helpers for DissFormulaNonNegative.

  lemma OmegaPositive(E: real, u: real, z: real)
    requires E > 0.0 && u >= 0.0 && z > 0.0
    ensures Omega(E, u, z) > 0.0
  {
    Simpson.PositiveProduct(E, 1.0 + u / z);
  }

  lemma DissCoeffNonNegative(mt: Math, alphaGG: real, a: real, E: real, omega: real)
    requires alphaGG >= 0.0 && omega != 0.0
    ensures DissCoeff(mt, alphaGG, a, E, omega) >= 0.0
  {
    Simpson.NonNegativeProduct(512.0 * Sq(mt.pi) / 3.0, alphaGG);
    Simpson.NonNegativeProduct(512.0 * Sq(mt.pi) / 3.0 * alphaGG, Sq(a));
    Simpson.NonNegativeProduct(512.0 * Sq(mt.pi) / 3.0 * alphaGG * Sq(a), Sq(Sq(E / omega)));
  }

  lemma SommerfeldExponentNegative(mt: Math, v: real)
    requires mt.pi > 0.0 && v > 0.0
    ensures SommerfeldExponent(mt, v) < 0.0
  {
    Simpson.PositiveProduct(mt.pi, v);
  }

  lemma DampingPositive(mt: Math, k: real, v: real)
    requires Lawful(mt) && k > 0.0 && v > 0.0
    ensures Damping(mt, k, v) > 0.0
  {
    SommerfeldExponentNegative(mt, v);
    ExpCutOfNegative(mt, SommerfeldExponent(mt, v));
    Simpson.PositiveProduct(k, 1.0 - ExpCut(mt, SommerfeldExponent(mt, v)));
  }

  lemma VelocityFactorPositive(k: real, v: real, damping: real)
    requires damping > 0.0
    ensures VelocityFactor(k, v, damping) > 0.0
  {
  }

  /** The formula is finite and non-negative for positive scales and a lawful library. */
  lemma DissFormulaNonNegative(mt: Math, alphaGG: real, prefact: real, attractive: bool,
                               k: real, E: real, a: real, z: real, u: real, v: real)
    requires Lawful(mt) && alphaGG >= 0.0 && prefact > 0.0
    requires k > 0.0 && E > 0.0 && z > 0.0 && u >= 0.0 && (u > SmallU ==> v > 0.0)
    ensures DissFormula(mt, alphaGG, prefact, attractive, k, E, a, z, u, v).Ok?
    ensures DissFormula(mt, alphaGG, prefact, attractive, k, E, a, z, u, v).value >= 0.0
  {
    var omega := Omega(E, u, z);
    OmegaPositive(E, u, z);
    var coeff := DissCoeff(mt, alphaGG, a, E, omega);
    DissCoeffNonNegative(mt, alphaGG, a, E, omega);
    var b := BranchFactor(mt, attractive, k, u, v);
    if u > SmallU {
      var damping := Damping(mt, k, v);
      DampingPositive(mt, k, v);
      var vf := VelocityFactor(k, v, damping);
      VelocityFactorPositive(k, v, damping);
      BranchFactorIsSuppression(mt, attractive, k, u, v);
      Simpson.NonNegativeProduct(coeff, vf);
      Simpson.NonNegativeProduct(prefact, coeff * vf);
      Simpson.NonNegativeProduct(prefact * (coeff * vf), b);
    } else {
      assert b >= 0.0 by {
        if attractive {
          ExpCutOfNegative(mt, -4.0 / k);
        }
      }
      Simpson.NonNegativeProduct(prefact, coeff);
      Simpson.NonNegativeProduct(prefact * coeff, b);
    }
  }

  /**
   * In the physical regime (a lawful library, non-negative gluon coupling,
   * positive table coupling, mass and temperature, u >= 0) the
   * dissociation cross section is finite and non-negative.
   */
  lemma SigmaDissNonNegative(env: Env, spin: int, color: int, m: real, T: real, u: real, alpha: real)
    requires Lawful(env.math) && env.alphaGG >= 0.0
    requires RepOf(color).Some? && AlphaTable.AlphaSBs(color, m, env.table) == Some(alpha) && alpha > 0.0
    requires m > 0.0 && T > 0.0 && u >= 0.0
    ensures SigmaDiss(env, spin, color, m, T, u).Ok? && SigmaDiss(env, spin, color, m, T, u).value >= 0.0
  {
    CouplingsOfPositiveAlpha(env, color, m, alpha);
    ScalesOfPositiveAlpha(env, color, m, alpha);
    var k := Kappa(env, color, m).value;
    var E := BE(env, color, m).value;
    var z := E / T;
    assert z > 0.0;
    var c := Casimir2(color).value;
    assert DissPrefactor(spin, c) > 0.0;
    var v := 0.0;
    if u > SmallU {
      assert z / u > 0.0;
      v := 1.0 / k * env.math.sqrt(z / u);
      assert Nu(env, color, m, z, u) == Ok(v);
      Simpson.PositiveProduct(1.0 / k, env.math.sqrt(z / u));
    }
    DissFormulaNonNegative(env.math, env.alphaGG, DissPrefactor(spin, c), ZetaP(env, color, m).value > 0.0,
                           k, E, BohrRadius(env, color, m).value, z, u, v);
  }

  // ---------------------------------------------------------------------
  // The bound-state decay width.

  /** The colour factor of GammaBS; 0 for a colour outside {3, 6, 8}. */
  function ColorFactor(color: int): real
  {
    if color == 3 then 1.0 / 6.0
    else if color == 6 then 25.0 / 12.0
    else if color == 8 then 9.0 / 4.0
    else 0.0
  }

  /** The excited-state factor: 1 for the ground state, 16/3 for a spin-2 state of vectors, else 0. */
  function SpinEtaFactor(spin: int, spinEta: int): real
  {
    if spinEta > 0 then (if spin == 5 || spin == 6 then 16.0 / 3.0 else 0.0) else 1.0
  }

  /** The number of spin states counted by `(spin - 1) / 2 + 1`, in C's integer division. */
  function SpinMultiplicity(spin: int): int
  {
    CDiv(spin - 1, 2) + 1
  }

  /** The number of spin states of one particle of each spin class. */
  function SpinStates(c: CrossSectionTable.SpinClass): int
  {
    match c
    case ScalarPair => 1
    case FermionPair => 2
    case VectorPair => 3
  }

  /**
   * On the six spin codes, `(spin - 1) / 2 + 1` counts the spin states of
   * the class the code belongs to, and the odd codes 1, 3, 5 are the ones
   * with the symmetry factor.
   */
  lemma SpinCodeFactors(spin: int)
    requires CrossSectionTable.SpinClassOf(spin).Some?
    ensures SpinMultiplicity(spin) == SpinStates(CrossSectionTable.SpinClassOf(spin).value)
    ensures OddSpinCode(spin) <==> spin in {1, 3, 5}
  {
    OddSpinCodeIsParity(spin);
    assert CDiv(spin - 1, 2) == (spin - 1) / 2;
  }

  /** g_freedom: the internal degrees of freedom, spin states times colour. */
  function GFreedom(spin: int, color: int): int
  {
    SpinMultiplicity(spin) * color
  }

  /** For a valid spin code, the degrees of freedom are the spin states of its class times the colour dimension. */
  lemma GFreedomCountsStates(spin: int, r: Rep)
    requires CrossSectionTable.SpinClassOf(spin).Some?
    ensures GFreedom(spin, Dim(r)) == SpinStates(CrossSectionTable.SpinClassOf(spin).value) * Dim(r)
  {
    SpinCodeFactors(spin);
  }

  /** GammaBS: the decay width of the bound state. */
  function GammaBS(env: Env, spin: int, color: int, m: real, spinEta: int): Outcome
  {
    var zet :- Zeta(env, color, m);
    var symmetry := if OddSpinCode(spin) then 0.5 else 1.0;
    Ok(ColorFactor(color) * (SpinMultiplicity(spin) as real) * symmetry * SpinEtaFactor(spin, spinEta)
       * m * Sq(env.alphaGG) * (zet * zet * zet))
  }

  /**
   * A colour outside {3, 6, 8} never reaches the 0 colour factor: zeta
   * exits first.  An excited state of anything but vectors has width 0.
   */
  lemma GammaBSFactors(env: Env, spin: int, color: int, m: real, spinEta: int)
    ensures RepOf(color).None? ==> GammaBS(env, spin, color, m, spinEta) == Err(Exit(42))
    ensures spinEta > 0 && spin != 5 && spin != 6 && GammaBS(env, spin, color, m, spinEta).Ok?
            ==> GammaBS(env, spin, color, m, spinEta).value == 0.0
    ensures spinEta > 0 && (spin == 5 || spin == 6) ==> SpinEtaFactor(spin, spinEta) == 16.0 / 3.0
  {
  }

  /** GammaBSaveraged: the width times the Bessel ratio at mBS / T, with NaN replaced by 1. */
  function GammaBSAveraged(env: Env, spin: int, color: int, m: real, spinEta: int, T: real): Outcome
  {
    var E :- BE(env, color, m);
    if T == 0.0 then Err(NonFinite)
    else
      var ratio := match env.besselRatio((2.0 * m - E) / T) case None => 1.0 case Some(r) => r;
      var g :- GammaBS(env, spin, color, m, spinEta);
      Ok(g * ratio)
  }

  // ---------------------------------------------------------------------
  // The two integrals and the rate.

  /** GammaDiss: the dissociation width, integrated over [0, z / 4 / zeta^2]. */
  function GammaDiss(env: Env, spin: int, color: int, m: real, T: real): Outcome
  {
    var E :- BE(env, color, m);
    var zet :- Zeta(env, color, m);
    if T == 0.0 || Sq(zet) == 0.0 then Err(NonFinite)
    else
      var pars := Pars(spin, color, m, T);
      Ok(Simpson.Integrate(x => env.dissIntegrand(pars, x), 0.0, E / T / 4.0 / Sq(zet), Tolerance))
  }

  /**
   * sigmaBSFaveraged: the averaged formation cross section, integrated over
   * [0, 1].  The binding energy and coupling it computes are unused, but
   * computing them exits for an invalid colour.
   */
  function SigmaBSFAveraged(env: Env, spin: int, color: int, m: real, T: real): Outcome
  {
    var E :- BE(env, color, m);
    var zet :- Zeta(env, color, m);
    var pars := Pars(spin, color, m, T);
    Ok(Simpson.Integrate(x => env.bsfIntegrand(pars, x), 0.0, 1.0, Tolerance))
  }

  /**
   * A colour outside {3, 6, 8} exits with 42 from each width and the rate:
   * every one of them computes zeta, even sigmaBSFaveraged, which then
   * does not use it.
   */
  lemma InvalidColourExits(env: Env, spin: int, color: int, m: real, T: real, spinEta: int)
    requires RepOf(color).None?
    ensures GammaBSAveraged(env, spin, color, m, spinEta, T) == Err(Exit(42))
    ensures GammaDiss(env, spin, color, m, T) == Err(Exit(42))
    ensures SigmaBSFAveraged(env, spin, color, m, T) == Err(Exit(42))
    ensures BoundStateRate(env, spin, color, m, T) == Err(Exit(42))
  {
  }

  /** Where the Bessel ratio is NaN it is replaced by 1, so the averaged width is GammaBS itself. */
  lemma GammaBSAveragedWithoutRatio(env: Env, spin: int, color: int, m: real, spinEta: int, T: real)
    requires T != 0.0 && BE(env, color, m).Ok?
    requires env.besselRatio((2.0 * m - BE(env, color, m).value) / T).None?
    ensures GammaBSAveraged(env, spin, color, m, spinEta, T) == GammaBS(env, spin, color, m, spinEta)
  {
  }

  /** `sigma * gamma / (gamma + gammaDiss)`: formation followed by decay rather than dissociation. */
  function Weighted(sigma: real, gamma: real, gammaDiss: real): Outcome
  {
    if gamma + gammaDiss == 0.0 then Err(NonFinite) else Ok(sigma * gamma / (gamma + gammaDiss))
  }

  /** The branching weight gamma / (gamma + gammaDiss) of non-negative widths lies in [0, 1]. */
  lemma BranchingWeightBounds(sigma: real, gamma: real, gammaDiss: real)
    requires gamma >= 0.0 && gammaDiss >= 0.0 && gamma + gammaDiss > 0.0
    ensures Weighted(sigma, gamma, gammaDiss).Ok?
    ensures var w := gamma / (gamma + gammaDiss);
            0.0 <= w <= 1.0 && Weighted(sigma, gamma, gammaDiss).value == sigma * w
  {
    var s := gamma + gammaDiss;
    var w := gamma / s;
    assert w * s == gamma;
    assert (w - 1.0) * s <= 0.0;
  }

  /** One channel of bound_state_rate: the ground state (spinEta 0) or the spin-2 state. */
  function Channel(env: Env, spin: int, color: int, m: real, T: real, spinEta: int): Outcome
  {
    var gamma :- GammaBSAveraged(env, spin, color, m, spinEta, T);
    var sigma :- SigmaBSFAveraged(env, spin, color, m, T);
    var gammaDiss :- GammaDiss(env, spin, color, m, T);
    Weighted(sigma, gamma, gammaDiss)
  }

  /** The excited channel's weight in the rate. */
  const SpinTwoWeight: real := 25.0

  /** bound_state_rate: the ground channel, plus 25 times the spin-2 channel for vectors. */
  function BoundStateRate(env: Env, spin: int, color: int, m: real, T: real): Outcome
  {
    var ground :- Channel(env, spin, color, m, T, 0);
    if spin == 5 || spin == 6 then
      var excited :- Channel(env, spin, color, m, T, 2);
      Ok(ground + SpinTwoWeight * excited)
    else Ok(ground)
  }

  /**
   * For anything but vectors the spin-2 channel has width 0, so its finite
   * value is 0: skipping it, as bound_state_rate does, loses nothing.
   */
  lemma ExcitedChannelVanishes(env: Env, spin: int, color: int, m: real, T: real)
    requires spin != 5 && spin != 6
    ensures Channel(env, spin, color, m, T, 2).Ok? ==> Channel(env, spin, color, m, T, 2).value == 0.0
  {
    var c := Channel(env, spin, color, m, T, 2);
    if c.Ok? {
      var g := GammaBSAveraged(env, spin, color, m, 2, T);
      GammaBSFactors(env, spin, color, m, 2);
      assert GammaBS(env, spin, color, m, 2).value == 0.0;
      assert g.value == 0.0;
      var sigma := SigmaBSFAveraged(env, spin, color, m, T).value;
      var gammaDiss := GammaDiss(env, spin, color, m, T).value;
      assert c == Weighted(sigma, 0.0, gammaDiss);
      WeightedOfZeroWidth(sigma, gammaDiss);
    }
  }

  /** A channel whose width is 0 contributes 0 wherever its weight is defined. */
  lemma WeightedOfZeroWidth(sigma: real, gammaDiss: real)
    ensures Weighted(sigma, 0.0, gammaDiss).Ok? ==> Weighted(sigma, 0.0, gammaDiss).value == 0.0
  {
  }

  /**
   * The rate is the ground channel alone for non-vectors, and the ground
   * channel plus 25 times the spin-2 channel for vectors.
   */
  lemma BoundStateRateChannels(env: Env, spin: int, color: int, m: real, T: real)
    ensures var r := BoundStateRate(env, spin, color, m, T);
            var g := Channel(env, spin, color, m, T, 0);
            var e := Channel(env, spin, color, m, T, 2);
            && (spin != 5 && spin != 6 ==> r == g)
            && (spin == 5 || spin == 6 ==> (r.Ok? <==> g.Ok? && e.Ok?))
            && (r.Ok? && (spin == 5 || spin == 6) ==> r.value == g.value + 25.0 * e.value)
  {
  }

  // ---------------------------------------------------------------------
  // The entry point.

  /** The guard of improveAveragedCrossSection: two heavy particles of the same species up to sign. */
  predicate BsfApplies(n1: int, n2: int)
  {
    !(Abs(n1) < HeavyThreshold || Abs(n2) < HeavyThreshold || Abs(n1) != Abs(n2))
  }

  /**
   * improveAveragedCrossSection: 0 when bound-state formation is off or
   * the guard fails, otherwise the rate for the colour and spin of n1 at
   * the mean of the two masses.
   */
  function ImproveAveragedCrossSection(env: Env, bsfOn: bool, mass: int -> real, n1: int, n2: int, T: real): Outcome
  {
    if !bsfOn || !BsfApplies(n1, n2) then Ok(0.0)
    else BoundStateRate(env, Spin(n1), Color(n1), (mass(n1) + mass(n2)) / 2.0, T)
  }

  /** The entry point returns 0 unless the switch is on and n1, n2 are one heavy species. */
  lemma ImproveAveragedGuard(env: Env, bsfOn: bool, mass: int -> real, n1: int, n2: int, T: real)
    ensures !bsfOn || Abs(n1) != Abs(n2) || Abs(n1) < HeavyThreshold
            ==> ImproveAveragedCrossSection(env, bsfOn, mass, n1, n2, T) == Ok(0.0)
    ensures bsfOn && BsfApplies(n1, n2) && RepOf(Color(n1)).None?
            ==> ImproveAveragedCrossSection(env, bsfOn, mass, n1, n2, T) == Err(Exit(42))
  {
    if bsfOn && BsfApplies(n1, n2) && RepOf(Color(n1)).None? {
      var c := Color(n1);
      var s := Spin(n1);
      var m := (mass(n1) + mass(n2)) / 2.0;
      assert GammaBSAveraged(env, s, c, m, 0, T) == Err(Exit(42));
    }
  }
}
