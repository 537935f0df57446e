/**
 * The dispatch from (spin code, colour representation, final state,
 * Sommerfeld flag) to one of the closed-form annihilation cross sections
 * the host framework supplies.  The program writes it as two switches on
 * the spin code (`xx_to_qq`, `xx_to_gg`) over twelve switches on the
 * representation; the closed forms themselves are host macros
 * (`ID_S3S3_QQ_NS` and so on) and are a parameter here.
 */
module CrossSectionTable {
  import opened Wrappers
  import opened Pdg

  /** Spin of the annihilating pair: scalars, fermions or vectors. */
  datatype SpinClass = ScalarPair | FermionPair | VectorPair

  /** The two final states that receive a correction. */
  datatype FinalState = Quarks | Gluons

  /** Names one closed form, `ID_<class><rep><class><rep>_<QQ|GG>_<NS|SO>`. */
  datatype Key = Key(cls: SpinClass, rep: Rep, final: FinalState, sommerfeld: bool)

  /**
   * The arguments every closed form is evaluated in: the hard coupling,
   * the Sommerfeld coupling, the mass and the velocity.
   */
  datatype Kinematics = Kinematics(alphaS: real, alphaSommerfeld: real, m: real, v: real)

  /** The 36 closed forms of the host, as functions of the kinematics. */
  type ClosedForms = (Key, Kinematics) -> real

  /** The switch on the spin code: 1-2 scalars, 3-4 fermions, 5-6 vectors. */
  function SpinClassOf(spin: int): (c: Option<SpinClass>)
    ensures c == Some(ScalarPair) <==> spin in {1, 2}
    ensures c == Some(FermionPair) <==> spin in {3, 4}
    ensures c == Some(VectorPair) <==> spin in {5, 6}
    ensures c.None? <==> !(1 <= spin <= 6)
  {
    if spin == 1 || spin == 2 then Some(ScalarPair)
    else if spin == 3 || spin == 4 then Some(FermionPair)
    else if spin == 5 || spin == 6 then Some(VectorPair)
    else None
  }

  /**
   * One of the twelve switches on the representation (`ss_to_qq`,
   * `ff_to_gg_sommerfeld`, ...): the closed form of representation `rep`,
   * or 0.0 for any other representation.
   */
  function PerClass(ids: ClosedForms, cls: SpinClass, final: FinalState, sommerfeld: bool,
                    rep: int, kin: Kinematics): (r: real)
    ensures rep !in {3, 6, 8} ==> r == 0.0
    ensures rep in {3, 6, 8} ==> r == ids(Key(cls, RepOf(rep).value, final, sommerfeld), kin)
  {
    match RepOf(rep)
    case Some(rp) => ids(Key(cls, rp, final, sommerfeld), kin)
    case None => 0.0
  }

  /**
   * `xx_to_qq` (final = Quarks) and `xx_to_gg` (final = Gluons): the
   * Sommerfeld flag picks the corrected or uncorrected family, the spin code
   * the switch; an invalid spin code yields 0.0.
   */
  function XxTo(ids: ClosedForms, final: FinalState, kin: Kinematics,
                rep: int, spin: int, sommerfeld: bool): (r: real)
    ensures !(1 <= spin <= 6) ==> r == 0.0
    ensures rep !in {3, 6, 8} ==> r == 0.0
  {
    if !sommerfeld then
      match SpinClassOf(spin)
      case Some(cls) => PerClass(ids, cls, final, false, rep, kin)
      case None => 0.0
    else
      match SpinClassOf(spin)
      case Some(cls) => PerClass(ids, cls, final, true, rep, kin)
      case None => 0.0
  }

  /** The spin class by its index 1, 2 or 3. */
  function ClassByIndex(i: int): SpinClass
  {
    if i <= 1 then ScalarPair else if i == 2 then FermionPair else VectorPair
  }

  /**
   * The same table as one keyed mapping: a spin code in 1..6 has class
   * index `(spin + 1) / 2`; a colour digit must name a representation.
   */
  function KeyOf(final: FinalState, spin: int, rep: int, sommerfeld: bool): (k: Option<Key>)
    ensures k.Some? <==> 1 <= spin <= 6 && rep in {3, 6, 8}
  {
    if 1 <= spin <= 6 && RepOf(rep).Some?
    then Some(Key(ClassByIndex((spin + 1) / 2), RepOf(rep).value, final, sommerfeld))
    else None
  }

  /**
   * The layered switches are exactly a lookup in the keyed mapping, with
   * 0.0 for every code the mapping does not contain.
   */
  lemma DispatchIsKeyedLookup(ids: ClosedForms, final: FinalState, kin: Kinematics,
                              rep: int, spin: int, sommerfeld: bool)
    ensures XxTo(ids, final, kin, rep, spin, sommerfeld)
            == match KeyOf(final, spin, rep, sommerfeld)
               case Some(k) => ids(k, kin)
               case None => 0.0
  {
    if 1 <= spin <= 6 && rep in {3, 6, 8} {
      assert SpinClassOf(spin) == Some(ClassByIndex((spin + 1) / 2));
    }
  }

  /**
   * For a valid spin code and representation the Sommerfeld flag only
   * chooses between the two variants of the same constant.
   */
  lemma FlagPicksVariant(ids: ClosedForms, final: FinalState, kin: Kinematics,
                         rep: int, spin: int, sommerfeld: bool)
    requires 1 <= spin <= 6 && rep in {3, 6, 8}
    ensures XxTo(ids, final, kin, rep, spin, sommerfeld)
            == ids(Key(SpinClassOf(spin).value, RepOf(rep).value, final, sommerfeld), kin)
  {
  }
}
