# Sommerfeld and bound-state corrections for colored dark-sector annihilation

This project models, in Dafny, the part of the repository that corrects the
annihilation cross sections micrOMEGAs computes for colored dark-sector
particles. It covers three things:

- **`improveCrossSection`** replaces micrOMEGAs' value for a heavy pair
  annihilating into quarks or gluons with a tabulated closed form. This is
  the Sommerfeld-corrected form when Sommerfeld corrections are on. When
  Sommerfeld corrections are off, the function also warns when the closed
  form and micrOMEGAs disagree by more than 0.1 %.
- **The bound-state formation rate** adds a term to the thermally averaged
  cross section. It is built from an alpha table read from a file, the SU(3)
  Casimirs, the dissociation cross section `sigmaDiss`, the decay width
  `GammaBS` and two Simpson integrations done by micrOMEGAs' adaptive
  routine `r_simpson`/`simpsonArg`.
- **The partial-wave script** `sommerfeld_default.py` returns the sum of the
  first l + 1 partial waves of one process and representation.

The modules follow the program's structure:

| file | module | models |
|---|---|---|
| `wrappers.dfy` | `Wrappers` | `Option` and `Result` |
| `c_int.dfy` | `CInt` | C's `abs`, `fabs`, truncating `/` and `%` |
| `pdg.dfy` | `Pdg` | the colour and spin digits of a PDG code, the three representations |
| `cross_section_table.dfy` | `CrossSectionTable` | `xx_to_qq`, `xx_to_gg` and the twelve per-class switches |
| `improve.dfy` | `Improve` | `improveCrossSection` and its diagnostics |
| `alpha_table.dfy` | `AlphaTable` | `read_table_alpha`'s row guard, `alphaS_bs` |
| `simpson.dfy` | `Simpson` | `r_simpson` over the nine-sample buffer `f[9]`, `simpsonArg` |
| `bound_state.dfy` | `BoundState` | `casimir2`, `zeta`…`bohr_radius`, `g_freedom`, `exp_cut`, `sigmaDiss`, `GammaBS`, the averaged widths, `bound_state_rate`, `improveAveragedCrossSection` |
| `sommerfeld_script.dfy` | `SommerfeldScript` | `get_xsec`, the eighteen `xsec_*` functions, the script's argument checks |

### How the code is modelled

- **Stateful code.** `improveCrossSection` writes `*res`. `read_table_alpha`
  fills a buffer. `r_simpson` reshuffles `f[9]` in place and updates its
  accumulators through pointers. `simpsonArg` runs at most three passes over `f`.
  Each of these is a `method`, proved equal to a pure function:
  - `Improve.ImproveCrossSection` is proved against the classification
    predicates of `Improve`.
  - `Simpson.RSimpson` is proved against `Simpson.Refine`.
  - `Simpson.SimpsonArg` is proved against `Simpson.Integrate`.
  - `AlphaTable.ReadTableAlpha` states the table it returns.
- **Pure code.** Everything else is written as functions.
- **Doubles** become exact `real`s.
- **Division by zero.** Where a quotient's divisor can be zero, the model
  returns the failure `NonFinite` (an infinity or NaN in the program).
- **`exit`.** A call to `exit` is the failure `Exit(code)`.
- **Reads outside the alpha table** are the failure `OutOfTable`.
- **Parameters supplied from outside.** The host framework's values are
  parameters:
  - the closed forms `ID_*`, `pMass`, `parton_alpha(GGscale)`;
  - `alpha_strong`, `exp`, `atan`, `sqrt`, pi;
  - the Bessel ratio, the integrands, the kinematics.

  `BoundState.Lawful` lists what the proofs assume of `exp`, `atan`, `sqrt`
  and pi.

## Model

| member | source | states |
|---|---|---|
| CInt.Abs | main_default.c:180 | `abs` on an int: non-negative and equal to x or -x |
| CInt.AbsReal | main_default.c:223 | `fabs`: non-negative and equal to x or -x |
| CInt.CDiv | main_default.c:278-282 | C's `/` truncates toward zero: \|q\| = \|x\| / d, and q has the sign of x |
| CInt.CMod | main_default.c:759 | C's `%`: x = d·q + r with q truncated, and r takes the sign of x |
| CInt.CDivNonNegative | main_default.c:278-282 | for x >= 0, C's `/` and `%` agree with Euclidean division |
| Pdg.Dim | main_default.c:284-295 | each representation has dimension 3, 6 or 8 |
| Pdg.RepOf | main_default.c:284-295 | a representation exists exactly for colours 3, 6 and 8, and its dimension is that colour |
| Pdg.RepOfDim | main_default.c:284-295 | decoding a representation's dimension gives that representation back |
| Pdg.Color | main_default.c:272-276 | the colour is the last two decimal digits of \|pdg\|: a value in [0, 100) |
| Pdg.Spin | main_default.c:278-282 | the spin is the next two digits of \|pdg\|: (\|pdg\| / 100) mod 100 |
| Pdg.DecodeIgnoresSign | main_default.c:272-282 | a code and its antiparticle have the same colour and spin |
| Pdg.DecodeDigits | main_default.c:272-282 | for either sign, the code 10000 k + 100 s + c decodes to spin s and colour c |
| CrossSectionTable.SpinClassOf | main_default.c:335-383 | spin codes 1-2 are scalars, 3-4 fermions and 5-6 vectors; no other code has a class |
| CrossSectionTable.PerClass | main_default.c:385-527 | each per-class switch returns the closed form of representation 3, 6 or 8, and 0 for any other representation |
| CrossSectionTable.XxTo | main_default.c:335-383 | `xx_to_qq`/`xx_to_gg` return 0 for a spin code outside 1..6 or a representation outside {3, 6, 8} |
| CrossSectionTable.KeyOf | main_default.c:335-527 | a closed form is named exactly when the spin code is 1..6 and the representation is 3, 6 or 8 |
| CrossSectionTable.DispatchIsKeyedLookup | main_default.c:335-527 | the two-level switch is one lookup keyed by (class, representation, final state, flag), and 0 where there is no key |
| CrossSectionTable.FlagPicksVariant | main_default.c:335-383 | the Sommerfeld flag only chooses between the _SO and _NS closed form of the same key |
| Improve.MismatchIsRelativeError | main_default.c:223-228 | `fabs(1000 (x - mo) / mo) > 1`, with IEEE meaning at mo = 0, holds exactly when 1000 \|x - mo\| > \|mo\|: a 0.1 % relative error |
| Improve.Preamble | main_default.c:186-210 | the mass warning appears iff the two masses differ; the colour and spin warnings appear iff the code's colour or spin is invalid |
| Improve.ImproveCrossSection | main_default.c:177-267 | an ignored pair yields 0 and one warning. A corrected quark or gluon final state yields the closed form for the pair's class, representation and flag. An uncorrected light final state keeps micrOMEGAs' value; any other final state is set to 0. Each of the function's own warnings appears exactly when its condition holds: ProcessIgnored alone for an ignored pair; otherwise the three preamble warnings, then at most one of Mismatch, NoSommerfeld and SetToZero |
| AlphaTable.ColorIndex | main_default.c:602-609 | colours 3, 6 and 8 have column 0, 1 or 2; no other colour has a column |
| AlphaTable.AlphaSBs | main_default.c:602-612 | the lookup is defined iff the colour is valid and the index mbin·3 + column lies in the buffer, and it then returns that cell |
| AlphaTable.MassBin | main_default.c:610 | no contract of its own: `floor(m / 10 + 0.001)`; see MassBinInRange and MassBinOfGridPoint |
| AlphaTable.MassBinInRange | main_default.c:603-610 | every mass in [0, 20000] falls into one of the 2001 bins |
| AlphaTable.MassBinOfGridPoint | main_default.c:610 | the grid mass 10 k lands in bin k |
| AlphaTable.LookupInBounds | main_default.c:602-612 | for a valid colour and a mass in range, the read on a full table stays in the 6003-cell buffer |
| AlphaTable.FillAsWritten | main_default.c:585-594 | no contract of its own: the loading loop with the guard as written, the as-written half of the finding; see FillAsWrittenReaches, AsWrittenOverflows and NoExitWithinBuffer |
| AlphaTable.FillAsWrittenReaches | main_default.c:585-594 | with the guard as written, every row index k <= 2001 of the file has its first cell written |
| AlphaTable.AsWrittenOverflows | main_default.c:587-592 | with the guard as written, any file of more than 2001 rows writes cell 6003, past the buffer; at 2002 rows the program does not even exit |
| AlphaTable.NoExitWithinBuffer | main_default.c:587-592 | with the guard as written, 2002 rows never trigger the exit |
| AlphaTable.ReadTableAlpha | main_default.c:577-599 | with the corrected guard, the load exits with 10 iff there are more than 2001 rows; otherwise it returns a 6003-cell table holding the rows' three columns, with zeros after the last row |
| Simpson.Samples | main_default.c:680-682 | the nine samples are F at the nodes a + i (b - a) / 8 |
| Simpson.AbsWeight | main_default.c:646 | the magnitude weight added to aAns is non-negative |
| Simpson.Charge | main_default.c:640 | the budget charged on a global acceptance is \|s3 - s2\| (b - a), and it is non-negative |
| Simpson.Accept | main_default.c:643-647 | accepting leaves aEps alone and never lowers aAns |
| Simpson.Verdict | main_default.c:633-641 | the interval is accepted iff the local or the global test passes; only the global test charges aEps; ans and aAns are untouched |
| Simpson.Refine | main_default.c:615-668 | the recursion's depth result lies between the start depth and 21; aEps never rises and aAns never falls; a positive budget stays positive on a non-empty interval |
| Simpson.AcceptsPastMaxDepth | main_default.c:643-647 | past depth 20 the interval is accepted whatever the error |
| Simpson.Refill | main_default.c:654-661 | no contract of its own: the refilled points `origin + i (b - a) / 16`; see HalfNodes |
| Simpson.HalfNodes | main_default.c:650-661 | the nodes of each half are old even nodes or new odd nodes at a + i (b - a) / 16 |
| Simpson.RSimpson | main_default.c:615-668 | the in-place recursion over f[9] leaves (aEps, ans, aAns, deepness) equal to Refine of the inputs |
| Simpson.Bisect | main_default.c:650-668 | the two recursive calls compose: left half, then right half with the left result, depth the larger |
| Simpson.SaveRightHalf | main_default.c:650-651 | f1 is a copy of f[4..8] |
| Simpson.SpreadLeftHalf | main_default.c:652-655 | after spreading and refilling, f holds the samples of the left half |
| Simpson.SpreadEven | main_default.c:652-653 | every even cell f[2k] ends up holding the old f[k], written top down so no cell is overwritten before it is read; the odd cells are untouched |
| Simpson.RestoreRightHalf | main_default.c:658-661 | after restoring and refilling, f holds the samples of the right half |
| Simpson.RefillOdd | main_default.c:654-655 | the odd cells get F at the new nodes, and the even cells keep their values |
| Simpson.LeftHalfSamples | main_default.c:652-655 | a buffer whose even cells are the old nodes 0..4 and whose odd cells are the new nodes is the left half's samples |
| Simpson.RightHalfSamples | main_default.c:658-661 | a buffer whose even cells are the old nodes 4..8 and whose odd cells are the new nodes is the right half's samples |
| Simpson.SumAbs | main_default.c:680-684 | the accumulated magnitude is non-negative |
| Simpson.SumAbsZero | main_default.c:685-686 | the magnitude is 0 iff every sample is 0 |
| Simpson.Integrate | main_default.c:671-703 | no contract of its own: simpsonArg as a function; see SimpsonArg, IntegrateOfVanishingSamples and IntegrateExactOnLinear |
| Simpson.SimpsonArg | main_default.c:671-703 | the method returns Integrate: 0 for a = b or all-zero samples; otherwise at most three budgeted passes |
| Simpson.Passes | main_default.c:687-702 | no contract of its own: the pass loop from pass j on; see RunPasses and PassesExactOnLinear |
| Simpson.RunPasses | main_default.c:687-702 | the pass loop returns Budgeted: eps is halved, the first budget is eps·Σ\|f\|·\|b - a\| / 9, later ones aAns·eps, and it stops on convergence or after the third pass |
| Simpson.SampleWithMagnitude | main_default.c:680-684 | the buffer holds the samples, and the result is the sum of their magnitudes |
| Simpson.Resample | main_default.c:699-700 | the buffer again holds the samples of [a, b] |
| Simpson.IntegrateOfVanishingSamples | main_default.c:685-686 | if F vanishes at the nine nodes, the integral is 0 |
| Simpson.LinearSample | main_default.c:680-682 | sample i of p x + q is the first sample plus i steps of p (b - a) / 8 |
| Simpson.EstimatesOfLinear | main_default.c:622-624 | for a linear integrand the three Simpson estimates agree and equal the mean value |
| Simpson.MeanTimesWidth | main_default.c:645 | the mean of p x + q times (b - a) is its integral |
| Simpson.VerdictOnAgreement | main_default.c:633-636 | agreeing estimates with a positive budget pass the local test |
| Simpson.RefineOnAgreement | main_default.c:633-647 | when the three estimates agree and the budget is positive, the recursion accepts at once at its entry depth |
| Simpson.RefineExactOnLinear | main_default.c:615-668 | on a linear integrand the recursion accepts at once and adds the exact integral to ans |
| Simpson.AcceptRaisesAAns | main_default.c:646 | accepting a sample with a non-zero magnitude strictly raises aAns |
| Simpson.AbsWeightBelow | main_default.c:646 | the magnitude weight is at least \|f0\| + \|f8\| |
| Simpson.PassesExactOnLinear | main_default.c:690-702 | every pass returns the exact integral of a linear integrand |
| Simpson.LinearSamplesVanish | main_default.c:680-686 | for a != b the zero-magnitude exit is taken on p x + q exactly when both end samples are 0 |
| Simpson.IntegrateExactOnLinear | main_default.c:671-703 | for eps > 0, simpsonArg integrates p x + q exactly, whatever the interval |
| BoundState.Casimir2 | main_default.c:284-295 | casimir2 is defined exactly for the three representations and exits with 42 otherwise |
| BoundState.Casimir2IsQuadraticCasimir | main_default.c:284-295 | the table equals the SU(3) formula (p² + q² + pq + 3p + 3q) / 3 at the Dynkin labels (1,0), (2,0), (1,1) |
| BoundState.CasimirBelowThreeHalves | main_default.c:711-715 | casimir2 - 3/2 is never 0, and it is negative exactly for the triplet |
| BoundState.AlphaBs | main_default.c:602-612 | the table coupling is available exactly when the lookup stays in the buffer |
| BoundState.Zeta | main_default.c:705-709 | a colour outside {3, 6, 8} exits with 42; for a valid colour zeta is defined exactly when the table read stays in the buffer; see also CouplingsOfPositiveAlpha |
| BoundState.ZetaP | main_default.c:711-715 | a colour outside {3, 6, 8} exits with 42; for a valid colour zetap is defined exactly when the table read stays in the buffer; see also CouplingsOfPositiveAlpha |
| BoundState.Kappa | main_default.c:717-720 | no contract of its own; see CouplingsOfPositiveAlpha, KappaOfZeroAlpha and ScalesOfPositiveAlpha |
| BoundState.CouplingsOfPositiveAlpha | main_default.c:705-720 | with a positive coupling, zeta > 0, zetap < 0 iff the triplet, and kappa is 8, 20/11 or 2 |
| BoundState.KappaOfZeroAlpha | main_default.c:717-720 | a zero coupling makes kappa 0/0: non-finite |
| BoundState.BE | main_default.c:722-726 | no contract of its own; see ScalesOfPositiveAlpha |
| BoundState.BohrRadius | main_default.c:733-736 | no contract of its own; see ScalesOfPositiveAlpha |
| BoundState.Nu | main_default.c:728-731 | no contract of its own; a zero kappa or u is NonFinite |
| BoundState.ScalesOfPositiveAlpha | main_default.c:717-736 | with a positive coupling and mass, the binding energy, the Bohr radius and kappa are positive |
| BoundState.OddSpinCodeIsParity | main_default.c:759 | the test `(spin - 1) % 2 == 0` holds exactly for odd spin codes, negative ones included |
| BoundState.ExpCut | main_default.c:570-575 | no contract of its own; see ExpCutOfNegative |
| BoundState.ExpCutOfNegative | main_default.c:570-575 | exp_cut of a negative argument lies in [0, 1), and below -50 it is exactly 0 |
| BoundState.SigmaDiss | main_default.c:749-784 | no contract of its own; see SigmaDissNonNegative, SigmaDissRepulsiveAtThreshold, DissFormulaNonNegative, BranchFactorAtThreshold and BranchFactorIsSuppression |
| BoundState.BranchFactorAtThreshold | main_default.c:775-782 | for u <= 1e-6, the repulsive factor is exactly 0 and the attractive one is exp_cut(-4/k) / k³ |
| BoundState.BranchFactorIsSuppression | main_default.c:763-774 | above u = 1e-6, both branch factors lie in [0, 1), because 0 < atan < pi/2 |
| BoundState.SigmaDissRepulsiveAtThreshold | main_default.c:749-784 | for the triplet at u <= 1e-6, sigmaDiss is exactly 0 wherever it is finite |
| BoundState.DissCoeffNonNegative | main_default.c:761 | the common coefficient is non-negative for a non-negative gluon coupling |
| BoundState.DissFormulaNonNegative | main_default.c:755-783 | the formula is finite and non-negative for positive scales |
| BoundState.SigmaDissNonNegative | main_default.c:749-784 | with a positive table coupling, mass and temperature, a non-negative gluon coupling and u >= 0, sigmaDiss is finite and non-negative |
| BoundState.SpinCodeFactors | main_default.c:803-810 | `(spin - 1) / 2 + 1` counts the spin states of the code's class (1, 2, 3), and the symmetry factor applies to codes 1, 3 and 5 |
| BoundState.GFreedom | main_default.c:738-742 | no contract of its own; see GFreedomCountsStates |
| BoundState.GFreedomCountsStates | main_default.c:738-742 | g_freedom is the spin states of the class times the colour dimension |
| BoundState.GammaBS | main_default.c:801-820 | no contract of its own; see GammaBSFactors and SpinCodeFactors |
| BoundState.GammaBSFactors | main_default.c:801-820 | an invalid colour exits through zeta before the 0 colour factor is used; an excited state of non-vectors has width 0; for vectors the excited factor is 16/3 |
| BoundState.GammaBSAveraged | main_default.c:854-862 | no contract of its own; see GammaBSAveragedWithoutRatio and InvalidColourExits |
| BoundState.GammaBSAveragedWithoutRatio | main_default.c:854-862 | where the Bessel ratio is NaN (replaced by 1) the averaged width equals GammaBS, failures included |
| BoundState.GammaDiss | main_default.c:833-842 | no contract of its own; see InvalidColourExits |
| BoundState.SigmaBSFAveraged | main_default.c:844-852 | no contract of its own; see InvalidColourExits |
| BoundState.InvalidColourExits | main_default.c:833-876 | a colour outside {3, 6, 8} makes GammaBSaveraged, GammaDiss, sigmaBSFaveraged and bound_state_rate exit with 42, since each computes zeta |
| BoundState.BranchingWeightBounds | main_default.c:867 | for non-negative widths with a positive sum, the weight Γ / (Γ + Γdiss) lies in [0, 1] |
| BoundState.Channel | main_default.c:866-873 | no contract of its own: one term `sigma gamma / (gamma + gammaDiss)` of bound_state_rate; see BranchingWeightBounds and ExcitedChannelVanishes |
| BoundState.BoundStateRate | main_default.c:864-876 | no contract of its own; see BoundStateRateChannels, ExcitedChannelVanishes and InvalidColourExits |
| BoundState.ExcitedChannelVanishes | main_default.c:869-873 | for non-vectors a finite spin-2 channel is 0, so skipping it loses nothing |
| BoundState.BoundStateRateChannels | main_default.c:864-876 | the rate is the ground channel alone for non-vectors; for vectors it is finite iff both channels are, and equals ground + 25 · excited |
| BoundState.ImproveAveragedCrossSection | main_default.c:532-564 | no contract of its own; see ImproveAveragedGuard |
| BoundState.ImproveAveragedGuard | main_default.c:532-564 | the result is 0 when bound-state formation is off, when the codes differ up to sign, or when a code is light. A heavy pair of invalid colour exits with 42; the undefined table read that comes before that exit in the program is not modelled (see "Left out") |
| SommerfeldScript.ParseProcess | sommerfeld_default.py:236 | a name is accepted exactly when it is one of the six process names |
| SommerfeldScript.ParseProcessName | sommerfeld_default.py:12-67 | each process's name parses back to it |
| SommerfeldScript.WaveList | sommerfeld_default.py:73-75 | each wave list has five entries |
| SommerfeldScript.SliceStop | sommerfeld_default.py:76 | Python's slice stop: taken as is within [0, n], clipped to n above, counted from the end for -n <= stop < 0, clipped to 0 below |
| SommerfeldScript.SumPrefixStep | sommerfeld_default.py:76 | extending a prefix by one entry adds that entry to the sum |
| SommerfeldScript.SumOfWavePrefix | sommerfeld_default.py:76 | the sum of the first n waves is l0 + … + l(n-1) |
| SommerfeldScript.Xsec | sommerfeld_default.py:70-217 | no contract of its own: the eighteen `xsec_*` functions; see XsecSumsWaves, XsecStep, XsecNegativeWave and XsecReadsOnlySelectedList |
| SommerfeldScript.XsecSumsWaves | sommerfeld_default.py:70-217 | for 0 <= l <= 4 the result is waves 0..l; for l >= 4 all five waves |
| SommerfeldScript.XsecStep | sommerfeld_default.py:76 | raising l by one below 4 adds wave l + 1, and l = -1 gives 0 |
| SommerfeldScript.XsecNegativeWave | sommerfeld_default.py:76 | for -6 < l + 1 < 0 the last -(l + 1) waves are dropped, and l <= -6 gives 0 |
| SommerfeldScript.XsecReadsOnlySelectedList | sommerfeld_default.py:70-217 | the result depends only on the list the flag selects, never on m, v or the couplings |
| SommerfeldScript.GetXsec | sommerfeld_default.py:12-67 | no contract of its own; see GetXsecDispatch |
| SommerfeldScript.GetXsecDispatch | sommerfeld_default.py:12-67 | an unknown process or representation gives 0.0; otherwise the result is that pair's xsec_* |
| SommerfeldScript.Script | sommerfeld_default.py:230-264 | no contract of its own; see ScriptOutcome |
| SommerfeldScript.ScriptOutcome | sommerfeld_default.py:230-255 | the script exits with 2 iff the process or representation is unknown; a printed value is always an xsec_* result, never a fallback; the default l = 2 sums three waves |

## Left out

- I/O is not modelled. This covers every `printf` except those of
  `improveCrossSection` itself, which are its `log`; it also covers `main`, and
  `read_table_alpha`'s `fopen`, `fscanf` and `feof`; the file's rows are
  given as a sequence. It also covers the script's argparse parsing and
  printing and its mpmath numbers.
  - A non-integer `--rep` or `--lwave` makes `int()` raise; this is not
    modelled.
  - `read_table_alpha`'s NULL check comes after the stream is used; this is
    not modelled.
  - The mass column of each row is read and ignored, and the model does
    not check it either.
- Floating point is not modelled. Doubles are exact reals, and the `isfinite`/`isnan`
  checks in `improveCrossSection`, in `r_simpson` (non-finite s3), in
  `simpsonArg` (non-finite aAns) and in `improveAveragedCrossSection` have
  no counterpart.
  - The model's only "non-finite" is a quotient by zero.
  - `GammaBSAveraged`'s NaN-to-1 replacement is the Bessel ratio returning
    `None`.
- BoundState.Zeta / ZetaP / ImproveAveragedGuard: for a colour outside
  {3, 6, 8}, `zeta` and `zetap` first call `alphaS_bs`, which reads
  `alpha_table[mbin * 3 + color_index]` with `color_index` never assigned
  (main_default.c:606-611), an undefined read; only then does `casimir2`
  call `exit(42)`. The model evaluates casimir2 first, so it reports the
  exit and gives the undefined read no outcome of its own.
- BoundState.SigmaDiss, BoundState.GammaDiss, BoundState.GammaBSAveraged
  report `NonFinite` at T = 0. IEEE arithmetic would carry the infinities
  on, and at u <= 1e-6 `sigmaDiss` can still be finite there.
- The numeric bodies of the following are parameters, because they are
  floating-point formulas over library functions or host code that is not
  shown:
  - `alpha_strong`, `fMB`, `sigmaStimulatedBSF`, `GammaDissIntegrand`,
    `s_integrand_BSF`;
  - the Bessel functions;
  - the kinematics v and s;
  - `pMass`/`pdg2name`, `parton_alpha`, the `ID_*` macros and the
    micrOMEGAs relic solvers.

  The last group is not part of this model.
- `abs` on a `long`: C converts it to `int` first. The model uses the full
  integer, since PDG codes fit in 32 bits.
- Xsec: the eighteen `xsec_*` functions share one body and differ only in
  the globals they read. They are one function of (process,
  representation), and `Globals` stands for the `ID_*` names. The script
  does not bind these names itself: its only imports are `sys`, `argparse`
  and `mpmath` (sommerfeld_default.py:3-5), so as it stands every `xsec_*`
  would raise NameError when it builds `wave_list`. The model takes the
  names as values supplied from outside, as the generator of the script
  is meant to fill them in.
- Simpson.SimpsonArg: between passes the program re-samples f. Because the
  integrand is a pure function here, this gives the same nine values again.
  `Simpson.RSimpson` leaves f unspecified, so the re-sampling is what
  restores the buffer to the samples of [a, b] that `Simpson.RunPasses`
  keeps as its loop invariant; no result depends on the values being
  freshly computed.
- Simpson.IntegrateExactOnLinear requires eps > 0. At eps <= 0 the local
  test can never pass, so exactness is then not claimed.
- The pass count of `simpsonArg` is bounded by the structure of
  `Simpson.Passes` (j < 3). No separate counter is proved.

## Findings

| source | as written | input that shows it | evidently intended | confidence | as-written member | corrected member |
|---|---|---|---|---|---|---|
| main_default.c:587 | `if (counter/3 > nr_entries)` exits only once the row index exceeds 2001, so row index 2001 (the 2002nd row) is read into cells 6003..6005 of the 6003-cell buffer `calloc(3 * nr_entries)` | a table file with 2002 rows | `counter/3 >= nr_entries`: exit with 10 as soon as a 2002nd row is about to be read | not executed | AlphaTable.AsWrittenOverflows | AlphaTable.ReadTableAlpha |
