/**
 * The partial-wave lookup script: `get_xsec` dispatches on a process name
 * and a colour representation to one of eighteen `xsec_*` functions, each
 * of which sums a prefix `wave_list[:l + 1]` of a five-entry list of
 * partial-wave cross sections, the Sommerfeld-corrected (_SO) or the
 * uncorrected (_NS) one.  The entries are the `ID_*` globals the script is
 * generated with; here they are a parameter.
 */
module SommerfeldScript {
  import opened Wrappers
  import opened Pdg

  /** The six annihilation processes: scalars, fermions or vectors into quarks or gluons. */
  datatype Process = SsToQq | SsToGg | FfToQq | FfToGg | VvToQq | VvToGg

  /** The process named on the command line, if it is one of the six. */
  function ParseProcess(name: string): (r: Option<Process>)
    ensures r.Some? <==> name in ProcessNames
  {
    if name == "sstoqq" then Some(SsToQq)
    else if name == "sstogg" then Some(SsToGg)
    else if name == "fftoqq" then Some(FfToQq)
    else if name == "fftogg" then Some(FfToGg)
    else if name == "vvtoqq" then Some(VvToQq)
    else if name == "vvtogg" then Some(VvToGg)
    else None
  }

  const ProcessNames: set<string> := {"sstoqq", "sstogg", "fftoqq", "fftogg", "vvtoqq", "vvtogg"}

  /** The printed name of each process. */
  function ProcessName(p: Process): string
  {
    match p
    case SsToQq => "sstoqq"
    case SsToGg => "sstogg"
    case FfToQq => "fftoqq"
    case FfToGg => "fftogg"
    case VvToQq => "vvtoqq"
    case VvToGg => "vvtogg"
  }

  /** Parsing a process's name gives that process back. */
  lemma ParseProcessName(p: Process)
    ensures ParseProcess(ProcessName(p)) == Some(p)
  {
  }

  /** The five partial waves l = 0 .. 4 of one process and representation. */
  datatype Waves = Waves(l0: real, l1: real, l2: real, l3: real, l4: real)

  /** The `wave_list` literal. */
  function WaveList(w: Waves): (s: seq<real>)
    ensures |s| == 5
  {
    [w.l0, w.l1, w.l2, w.l3, w.l4]
  }

  /** Partial wave number i of the list. */
  function Wave(w: Waves, i: int): real
    requires 0 <= i < 5
  {
    WaveList(w)[i]
  }

  /** The `ID_*` globals: the Sommerfeld-corrected (true) or uncorrected (false) list of each pair. */
  type Globals = (Process, Rep, bool) -> Waves

  /**
   * Where Python's `s[:stop]` ends on a list of length n: a negative stop
   * counts from the end and is clipped at 0, a stop past the end is
   * clipped at n.
   */
  function SliceStop(n: nat, stop: int): (r: nat)
    ensures r <= n
    ensures 0 <= stop <= n ==> r == stop
    ensures stop > n ==> r == n
    ensures -(n as int) <= stop < 0 ==> r == (n as int) + stop
    ensures stop < -(n as int) ==> r == 0
  {
    if stop < 0 then (if stop + n < 0 then 0 else stop + n)
    else if stop > n then n
    else stop
  }

  /** Python's `sum`, adding from the left starting at 0. */
  function Sum(s: seq<real>): real
  {
    if |s| == 0 then 0.0 else Sum(s[..|s| - 1]) + s[|s| - 1]
  }

  lemma {:induction false} SumPrefixStep(s: seq<real>, i: nat)
    requires i < |s|
    ensures Sum(s[..i + 1]) == Sum(s[..i]) + s[i]
  {
    assert s[..i + 1][..i] == s[..i];
  }

  /**
   * xsec_<process>_<rep>: the sum of the first l + 1 partial waves of the
   * list the Sommerfeld flag selects.  The mass, velocity and couplings are
   * accepted and never read.
   */
  function Xsec(g: Globals, p: Process, r: Rep, l: int, sommerfeld: bool,
                m: real, v: real, alphas: real, alphaSommerfeld: real): real
  {
    var waveList := WaveList(g(p, r, sommerfeld));
    Sum(waveList[..SliceStop(|waveList|, l + 1)])
  }

  /** The sum of the first n partial waves, written out. */
  function PartialWaves(w: Waves, n: nat): real
    requires n <= 5
  {
    if n == 0 then 0.0
    else if n == 1 then w.l0
    else if n == 2 then w.l0 + w.l1
    else if n == 3 then w.l0 + w.l1 + w.l2
    else if n == 4 then w.l0 + w.l1 + w.l2 + w.l3
    else w.l0 + w.l1 + w.l2 + w.l3 + w.l4
  }

  lemma {:induction false} SumOfWavePrefix(w: Waves, n: nat)
    requires n <= 5
    ensures Sum(WaveList(w)[..n]) == PartialWaves(w, n)
  {
    if n > 0 {
      SumOfWavePrefix(w, n - 1);
      SumPrefixStep(WaveList(w), n - 1);
    } else {
      assert WaveList(w)[..0] == [];
    }
  }

  /**
   * For 0 <= l <= 4 the result is the sum of partial waves 0 .. l; for
   * l >= 4 the slice is clipped and all five waves are summed.
   */
  lemma XsecSumsWaves(g: Globals, p: Process, r: Rep, l: int, sommerfeld: bool,
                      m: real, v: real, alphas: real, alphaSommerfeld: real)
    requires l >= 0
    ensures l <= 4 ==> Xsec(g, p, r, l, sommerfeld, m, v, alphas, alphaSommerfeld)
                       == PartialWaves(g(p, r, sommerfeld), l + 1)
    ensures l >= 4 ==> Xsec(g, p, r, l, sommerfeld, m, v, alphas, alphaSommerfeld)
                       == PartialWaves(g(p, r, sommerfeld), 5)
  {
    var w := g(p, r, sommerfeld);
    SumOfWavePrefix(w, SliceStop(5, l + 1));
  }

  /** Raising l by one below 4 adds wave l + 1; l = -1 gives the empty sum. */
  lemma XsecStep(g: Globals, p: Process, r: Rep, l: int, sommerfeld: bool,
                 m: real, v: real, alphas: real, alphaSommerfeld: real)
    requires -1 <= l < 4
    ensures Xsec(g, p, r, l + 1, sommerfeld, m, v, alphas, alphaSommerfeld)
            == Xsec(g, p, r, l, sommerfeld, m, v, alphas, alphaSommerfeld) + Wave(g(p, r, sommerfeld), l + 1)
    ensures Xsec(g, p, r, -1, sommerfeld, m, v, alphas, alphaSommerfeld) == 0.0
  {
    var waveList := WaveList(g(p, r, sommerfeld));
    SumPrefixStep(waveList, l + 1);
    assert waveList[..0] == [];
  }

  /**
   * A negative l is not rejected: for -6 < l + 1 < 0 the slice drops the
   * last -(l + 1) waves, and for l <= -6 nothing is left.
   */
  lemma XsecNegativeWave(g: Globals, p: Process, r: Rep, l: int, sommerfeld: bool,
                         m: real, v: real, alphas: real, alphaSommerfeld: real)
    requires l < -1
    ensures -6 < l + 1 ==> Xsec(g, p, r, l, sommerfeld, m, v, alphas, alphaSommerfeld)
                           == PartialWaves(g(p, r, sommerfeld), 5 + (l + 1))
    ensures l <= -6 ==> Xsec(g, p, r, l, sommerfeld, m, v, alphas, alphaSommerfeld) == 0.0
  {
    var w := g(p, r, sommerfeld);
    SumOfWavePrefix(w, SliceStop(5, l + 1));
  }

  /**
   * The result depends on the globals only through the list the flag
   * selects, and not at all on the mass, velocity and couplings.
   */
  lemma XsecReadsOnlySelectedList(g1: Globals, g2: Globals, p: Process, r: Rep, l: int, sommerfeld: bool,
                                  m1: real, v1: real, alphas1: real, alphaSommerfeld1: real,
                                  m2: real, v2: real, alphas2: real, alphaSommerfeld2: real)
    requires g1(p, r, sommerfeld) == g2(p, r, sommerfeld)
    ensures Xsec(g1, p, r, l, sommerfeld, m1, v1, alphas1, alphaSommerfeld1)
            == Xsec(g2, p, r, l, sommerfeld, m2, v2, alphas2, alphaSommerfeld2)
  {
  }

  /** get_xsec: the xsec_* function of the process and representation, or 0.0 for any other pair. */
  function GetXsec(g: Globals, process: string, rep: int, l: int, sommerfeld: bool,
                   m: real, v: real, alphas: real, alphaSommerfeld: real): real
  {
    match ParseProcess(process)
    case None => 0.0
    case Some(p) =>
      match RepOf(rep)
      case None => 0.0
      case Some(r) => Xsec(g, p, r, l, sommerfeld, m, v, alphas, alphaSommerfeld)
  }

  /** get_xsec dispatches exactly on the six names and the three representations. */
  lemma GetXsecDispatch(g: Globals, process: string, rep: int, l: int, sommerfeld: bool,
                        m: real, v: real, alphas: real, alphaSommerfeld: real)
    ensures process !in ProcessNames || rep !in {3, 6, 8}
            ==> GetXsec(g, process, rep, l, sommerfeld, m, v, alphas, alphaSommerfeld) == 0.0
    ensures process in ProcessNames && rep in {3, 6, 8}
            ==> GetXsec(g, process, rep, l, sommerfeld, m, v, alphas, alphaSommerfeld)
                == Xsec(g, ParseProcess(process).value, RepOf(rep).value, l, sommerfeld, m, v, alphas, alphaSommerfeld)
  {
  }

  /** What a run of the script ends with. */
  datatype Run = Exit(code: int) | Printed(xsec: real)

  /** The default of `--lwave`. */
  const DefaultWave: int := 2

  /**
   * The script after argument parsing: an unknown process or representation
   * exits with 2 before get_xsec is called; otherwise the cross section for
   * the given (or default) l is printed.
   */
  function Script(g: Globals, process: string, rep: int, lwave: Option<int>, sommerfeld: bool,
                  m: real, v: real, alphas: real, alphaSommerfeld: real): Run
  {
    if process !in ProcessNames then Exit(2)
    else if rep !in {3, 6, 8} then Exit(2)
    else
      var l := match lwave case None => DefaultWave case Some(n) => n;
      Printed(GetXsec(g, process, rep, l, sommerfeld, m, v, alphas, alphaSommerfeld))
  }

  /**
   * The script exits with 2 exactly for an unknown process or
   * representation, so the 0.0 fallbacks of get_xsec are never printed: a
   * printed value is always an xsec_* result.  Without --lwave three partial
   * waves are summed.
   */
  lemma ScriptOutcome(g: Globals, process: string, rep: int, lwave: Option<int>, sommerfeld: bool,
                      m: real, v: real, alphas: real, alphaSommerfeld: real)
    ensures var run := Script(g, process, rep, lwave, sommerfeld, m, v, alphas, alphaSommerfeld);
            var l := match lwave case None => DefaultWave case Some(n) => n;
            && (run == Exit(2) <==> process !in ProcessNames || rep !in {3, 6, 8})
            && (run.Printed? ==>
                  (&& ParseProcess(process).Some? && RepOf(rep).Some?
                   && run.xsec == Xsec(g, ParseProcess(process).value, RepOf(rep).value, l,
                                       sommerfeld, m, v, alphas, alphaSommerfeld)))
            && (run.Printed? && lwave.None? ==>
                  run.xsec == PartialWaves(g(ParseProcess(process).value, RepOf(rep).value, sommerfeld), 3))
  {
    if process in ProcessNames && rep in {3, 6, 8} && lwave.None? {
      XsecSumsWaves(g, ParseProcess(process).value, RepOf(rep).value, DefaultWave, sommerfeld,
                    m, v, alphas, alphaSommerfeld);
    }
  }
}
