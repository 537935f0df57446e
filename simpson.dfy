/**
 * The adaptive Simpson integrator (`r_simpson`, `simpsonArg`).  An
 * interval is sampled at nine equidistant points held in a buffer `f[9]`;
 * three Simpson estimates of the interval's mean (3, 5 and 9 points) are
 * compared against a local tolerance and against a global error budget
 * that the whole recursion shares.  A rejected interval is halved, and the
 * buffer is rearranged in place so that the five samples each half shares
 * with its parent are reused rather than recomputed.
 *
 * The integrand is a total function on the reals; the parameter bundle of
 * the C interface is folded into it.
 */
module Simpson {
  import opened CInt

  /** Recursion depth beyond which an interval is accepted unconditionally. */
  const MaxDepth: int := 20

  /** The passes `simpsonArg` makes at most. */
  const MaxPasses: int := 3

  /**
   * The quantities `r_simpson` updates through pointers: the remaining
   * global error budget `aEps`, the integral `ans` and the
   * absolute-magnitude accumulator `aAns`.
   */
  datatype Acc = Acc(aEps: real, ans: real, aAns: real)

  /** The i-th of the nine sample points of [a, b]: `a + i * (b - a) / 8`. */
  function Node(a: real, b: real, i: int): real
  {
    a + (i as real) * (b - a) / 8.0
  }

  /**
   * A point refilled after halving [a, b]: `origin + i * (b - a) / 16`,
   * with origin `a` for the left half and `(a + b) / 2` for the right.
   */
  function Refill(origin: real, a: real, b: real, i: int): real
  {
    origin + (i as real) * (b - a) / 16.0
  }

  /** The samples of `F` at the nine points of [a, b]. */
  function Samples(F: real -> real, a: real, b: real): (s: seq<real>)
    ensures |s| == 9
    ensures forall i :: 0 <= i < 9 ==> s[i] == F(Node(a, b, i))
  {
    seq(9, i requires 0 <= i < 9 => F(Node(a, b, i)))
  }

  /** The three-point estimate `s1` of the mean. */
  function Coarse(f: seq<real>): real
    requires |f| == 9
  {
    (f[0] + 4.0 * f[4] + f[8]) / 6.0
  }

  /** The five-point estimate `s2`. */
  function Medium(f: seq<real>): real
    requires |f| == 9
  {
    (f[0] + 4.0 * f[2] + 2.0 * f[4] + 4.0 * f[6] + f[8]) / 12.0
  }

  /** The nine-point estimate `s3`. */
  function Fine(f: seq<real>): real
    requires |f| == 9
  {
    (f[0] + 4.0 * f[1] + 2.0 * f[2] + 4.0 * f[3] + 2.0 * f[4]
     + 4.0 * f[5] + 2.0 * f[6] + 4.0 * f[7] + f[8]) / 24.0
  }

  /** The five-point rule on absolute values, the weight behind `aAns`. */
  function AbsWeight(f: seq<real>): (w: real)
    requires |f| == 9
    ensures w >= 0.0
  {
    AbsReal(f[0]) + 4.0 * AbsReal(f[2]) + 2.0 * AbsReal(f[4]) + 4.0 * AbsReal(f[6]) + AbsReal(f[8])
  }

  /** The local test: the estimates agree to `eps` relative to `s3`. */
  predicate LocalOk(f: seq<real>, eps: real)
    requires |f| == 9
  {
    var s1, s2, s3 := Coarse(f), Medium(f), Fine(f);
    var eErr := eps * AbsReal(s3);
    AbsReal(s3 - s2) < eErr && AbsReal(s3 - s1) < 16.0 * eErr
  }

  /** The global test: the interval's error fits in the shared budget. */
  predicate GlobalOk(f: seq<real>, a: real, b: real, aEps: real)
    requires |f| == 9
  {
    var s1, s2, s3 := Coarse(f), Medium(f), Fine(f);
    AbsReal(s3 - s2) * (b - a) < 0.1 * aEps && AbsReal(s3 - s1) * (b - a) < 1.6 * aEps
  }

  /** What passing the global test costs the budget. */
  function Charge(f: seq<real>, a: real, b: real): (c: real)
    requires |f| == 9
    ensures c >= 0.0
    // On a proper interval this is what the global test bounds.
    ensures a < b ==> c == AbsReal(Fine(f) - Medium(f)) * (b - a)
  {
    if a < b then AbsOfProduct(Fine(f) - Medium(f), b - a); AbsReal((Fine(f) - Medium(f)) * (b - a))
    else AbsReal((Fine(f) - Medium(f)) * (b - a))
  }

  /** Acceptance of an interval: its share of the integral and of `aAns`. */
  function Accept(acc: Acc, f: seq<real>, a: real, b: real): (r: Acc)
    requires |f| == 9
    ensures r.aEps == acc.aEps && r.aAns >= acc.aAns
  {
    NonNegativeProduct(AbsWeight(f), AbsReal(b - a));
    Acc(acc.aEps, acc.ans + Fine(f) * (b - a), acc.aAns + AbsWeight(f) * AbsReal(b - a) / 12.0)
  }

  lemma NonNegativeProduct(x: real, y: real)
    requires x >= 0.0 && y >= 0.0
    ensures x * y >= 0.0
  {
  }

  lemma PositiveProduct(x: real, y: real)
    requires x > 0.0 && y > 0.0
    ensures x * y > 0.0
  {
  }

  /**
   * The two tests in order: whether the interval is accepted, and the
   * totals after the global test has charged the budget.  Only the global
   * test charges it, and a rejected interval leaves the totals alone.
   */
  function Verdict(f: seq<real>, a: real, b: real, eps: real, acc: Acc): (v: (bool, Acc))
    requires |f| == 9
    ensures v.0 <==> LocalOk(f, eps) || GlobalOk(f, a, b, acc.aEps)
    ensures !v.0 || LocalOk(f, eps) ==> v.1 == acc
    ensures v.1.ans == acc.ans && v.1.aAns == acc.aAns && v.1.aEps <= acc.aEps
  {
    if LocalOk(f, eps) then (true, acc)
    else if GlobalOk(f, a, b, acc.aEps) then (true, acc.(aEps := acc.aEps - Charge(f, a, b)))
    else (false, acc)
  }

  /**
   * The recursion of `r_simpson` on values: the new totals, and the
   * deepest level reached.  An interval accepted by neither test is halved
   * unless its depth exceeds MaxDepth; the budget is threaded from the left
   * half into the right half.
   */
  function Refine(F: real -> real, a: real, b: real, eps: real, acc: Acc, depth: int): (r: (Acc, int))
    decreases MaxDepth + 1 - depth
    // The depth returned is the entry depth or a deeper one, never past MaxDepth + 1.
    ensures depth <= r.1 && (r.1 == depth || r.1 <= MaxDepth + 1)
    // The budget only shrinks, and aAns only grows.
    ensures r.0.aEps <= acc.aEps && r.0.aAns >= acc.aAns
    // On a proper interval a positive budget stays positive.
    ensures a < b && acc.aEps > 0.0 ==> r.0.aEps > 0.0
  {
    var f := Samples(F, a, b);
    var v := Verdict(f, a, b, eps, acc);
    if v.0 || depth > MaxDepth then
      (Accept(v.1, f, a, b), depth)
    else
      var mid := (a + b) / 2.0;
      var left := Refine(F, a, mid, eps, acc, depth + 1);
      var right := Refine(F, mid, b, eps, left.0, depth + 1);
      (right.0, if left.1 > right.1 then left.1 else right.1)
  }

  /** A helper for the non-negativity of Charge. */
  lemma AbsOfProduct(x: real, y: real)
    requires y > 0.0
    ensures AbsReal(x * y) == AbsReal(x) * y
  {
    if x < 0.0 {
      assert x * y < 0.0;
      assert -(x * y) == (-x) * y;
    } else {
      assert x * y >= 0.0;
    }
  }

  /** A level past MaxDepth accepts its interval whatever the estimates say. */
  lemma AcceptsPastMaxDepth(F: real -> real, a: real, b: real, eps: real, acc: Acc, depth: int)
    requires depth > MaxDepth
    ensures Refine(F, a, b, eps, acc, depth).1 == depth
    ensures Refine(F, a, b, eps, acc, depth).0.ans == acc.ans + Fine(Samples(F, a, b)) * (b - a)
  {
  }

  // The sample points of the two halves, in terms of the parent's.

  lemma HalfNodes(a: real, b: real, k: int)
    ensures Node(a, (a + b) / 2.0, k) == Refill(a, a, b, k)
    ensures Node((a + b) / 2.0, b, k) == Refill((a + b) / 2.0, a, b, k)
    ensures Node(a, b, k) == Refill(a, a, b, 2 * k)
    ensures Node(a, b, 4 + k) == Refill((a + b) / 2.0, a, b, 2 * k)
  {
    var d := b - a;
    var kr := k as real;
    assert (a + b) / 2.0 - a == d / 2.0;
    assert b - (a + b) / 2.0 == d / 2.0;
    assert kr * (d / 2.0) / 8.0 == kr * d / 16.0;
    assert ((2 * k) as real) * d / 16.0 == kr * d / 8.0;
    assert ((4 + k) as real) * d / 8.0 == d / 2.0 + kr * d / 8.0;
  }

  /**
   * r_simpson.  On entry `f` holds the nine samples of [a, b]; the in/out
   * pointers `aEps`, `ans`, `aAns` and `deepness` are the parameters
   * `aEps0`, `ans0`, `aAns0`, `deepness0` and the results of the same name.
   * The contents of `f` on return are unspecified, as in the program.
   */
  method RSimpson(F: real -> real, f: array<real>, a: real, b: real, eps: real,
                  aEps0: real, ans0: real, aAns0: real, deepness0: int)
    returns (aEps: real, ans: real, aAns: real, deepness: int)
    requires f.Length == 9 && f[..] == Samples(F, a, b)
    modifies f
    ensures (Acc(aEps, ans, aAns), deepness) == Refine(F, a, b, eps, Acc(aEps0, ans0, aAns0), deepness0)
    decreases MaxDepth + 1 - deepness0, 1
  {
    aEps, ans, aAns, deepness := aEps0, ans0, aAns0, deepness0;
    var samples := f[..];
    var accepted := false;
    if LocalOk(samples, eps) {
      accepted := true;
    } else if GlobalOk(samples, a, b, aEps) {
      accepted := true;
      aEps := aEps - Charge(samples, a, b);
    }
    assert (accepted, Acc(aEps, ans, aAns)) == Verdict(samples, a, b, eps, Acc(aEps0, ans0, aAns0));
    if accepted || deepness0 > MaxDepth {
      var acc := Accept(Acc(aEps, ans, aAns), samples, a, b);
      aEps, ans, aAns := acc.aEps, acc.ans, acc.aAns;
      return;
    }

    aEps, ans, aAns, deepness := Bisect(F, f, a, b, eps, aEps, ans, aAns, deepness0);
  }

  /**
   * The rejected branch of r_simpson: rearranges the buffer for the left
   * half, refines it, rearranges the buffer for the right half, refines it,
   * and returns the deeper of the two depths reached.
   */
  method Bisect(F: real -> real, f: array<real>, a: real, b: real, eps: real,
                aEps0: real, ans0: real, aAns0: real, deepness0: int)
    returns (aEps: real, ans: real, aAns: real, deepness: int)
    requires f.Length == 9 && f[..] == Samples(F, a, b)
    requires deepness0 <= MaxDepth
    modifies f
    ensures var mid := (a + b) / 2.0;
            var left := Refine(F, a, mid, eps, Acc(aEps0, ans0, aAns0), deepness0 + 1);
            var right := Refine(F, mid, b, eps, left.0, deepness0 + 1);
            (Acc(aEps, ans, aAns), deepness) == (right.0, if left.1 > right.1 then left.1 else right.1)
    decreases MaxDepth + 1 - deepness0, 0
  {
    var d1, d2 := deepness0 + 1, deepness0 + 1;
    var mid := (a + b) / 2.0;
    var f1 := SaveRightHalf(f);
    SpreadLeftHalf(F, f, a, b);
    aEps, ans, aAns, d1 := RSimpson(F, f, a, mid, eps, aEps0, ans0, aAns0, d1);
    RestoreRightHalf(F, f, f1, a, b);
    aEps, ans, aAns, d2 := RSimpson(F, f, mid, b, eps, aEps, ans, aAns, d2);
    if d1 > d2 {
      deepness := d1;
    } else {
      deepness := d2;
    }
  }

  /** Copies the five samples of the right half, `f[4..8]`, into a fresh `f1[5]`. */
  method SaveRightHalf(f: array<real>) returns (f1: array<real>)
    requires f.Length == 9
    ensures fresh(f1) && f1.Length == 5 && f1[..] == f[4..]
  {
    f1 := new real[5];
    for i := 0 to 5
      invariant forall k :: 0 <= k < i ==> f1[k] == f[4 + k]
    {
      f1[i] := f[4 + i];
    }
  }

  /**
   * Turns the samples of [a, b] into those of its left half: the even cells
   * take `f[i / 2]` and the odd cells are sampled anew.
   */
  method SpreadLeftHalf(F: real -> real, f: array<real>, a: real, b: real)
    requires f.Length == 9 && f[..] == Samples(F, a, b)
    modifies f
    ensures f[..] == Samples(F, a, (a + b) / 2.0)
  {
    SpreadEven(f);
    ghost var spread := f[..];
    RefillOdd(F, f, a, a, b);
    assert forall j :: 0 <= j < 5 ==> f[2 * j] == spread[2 * j];
    LeftHalfSamples(F, a, b, f[..]);
  }

  /**
   * Moves `f[i / 2]` into every even cell `f[i]`, from the top down so that
   * every cell is read before it is overwritten; the odd cells stay.
   */
  method SpreadEven(f: array<real>)
    requires f.Length == 9
    modifies f
    ensures forall k :: 0 <= k < 5 ==> f[2 * k] == old(f[k])
    ensures forall k :: 0 <= k < 4 ==> f[2 * k + 1] == old(f[2 * k + 1])
  {
    ghost var g := f[..];
    var i := 8;
    ghost var h := 4;
    // Cell by cell, with h = i / 2: the even cells above i hold their new
    // values, everything else is as it was.
    while i > 0
      invariant 0 <= h <= 4 && i == 2 * h
      invariant f[0] == g[0] && f[1] == g[1] && f[3] == g[3] && f[5] == g[5] && f[7] == g[7]
      invariant f[2] == if h < 1 then g[1] else g[2]
      invariant f[4] == if h < 2 then g[2] else g[4]
      invariant f[6] == if h < 3 then g[3] else g[6]
      invariant f[8] == if h < 4 then g[4] else g[8]
    {
      f[i] := f[i / 2];
      i, h := i - 2, h - 1;
    }
  }

  /**
   * Turns the buffer into the samples of the right half of [a, b]: the
   * saved samples `f1` go to the even cells, the odd cells are sampled anew.
   */
  method RestoreRightHalf(F: real -> real, f: array<real>, f1: array<real>, a: real, b: real)
    requires f.Length == 9 && f1.Length == 5 && f != f1
    requires f1[..] == Samples(F, a, b)[4..]
    modifies f
    ensures f[..] == Samples(F, (a + b) / 2.0, b)
  {
    for i := 0 to 5
      invariant forall k :: 0 <= k < i ==> f[2 * k] == f1[k]
    {
      f[2 * i] := f1[i];
    }
    RefillOdd(F, f, (a + b) / 2.0, a, b);
    RightHalfSamples(F, a, b, f[..]);
  }

  /** Samples the odd cells anew at `origin + i * (b - a) / 16`; the even cells stay. */
  method RefillOdd(F: real -> real, f: array<real>, origin: real, a: real, b: real)
    requires f.Length == 9
    modifies f
    ensures forall k :: 0 <= k < 5 ==> f[2 * k] == old(f[2 * k])
    ensures forall k :: 0 <= k < 4 ==> f[2 * k + 1] == F(Refill(origin, a, b, 2 * k + 1))
  {
    var i := 1;
    ghost var h := 0;
    while i < 8
      invariant 0 <= h <= 4 && i == 2 * h + 1
      invariant forall k :: 0 <= k < 5 ==> f[2 * k] == old(f[2 * k])
      invariant forall k :: 0 <= k < h ==> f[2 * k + 1] == F(Refill(origin, a, b, 2 * k + 1))
    {
      f[i] := F(Refill(origin, a, b, i));
      i, h := i + 2, h + 1;
    }
  }

  /** Even cells from the parent's left half and odd cells refilled make the left half's samples. */
  lemma LeftHalfSamples(F: real -> real, a: real, b: real, s: seq<real>)
    requires |s| == 9
    requires forall j :: 0 <= j < 5 ==> s[2 * j] == F(Node(a, b, j))
    requires forall j :: 0 <= j < 4 ==> s[2 * j + 1] == F(Refill(a, a, b, 2 * j + 1))
    ensures s == Samples(F, a, (a + b) / 2.0)
  {
    forall k | 0 <= k < 9
      ensures s[k] == F(Node(a, (a + b) / 2.0, k))
    {
      HalfNodes(a, b, k);
      var j := k / 2;
      if k % 2 == 0 {
        assert k == 2 * j;
        HalfNodes(a, b, j);
      } else {
        assert k == 2 * j + 1;
      }
    }
  }

  /** Even cells from the parent's right half and odd cells refilled make the right half's samples. */
  lemma RightHalfSamples(F: real -> real, a: real, b: real, s: seq<real>)
    requires |s| == 9
    requires forall j :: 0 <= j < 5 ==> s[2 * j] == F(Node(a, b, 4 + j))
    requires forall j :: 0 <= j < 4 ==> s[2 * j + 1] == F(Refill((a + b) / 2.0, a, b, 2 * j + 1))
    ensures s == Samples(F, (a + b) / 2.0, b)
  {
    forall k | 0 <= k < 9
      ensures s[k] == F(Node((a + b) / 2.0, b, k))
    {
      HalfNodes(a, b, k);
      var j := k / 2;
      if k % 2 == 0 {
        assert k == 2 * j;
        HalfNodes(a, b, j);
      } else {
        assert k == 2 * j + 1;
      }
    }
  }

  /** `sum |f[i]|` over the samples, added left to right as the program does. */
  function SumAbs(s: seq<real>): (t: real)
    ensures t >= 0.0
  {
    if |s| == 0 then 0.0 else SumAbs(s[..|s| - 1]) + AbsReal(s[|s| - 1])
  }

  /** The sum of magnitudes vanishes exactly when every sample does. */
  lemma {:induction false} SumAbsZero(s: seq<real>)
    ensures SumAbs(s) == 0.0 <==> forall i :: 0 <= i < |s| ==> s[i] == 0.0
  {
    if |s| > 0 {
      var init := s[..|s| - 1];
      SumAbsZero(init);
      assert forall i :: 0 <= i < |init| ==> init[i] == s[i];
    }
  }

  /**
   * The passes of `simpsonArg` from pass `j` on, with budget `aEps`: each
   * pass refines [a, b] from depth 1 with fresh totals; the loop returns
   * the integral once the budget left, aEps, has fallen below
   * 5 * aAns * eps, or after the third pass, and otherwise starts the next
   * pass with the budget `aAns * eps`.
   */
  function Passes(F: real -> real, a: real, b: real, eps: real, aEps: real, j: int): real
    requires 0 <= j < MaxPasses
    decreases MaxPasses - j
  {
    var acc := Refine(F, a, b, eps, Acc(aEps, 0.0, 0.0), 1).0;
    if Converged(acc, eps) || j >= MaxPasses - 1 then acc.ans
    else Passes(F, a, b, eps, NextBudget(acc, eps), j + 1)
  }

  /** The stopping test after a pass: `5 * aAns * eps > aEps`. */
  predicate Converged(acc: Acc, eps: real)
  {
    5.0 * acc.aAns * eps > acc.aEps
  }

  /** The budget of the next pass, `aAns * eps`. */
  function NextBudget(acc: Acc, eps: real): real
  {
    acc.aAns * eps
  }

  /**
   * simpsonArg on values: 0 on an empty interval or when all nine samples
   * vanish; otherwise the passes.
   */
  function Integrate(F: real -> real, a: real, b: real, eps: real): real
  {
    if a == b then 0.0 else Budgeted(F, a, b, eps, SumAbs(Samples(F, a, b)))
  }

  /**
   * The passes from a sum of magnitudes `total`: none when it is 0,
   * otherwise with half the requested tolerance and a first budget of
   * `eps / 2 * total * |b - a| / 9`.
   */
  function Budgeted(F: real -> real, a: real, b: real, eps: real, total: real): real
  {
    if total == 0.0 then 0.0
    else Passes(F, a, b, Half(eps), FirstBudget(total, Half(eps), a, b), 0)
  }

  /** The halved tolerance, `eps / 2`, the passes work with. */
  function Half(eps: real): real
  {
    eps / 2.0
  }

  /** The budget of the first pass, `eps * total * |b - a| / 9`. */
  function FirstBudget(total: real, eps: real, a: real, b: real): real
  {
    eps * total * AbsReal(b - a) / 9.0
  }

  /** simpsonArg: the integral of `F` over [a, b] to relative accuracy `eps`. */
  method SimpsonArg(F: real -> real, a: real, b: real, eps: real) returns (r: real)
    ensures r == Integrate(F, a, b, eps)
  {
    if a == b {
      return 0.0;
    }
    var f := new real[9];
    var aEps := SampleWithMagnitude(F, f, a, b);
    if aEps == 0.0 {
      return 0.0;
    }
    r := RunPasses(F, f, a, b, eps, aEps);
  }

  /**
   * The rest of simpsonArg once the samples of [a, b] are in `f` and their
   * sum of magnitudes `total` is known to be nonzero: the tolerance is
   * halved, the first budget computed, and the passes run.
   */
  method RunPasses(F: real -> real, f: array<real>, a: real, b: real, eps: real, total: real) returns (r: real)
    requires f.Length == 9 && f[..] == Samples(F, a, b) && total != 0.0
    modifies f
    ensures r == Budgeted(F, a, b, eps, total)
  {
    var e := Half(eps);
    var aEps := FirstBudget(total, e, a, b);
    var j := 0;
    while true
      invariant 0 <= j < MaxPasses
      invariant f[..] == Samples(F, a, b)
      invariant Passes(F, a, b, e, aEps, j) == Budgeted(F, a, b, eps, total)
      decreases MaxPasses - j
    {
      var ans, aAns, deepness;
      ghost var pass := Refine(F, a, b, e, Acc(aEps, 0.0, 0.0), 1).0;
      assert Passes(F, a, b, e, aEps, j)
             == if Converged(pass, e) || j >= MaxPasses - 1 then pass.ans
                else Passes(F, a, b, e, NextBudget(pass, e), j + 1);
      aEps, ans, aAns, deepness := RSimpson(F, f, a, b, e, aEps, 0.0, 0.0, 1);
      assert Acc(aEps, ans, aAns) == pass;
      if Converged(Acc(aEps, ans, aAns), e) || j >= 2 {
        return ans;
      }
      Resample(F, f, a, b);
      aEps := NextBudget(Acc(aEps, ans, aAns), e);
      j := j + 1;
    }
  }

  /** The first sampling loop of simpsonArg, which also sums the magnitudes. */
  method SampleWithMagnitude(F: real -> real, f: array<real>, a: real, b: real) returns (total: real)
    requires f.Length == 9
    modifies f
    ensures f[..] == Samples(F, a, b) && total == SumAbs(Samples(F, a, b))
  {
    total := 0.0;
    for i := 0 to 9
      invariant forall k :: 0 <= k < i ==> f[k] == F(Node(a, b, k))
      invariant total == SumAbs(f[..i])
    {
      f[i] := F(Node(a, b, i));
      assert f[..i + 1][..i] == f[..i];
      total := total + AbsReal(f[i]);
    }
    assert f[..] == f[..9];
  }

  /** The sampling loop between passes of simpsonArg. */
  method Resample(F: real -> real, f: array<real>, a: real, b: real)
    requires f.Length == 9
    modifies f
    ensures f[..] == Samples(F, a, b)
  {
    for i := 0 to 9
      invariant forall k :: 0 <= k < i ==> f[k] == F(Node(a, b, k))
    {
      f[i] := F(Node(a, b, i));
    }
  }

  /** Nine vanishing samples make simpsonArg return 0 without a pass. */
  lemma IntegrateOfVanishingSamples(F: real -> real, a: real, b: real, eps: real)
    requires forall i :: 0 <= i < 9 ==> F(Node(a, b, i)) == 0.0
    ensures Integrate(F, a, b, eps) == 0.0
  {
    SumAbsZero(Samples(F, a, b));
  }

  // Exactness on linear integrands: every Simpson estimate of x => p * x + q
  // is its mean value, so the first interval is accepted and contributes
  // the exact integral.

  function Linear(p: real, q: real): real -> real
  {
    x => p * x + q
  }

  /** The integral of x => p * x + q over [a, b]. */
  function LinearIntegral(p: real, q: real, a: real, b: real): real
  {
    p * (b * b - a * a) / 2.0 + q * (b - a)
  }

  /** The mean value of x => p * x + q over [a, b]. */
  function LinearMean(p: real, q: real, a: real, b: real): real
  {
    p * (a + b) / 2.0 + q
  }

  /** Sample i of x => p * x + q over [a, b]: the first sample plus i steps of p * (b - a) / 8. */
  lemma LinearSample(p: real, q: real, a: real, b: real, i: int)
    requires 0 <= i < 9
    ensures Samples(Linear(p, q), a, b)[i] == (p * a + q) + (i as real) * (p * ((b - a) / 8.0))
  {
    var ir := i as real;
    var d := (b - a) / 8.0;
    assert Node(a, b, i) == a + ir * d;
    assert p * (a + ir * d) == p * a + ir * (p * d);
  }

  /** On equally spaced values u, u + w, ..., u + 8w the three estimates all give the middle value. */
  lemma EstimatesOfArithmetic(s: seq<real>, u: real, w: real)
    requires |s| == 9 && forall i :: 0 <= i < 9 ==> s[i] == u + (i as real) * w
    ensures Coarse(s) == u + 4.0 * w && Medium(s) == Coarse(s) && Fine(s) == Coarse(s)
  {
    assert s[0] == u && s[1] == u + w && s[2] == u + 2.0 * w && s[3] == u + 3.0 * w && s[4] == u + 4.0 * w;
    assert s[5] == u + 5.0 * w && s[6] == u + 6.0 * w && s[7] == u + 7.0 * w && s[8] == u + 8.0 * w;
  }

  /** The middle sample of x => p * x + q is its mean value. */
  lemma MiddleOfLinear(p: real, q: real, a: real, b: real)
    ensures (p * a + q) + 4.0 * (p * ((b - a) / 8.0)) == LinearMean(p, q, a, b)
  {
    assert 4.0 * (p * ((b - a) / 8.0)) == p * (b - a) / 2.0;
    assert p * a + p * (b - a) / 2.0 == p * (a + b) / 2.0;
  }

  lemma EstimatesOfLinear(p: real, q: real, a: real, b: real)
    ensures var s := Samples(Linear(p, q), a, b);
            Coarse(s) == LinearMean(p, q, a, b) && Medium(s) == Coarse(s) && Fine(s) == Coarse(s)
  {
    var s := Samples(Linear(p, q), a, b);
    var u := p * a + q;
    var w := p * ((b - a) / 8.0);
    forall i | 0 <= i < 9
      ensures s[i] == u + (i as real) * w
    {
      LinearSample(p, q, a, b, i);
    }
    EstimatesOfArithmetic(s, u, w);
    MiddleOfLinear(p, q, a, b);
  }

  lemma MeanTimesWidth(p: real, q: real, a: real, b: real)
    ensures LinearMean(p, q, a, b) * (b - a) == LinearIntegral(p, q, a, b)
  {
    assert (a + b) * (b - a) == b * b - a * a;
    assert p * (a + b) / 2.0 * (b - a) == p * ((a + b) * (b - a)) / 2.0;
  }

  /** Three equal estimates pass one of the two tests whenever the budget is positive. */
  lemma VerdictOnAgreement(s: seq<real>, a: real, b: real, eps: real, acc: Acc)
    requires |s| == 9 && Medium(s) == Fine(s) && Coarse(s) == Fine(s) && acc.aEps > 0.0
    ensures Verdict(s, a, b, eps, acc) == (true, acc)
  {
    if !LocalOk(s, eps) {
      assert GlobalOk(s, a, b, acc.aEps);
      assert Charge(s, a, b) == 0.0;
    }
  }

  /**
   * On a linear integrand with a positive budget, r_simpson accepts the
   * interval at once, leaves the budget alone, and adds the exact integral.
   */
  lemma RefineExactOnLinear(p: real, q: real, a: real, b: real, eps: real, acc: Acc, depth: int)
    requires acc.aEps > 0.0
    ensures var r := Refine(Linear(p, q), a, b, eps, acc, depth);
            r.1 == depth && r.0.aEps == acc.aEps
            && r.0.ans == acc.ans + LinearIntegral(p, q, a, b)
            && r.0.aAns == Accept(acc, Samples(Linear(p, q), a, b), a, b).aAns
  {
    EstimatesOfLinear(p, q, a, b);
    MeanTimesWidth(p, q, a, b);
    RefineOnAgreement(Linear(p, q), a, b, eps, acc, depth);
  }

  /** Three equal estimates with a positive budget: the interval is accepted at once with the budget untouched. */
  lemma RefineOnAgreement(F: real -> real, a: real, b: real, eps: real, acc: Acc, depth: int)
    requires acc.aEps > 0.0
    requires var s := Samples(F, a, b); Medium(s) == Fine(s) && Coarse(s) == Fine(s)
    ensures Refine(F, a, b, eps, acc, depth) == (Accept(acc, Samples(F, a, b), a, b), depth)
  {
    VerdictOnAgreement(Samples(F, a, b), a, b, eps, acc);
  }

  /** An accepted interval with some nonzero weight strictly raises aAns. */
  lemma AcceptRaisesAAns(acc: Acc, s: seq<real>, a: real, b: real)
    requires |s| == 9 && AbsWeight(s) > 0.0 && a != b
    ensures Accept(acc, s, a, b).aAns > acc.aAns
  {
    assert AbsReal(b - a) > 0.0;
    assert AbsWeight(s) * AbsReal(b - a) > 0.0;
  }

  /** The ends of [a, b] are among the nodes the weight of aAns counts. */
  lemma AbsWeightBelow(s: seq<real>)
    requires |s| == 9
    ensures AbsWeight(s) >= AbsReal(s[0]) + AbsReal(s[8])
  {
  }

  lemma {:induction false} PassesExactOnLinear(p: real, q: real, a: real, b: real, eps: real, aEps: real, j: int)
    requires 0 <= j < MaxPasses && eps > 0.0 && aEps > 0.0 && a != b
    requires AbsWeight(Samples(Linear(p, q), a, b)) > 0.0
    ensures Passes(Linear(p, q), a, b, eps, aEps, j) == LinearIntegral(p, q, a, b)
    decreases MaxPasses - j
  {
    var start := Acc(aEps, 0.0, 0.0);
    RefineExactOnLinear(p, q, a, b, eps, start, 1);
    var acc := Refine(Linear(p, q), a, b, eps, start, 1).0;
    if !(Converged(acc, eps) || j >= MaxPasses - 1) {
      AcceptRaisesAAns(start, Samples(Linear(p, q), a, b), a, b);
      assert acc.aAns > 0.0;
      assert NextBudget(acc, eps) > 0.0;
      PassesExactOnLinear(p, q, a, b, eps, NextBudget(acc, eps), j + 1);
    }
  }

  /** A linear function that vanishes at two distinct points is zero. */
  lemma LinearVanishing(p: real, q: real, a: real, b: real)
    requires a != b && p * a + q == 0.0 && p * b + q == 0.0
    ensures p == 0.0 && q == 0.0
  {
    assert p * (b - a) == 0.0;
    assert p == p * (b - a) / (b - a);
  }

  /** The samples of a linear function over [a, b], a != b, all vanish exactly when the two end samples do. */
  lemma LinearSamplesVanish(p: real, q: real, a: real, b: real)
    requires a != b
    ensures var s := Samples(Linear(p, q), a, b);
            SumAbs(s) == 0.0 <==> s[0] == 0.0 && s[8] == 0.0
  {
    var s := Samples(Linear(p, q), a, b);
    var u, w := p * a + q, p * ((b - a) / 8.0);
    forall i | 0 <= i < 9
      ensures s[i] == u + (i as real) * w
    {
      LinearSample(p, q, a, b, i);
    }
    SumAbsZero(s);
    if s[0] == 0.0 && s[8] == 0.0 {
      ArithmeticVanishing(s, u, w);
    }
  }

  /** Equally spaced values that start and end at 0 are all 0. */
  lemma ArithmeticVanishing(s: seq<real>, u: real, w: real)
    requires |s| == 9 && forall i :: 0 <= i < 9 ==> s[i] == u + (i as real) * w
    requires s[0] == 0.0 && s[8] == 0.0
    ensures forall i :: 0 <= i < 9 ==> s[i] == 0.0
  {
    assert u == 0.0 && w == 0.0;
  }

  /** A positive sum of magnitudes and tolerance over a proper interval give a positive first budget. */
  lemma FirstBudgetPositive(total: real, eps: real, a: real, b: real)
    requires total > 0.0 && eps > 0.0 && a != b
    ensures FirstBudget(total, eps, a, b) > 0.0
  {
    PositiveProduct(eps, total);
    PositiveProduct(eps * total, AbsReal(b - a));
  }

  /** simpsonArg integrates every linear function exactly, for any positive tolerance. */
  lemma IntegrateExactOnLinear(p: real, q: real, a: real, b: real, eps: real)
    requires eps > 0.0
    ensures Integrate(Linear(p, q), a, b, eps) == LinearIntegral(p, q, a, b)
  {
    var s := Samples(Linear(p, q), a, b);
    if a != b {
      var total := SumAbs(s);
      LinearSamplesVanish(p, q, a, b);
      if total == 0.0 {
        LinearVanishing(p, q, a, b);
      } else {
        AbsWeightBelow(s);
        var e := Half(eps);
        FirstBudgetPositive(total, e, a, b);
        PassesExactOnLinear(p, q, a, b, e, FirstBudget(total, e, a, b), 0);
      }
    }
  }
}
