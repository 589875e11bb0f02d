/** The parameter bookkeeping of the Metastable Switching Linear Dynamical
    System (`MetastableSwitchingLDS` in Mixtape/mslds.py): the hot start that
    builds a first parameter set, the metastable-well formula, the forward
    sampler, and the property setters that mirror every parameter into the
    inference engine's copy.

    Everything numerical that the class hands to other libraries (k-means,
    `np.cov`, `np.linalg.inv`, the Gaussian and categorical draws) is a
    function-typed parameter: the model fixes what is done with the answers,
    not how they are computed. */
module Mslds {

  import opened Wrappers
  import opened Linalg

  /** The damping constant `self.eps`. */
  const Eps: real := 0.2

  /** The value written over covariance entries that are exactly zero. */
  const CovarFloor: real := 0.00001

  /** Constructor arguments of the model. `nStates` (K) and `nFeatures` (D)
      size every parameter array; the others steer `fit`. */
  datatype Config = Config(
    nStates: nat,
    nFeatures: nat,
    nInit: int,
    nHotstartSequences: int,
    params: set<char>,
    nEmIter: int,
    nHotstart: int)

  /** One complete parameter set: emission `means`/`covars`, per-state
      dynamics `As`, `bs`, process noise `Qs`, and the hidden chain's
      `transmat` and initial distribution `populations`. */
  datatype Params = Params(
    means: seq<Vector>,
    covars: seq<Matrix>,
    As: seq<Matrix>,
    bs: seq<Vector>,
    Qs: seq<Matrix>,
    transmat: Matrix,
    populations: Vector)

  /** Every array of `p` has the shape K states with D features demand. */
  predicate WellFormed(p: Params, k: nat, d: nat)
  {
    && IsMatrix(p.means, k, d)
    && |p.covars| == k && (forall s :: 0 <= s < k ==> IsMatrix(p.covars[s], d, d))
    && |p.As| == k && (forall s :: 0 <= s < k ==> IsMatrix(p.As[s], d, d))
    && IsMatrix(p.bs, k, d)
    && |p.Qs| == k && (forall s :: 0 <= s < k ==> IsMatrix(p.Qs[s], d, d))
    && IsMatrix(p.transmat, k, k)
    && |p.populations| == k
  }

  /** numpy indexing of an axis of length `n`: negative indices count from
      the end, anything else out of range is an `IndexError` (`None`). */
  function PyIndex(i: int, n: nat): (r: Option<nat>)
    ensures r.Some? <==> -(n as int) <= i < n
    ensures r.Some? ==> r.value < n && (r.value == i || r.value == i + n)
  {
    if 0 <= i < n then Some(i)
    else if -(n as int) <= i < 0 then Some((i + n) as nat)
    else None
  }

  // -----------------------------------------------------------------------
  // Hot start (`_init`)
  // -----------------------------------------------------------------------

  datatype InitError =
    | EmptyPool        // `np.vstack` of no sequences
    | ClusteringFailed // k-means refused the pool
    | ZeroStates       // `1.0 / n_states` with no states
    | ShapeMismatch    // centers or covariance not sized K-by-D / D-by-D

  /** The library calls of the hot start. `kmeans(restart, pool, K)` is the
      cluster centers k-means finds on `pool` in the given restart (its random
      initialisation is what makes restarts differ), `None` when it fails;
      `cov(pool)` is the sample covariance `np.cov(pool.T)`. */
  datatype HotStartOracles = HotStartOracles(
    kmeans: (int, seq<Vector>, nat) -> Option<seq<Vector>>,
    cov: seq<Vector> -> Matrix)

  /** How many leading sequences `sequences[0:min(len(sequences), n)]` keeps,
      with Python's slice rule for a negative stop. */
  function HotStartCount(nSeqs: nat, n: int): (c: nat)
    ensures c <= nSeqs
    ensures 0 <= n ==> c == (if n < nSeqs then n else nSeqs)
    ensures n < 0 ==> c == (if nSeqs + n < 0 then 0 else nSeqs + n)
  {
    var stop := if nSeqs < n then nSeqs else n;
    if stop >= 0 then stop
    else if nSeqs + stop >= 0 then nSeqs + stop
    else 0
  }

  /** `np.vstack`: the rows of all sequences, in order. */
  function Flatten(ss: seq<seq<Vector>>): (rows: seq<Vector>)
    ensures |ss| > 0 ==> rows == ss[0] + Flatten(ss[1..])
  {
    if |ss| == 0 then [] else ss[0] + Flatten(ss[1..])
  }

  /** The pool of observations the hot start clusters. */
  function Pool(seqs: seq<seq<Vector>>, nHotstartSequences: int): seq<Vector>
  {
    Flatten(seqs[..HotStartCount(|seqs|, nHotstartSequences)])
  }

  /** `covars[covars == 0] = 1e-5` on one matrix. */
  function FloorZeros(m: Matrix): (r: Matrix)
    ensures |r| == |m|
    ensures forall i :: 0 <= i < |m| ==> |r[i]| == |m[i]|
    ensures forall i, j :: 0 <= i < |m| && 0 <= j < |m[i]| ==>
      r[i][j] == (if m[i][j] == 0.0 then CovarFloor else m[i][j])
  {
    seq(|m|, i requires 0 <= i < |m| =>
      seq(|m[i]|, j requires 0 <= j < |m[i]| => if m[i][j] == 0.0 then CovarFloor else m[i][j]))
  }

  /** `np.eye(D) - eps` as the source writes it: eps is subtracted from
      every entry, off-diagonal ones included. */
  function EyeMinusEps(d: nat): (a: Matrix)
    ensures IsMatrix(a, d, d)
    ensures forall i, j :: 0 <= i < d && 0 <= j < d ==> a[i][j] == (if i == j then 1.0 else 0.0) - Eps
  {
    seq(d, i requires 0 <= i < d => seq(d, j requires 0 <= j < d => (if i == j then 1.0 else 0.0) - Eps))
  }

  /** `(1 - eps) * np.eye(D)`: the contraction the hot start is meant to
      start from. */
  function DampedIdentity(d: nat): (a: Matrix)
    ensures IsMatrix(a, d, d)
    ensures forall i, j :: 0 <= i < d && 0 <= j < d ==> a[i][j] == (if i == j then 1.0 - Eps else 0.0)
  {
    MatScale(1.0 - Eps, Identity(d))
  }

  /** The parameter set the hot start assembles from the k-means centers,
      the pooled covariance `cv` and the starting dynamics `a0`. */
  function Assemble(k: nat, d: nat, centers: seq<Vector>, cv: Matrix, a0: Matrix): (p: Params)
    requires k > 0
    requires IsMatrix(centers, k, d) && IsMatrix(cv, d, d) && IsMatrix(a0, d, d)
    ensures WellFormed(p, k, d)
    ensures p.means == centers
    ensures forall s, i, j :: 0 <= s < k && 0 <= i < d && 0 <= j < d ==>
              p.covars[s][i][j] == (if cv[i][j] == 0.0 then CovarFloor else cv[i][j])
    ensures forall s, i, j :: 0 <= s < k && 0 <= i < d && 0 <= j < d ==>
              p.Qs[s][i][j] == Eps * p.covars[s][i][j]
    ensures forall i, j :: 0 <= i < k && 0 <= j < k ==> p.transmat[i][j] == 1.0 / (k as real)
    ensures forall i :: 0 <= i < k ==> p.populations[i] == 1.0 / (k as real)
    ensures forall s :: 0 <= s < k ==> p.As[s] == a0
    ensures forall s :: 0 <= s < k ==> p.bs[s] == MatVec(MatSub(Identity(d), p.As[s]), p.means[s])
  {
    var covars := seq(k, _ => FloorZeros(cv));
    Params(
      means := centers,
      covars := covars,
      As := seq(k, _ => a0),
      bs := seq(k, s requires 0 <= s < k => MatVec(MatSub(Identity(d), a0), centers[s])),
      Qs := seq(k, s requires 0 <= s < k => MatScale(Eps, covars[s])),
      transmat := seq(k, _ => seq(k, _ => 1.0 / (k as real))),
      populations := seq(k, _ => 1.0 / (k as real)))
  }

  /** The hot start with the per-state starting dynamics `a0` as a
      parameter; `Init` and `InitAsWritten` differ only in `a0`. It fails
      exactly when the source raises, in the source's order. */
  function HotStart(cfg: Config, seqs: seq<seq<Vector>>, restart: int,
                    oracles: HotStartOracles, a0: Matrix): (r: Result<Params, InitError>)
    requires IsMatrix(a0, cfg.nFeatures, cfg.nFeatures)
    ensures var pool := Pool(seqs, cfg.nHotstartSequences);
            var centers := oracles.kmeans(restart, pool, cfg.nStates);
            var cv := oracles.cov(pool);
            && (r == Failure(EmptyPool) <==> HotStartCount(|seqs|, cfg.nHotstartSequences) == 0)
            && (r == Failure(ClusteringFailed) <==>
                  HotStartCount(|seqs|, cfg.nHotstartSequences) > 0 && centers.None?)
            && (r.Success? <==>
                  && HotStartCount(|seqs|, cfg.nHotstartSequences) > 0
                  && centers.Some? && cfg.nStates > 0
                  && IsMatrix(centers.value, cfg.nStates, cfg.nFeatures)
                  && IsMatrix(cv, cfg.nFeatures, cfg.nFeatures))
            && (r.Success? ==>
                  && WellFormed(r.value, cfg.nStates, cfg.nFeatures)
                  && r.value == Assemble(cfg.nStates, cfg.nFeatures, centers.value, cv, a0))
  {
    var k := cfg.nStates;
    var d := cfg.nFeatures;
    if HotStartCount(|seqs|, cfg.nHotstartSequences) == 0 then Failure(EmptyPool)
    else
      var pool := Pool(seqs, cfg.nHotstartSequences);
      var centers := oracles.kmeans(restart, pool, k);
      var cv := oracles.cov(pool);
      if centers.None? then Failure(ClusteringFailed)
      else if k == 0 then Failure(ZeroStates)
      else if !IsMatrix(centers.value, k, d) || !IsMatrix(cv, d, d) then Failure(ShapeMismatch)
      else Success(Assemble(k, d, centers.value, cv, a0))
  }

  /** `_init` with its dynamics line as written. */
  function InitAsWritten(cfg: Config, seqs: seq<seq<Vector>>, restart: int,
                         oracles: HotStartOracles): (r: Result<Params, InitError>)
    ensures r.Success? ==> WellFormed(r.value, cfg.nStates, cfg.nFeatures)
    ensures r.Success? ==> forall s, i, j :: 0 <= s < cfg.nStates && 0 <= i < cfg.nFeatures && 0 <= j < cfg.nFeatures ==>
      r.value.As[s][i][j] == (if i == j then 1.0 else 0.0) - Eps
  {
    HotStart(cfg, seqs, restart, oracles, EyeMinusEps(cfg.nFeatures))
  }

  /** `_init` with the dynamics `(1 - eps) I` the hot start intends; the rest
      of the model starts every restart from this. */
  function Init(cfg: Config, seqs: seq<seq<Vector>>, restart: int,
                oracles: HotStartOracles): (r: Result<Params, InitError>)
    ensures r.Success? ==> WellFormed(r.value, cfg.nStates, cfg.nFeatures)
    ensures r.Success? ==> forall s, i, j :: 0 <= s < cfg.nStates && 0 <= i < cfg.nFeatures && 0 <= j < cfg.nFeatures ==>
      r.value.As[s][i][j] == (if i == j then 1.0 - Eps else 0.0)
  {
    HotStart(cfg, seqs, restart, oracles, DampedIdentity(cfg.nFeatures))
  }

  /** After a successful hot start both stochastic parameters are
      distributions: every `transmat` row and `populations` sum to 1. */
  lemma HotStartStochastic(cfg: Config, seqs: seq<seq<Vector>>, restart: int,
                           oracles: HotStartOracles, a0: Matrix)
    requires IsMatrix(a0, cfg.nFeatures, cfg.nFeatures)
    requires HotStart(cfg, seqs, restart, oracles, a0).Success?
    ensures var p := HotStart(cfg, seqs, restart, oracles, a0).value;
            && (forall i :: 0 <= i < cfg.nStates ==> Sum(p.transmat[i]) == 1.0)
            && Sum(p.populations) == 1.0
  {
    var p := HotStart(cfg, seqs, restart, oracles, a0).value;
    var k := cfg.nStates;
    forall i | 0 <= i < k
      ensures Sum(p.transmat[i]) == 1.0
    {
      UniformSumsToOne(p.transmat[i], k);
    }
    UniformSumsToOne(p.populations, k);
  }

  /** k entries of `1.0 / k` add up to one. */
  lemma UniformSumsToOne(s: Vector, k: nat)
    requires k > 0 && |s| == k
    requires forall i :: 0 <= i < k ==> s[i] == 1.0 / (k as real)
    ensures Sum(s) == 1.0
  {
    SumConst(s, 1.0 / (k as real));
  }

  /** With the dynamics as written, `I - A` is eps in every entry, so each
      offset `b_k` is eps times the sum of the center's coordinates, in every
      coordinate. */
  lemma AsWrittenOffsets(cfg: Config, seqs: seq<seq<Vector>>, restart: int,
                         oracles: HotStartOracles)
    requires InitAsWritten(cfg, seqs, restart, oracles).Success?
    ensures var p := InitAsWritten(cfg, seqs, restart, oracles).value;
            forall s, i :: 0 <= s < cfg.nStates && 0 <= i < cfg.nFeatures ==>
              p.bs[s][i] == Eps * Sum(p.means[s])
  {
    var p := InitAsWritten(cfg, seqs, restart, oracles).value;
    var d := cfg.nFeatures;
    var gap := MatSub(Identity(d), EyeMinusEps(d));
    forall s, i | 0 <= s < cfg.nStates && 0 <= i < d
      ensures p.bs[s][i] == Eps * Sum(p.means[s])
    {
      var m := p.means[s];
      var terms := seq(d, j requires 0 <= j < d => gap[i][j] * m[j]);
      SumScale(Eps, m, terms);
    }
  }

  // -----------------------------------------------------------------------
  // Metastable wells (`compute_metastable_wells`)
  // -----------------------------------------------------------------------

  datatype WellsError =
    | Singular(state: nat)       // `np.linalg.inv` raised `LinAlgError`
    | BadInverse(state: nat)     // the inverse cannot be applied to `b_k`

  /** `eye(D) - As[k]`, the matrix the well formula inverts. */
  function Gap(p: Params, s: nat, d: nat): (g: Matrix)
    requires s < |p.As| && IsMatrix(p.As[s], d, d)
    ensures IsMatrix(g, d, d)
  {
    MatSub(Identity(d), p.As[s])
  }

  /** `inv` honestly answers for `m`: what it returns is a left inverse. */
  ghost predicate InverseSound(inv: Matrix -> Option<Matrix>, m: Matrix, d: nat)
    requires IsMatrix(m, d, d)
  {
    inv(m).Some? ==> IsMatrix(inv(m).value, d, d) && MatMul(inv(m).value, m, d) == Identity(d)
  }

  /** `inv` finds an inverse of `m` whenever one exists. */
  ghost predicate InverseComplete(inv: Matrix -> Option<Matrix>, m: Matrix, d: nat)
    requires IsMatrix(m, d, d)
  {
    (exists n :: IsMatrix(n, d, d) && MatMul(n, m, d) == Identity(d)) ==> inv(m).Some?
  }

  /** `compute_metastable_wells`: the fixed point `(I - A_k)^{-1} b_k` of
      every state's noiseless dynamics, states in order; `inv` stands for
      `np.linalg.inv` and `None` for its `LinAlgError`. */
  function Wells(p: Params, k: nat, d: nat, inv: Matrix -> Option<Matrix>): (r: Result<seq<Vector>, WellsError>)
    requires WellFormed(p, k, d)
    ensures r.Success? ==> IsMatrix(r.value, k, d)
    ensures r.Success? <==> forall s :: 0 <= s < k ==>
              inv(Gap(p, s, d)).Some? && IsMatrix(inv(Gap(p, s, d)).value, d, d)
    ensures r.Success? ==> forall s :: 0 <= s < k ==>
              r.value[s] == MatVec(inv(Gap(p, s, d)).value, p.bs[s])
    ensures r.Failure? && r.error.Singular? ==> r.error.state < k && inv(Gap(p, r.error.state, d)).None?
  {
    WellsPrefix(p, k, d, inv, k)
  }

  /** The wells of the first `n` states, computed as the loop of
      `compute_metastable_wells` does after `n` rounds. */
  function WellsPrefix(p: Params, k: nat, d: nat, inv: Matrix -> Option<Matrix>, n: nat): (r: Result<seq<Vector>, WellsError>)
    requires WellFormed(p, k, d)
    requires n <= k
    ensures r.Success? ==> IsMatrix(r.value, n, d)
    ensures r.Success? <==> forall s :: 0 <= s < n ==>
              inv(Gap(p, s, d)).Some? && IsMatrix(inv(Gap(p, s, d)).value, d, d)
    ensures r.Success? ==> forall s :: 0 <= s < n ==>
              r.value[s] == MatVec(inv(Gap(p, s, d)).value, p.bs[s])
    ensures r.Failure? && r.error.Singular? ==> r.error.state < n && inv(Gap(p, r.error.state, d)).None?
    decreases n
  {
    if n == 0 then Success([])
    else
      match WellsPrefix(p, k, d, inv, n - 1)
      case Failure(e) => Failure(e)
      case Success(ws) =>
        match inv(Gap(p, n - 1, d))
        case None => Failure(Singular(n - 1))
        case Some(m) =>
          if !IsMatrix(m, d, d) then Failure(BadInverse(n - 1))
          else Success(ws + [MatVec(m, p.bs[n - 1])])
  }

  /** Whenever each offset was built as `b_k = (I - A_k) m_k` (as the hot
      start does) and the inverse is honest, the wells are exactly the
      `m_k`: the well formula undoes the offset construction. */
  lemma WellsRecoverCenters(p: Params, k: nat, d: nat, inv: Matrix -> Option<Matrix>)
    requires WellFormed(p, k, d)
    requires forall s :: 0 <= s < k ==> p.bs[s] == MatVec(Gap(p, s, d), p.means[s])
    requires forall s :: 0 <= s < k ==> InverseSound(inv, Gap(p, s, d), d)
    ensures Wells(p, k, d, inv).Success? ==> Wells(p, k, d, inv).value == p.means
  {
    var r := Wells(p, k, d, inv);
    if r.Success? {
      forall s | 0 <= s < k
        ensures r.value[s] == p.means[s]
      {
        var g := Gap(p, s, d);
        var n := inv(g).value;
        MatVecAssoc(n, g, p.means[s]);
        MatVecIdentity(p.means[s]);
      }
    }
  }

  /** `I - (1 - eps) I`, the gap of every state after `Init`. */
  function DampedGap(d: nat): (g: Matrix)
    ensures IsMatrix(g, d, d)
    ensures forall i, j :: 0 <= i < d && 0 <= j < d ==> g[i][j] == (if i == j then Eps else 0.0)
  {
    MatSub(Identity(d), DampedIdentity(d))
  }

  /** One entry of `((1 / eps) I) (I - (1 - eps) I)`. */
  lemma DampedGapInverseEntry(d: nat, i: nat, j: nat)
    requires i < d && j < d
    ensures Dot(MatScale(1.0 / Eps, Identity(d))[i], ColumnOf(DampedGap(d), j)) == Identity(d)[i][j]
  {
    var n := MatScale(1.0 / Eps, Identity(d));
    var col := ColumnOf(DampedGap(d), j);
    var terms := seq(d, k requires 0 <= k < d => n[i][k] * col[k]);
    forall k | 0 <= k < d && k != i
      ensures terms[k] == 0.0
    {
      assert n[i][k] == 0.0;
    }
    assert n[i][i] == 1.0 / Eps;
    SumSingle(terms, i);
  }

  /** `I - (1 - eps) I` is invertible, with inverse `(1 / eps) I`. */
  lemma DampedGapInvertible(d: nat)
    ensures MatMul(MatScale(1.0 / Eps, Identity(d)), DampedGap(d), d) == Identity(d)
  {
    var p := MatMul(MatScale(1.0 / Eps, Identity(d)), DampedGap(d), d);
    var id := Identity(d);
    forall i | 0 <= i < d
      ensures p[i] == id[i]
    {
      forall j | 0 <= j < d
        ensures p[i][j] == id[i][j]
      {
        DampedGapInverseEntry(d, i, j);
      }
    }
  }

  /** With the intended starting dynamics, an honest and complete inverse
      always succeeds on a fresh hot start and the wells are the k-means
      centers, for every number of features. */
  lemma InitWellsAreCenters(cfg: Config, seqs: seq<seq<Vector>>, restart: int,
                            oracles: HotStartOracles, inv: Matrix -> Option<Matrix>)
    requires Init(cfg, seqs, restart, oracles).Success?
    requires InverseSound(inv, DampedGap(cfg.nFeatures), cfg.nFeatures)
    requires InverseComplete(inv, DampedGap(cfg.nFeatures), cfg.nFeatures)
    ensures var p := Init(cfg, seqs, restart, oracles).value;
            Wells(p, cfg.nStates, cfg.nFeatures, inv) == Success(p.means)
  {
    var p := Init(cfg, seqs, restart, oracles).value;
    var d := cfg.nFeatures;
    DampedGapInvertible(d);
    assert IsMatrix(MatScale(1.0 / Eps, Identity(d)), d, d);
    assert inv(DampedGap(d)).Some?;
    forall s | 0 <= s < cfg.nStates
      ensures Gap(p, s, d) == DampedGap(d)
      ensures p.bs[s] == MatVec(Gap(p, s, d), p.means[s])
    {
      assert p.As[s] == DampedIdentity(d);
    }
    WellsRecoverCenters(p, cfg.nStates, d, inv);
  }

  /** With the dynamics as written and two or more features, `I - A` is
      singular: it sends `e_0 - e_1` to zero, so no matrix inverts it. */
  lemma AsWrittenGapSingular(d: nat, n: Matrix)
    requires d >= 2
    requires IsMatrix(n, d, d)
    ensures MatMul(n, MatSub(Identity(d), EyeMinusEps(d)), d) != Identity(d)
  {
    var g := MatSub(Identity(d), EyeMinusEps(d));
    var x := DiffVector(d);
    forall i | 0 <= i < d
      ensures MatVec(g, x)[i] == 0.0
    {
      assert forall j :: 0 <= j < d ==> g[i][j] == Eps;
      ConstantRowKillsDiff(g[i], d);
    }
    assert MatVec(g, x) == Zeros(d);
    NoLeftInverseWithKernel(g, x, n);
  }

  /** `e_0 - e_1` in d dimensions. */
  function DiffVector(d: nat): (x: Vector)
    requires d >= 2
    ensures |x| == d && x[0] == 1.0
  {
    seq(d, i requires 0 <= i < d => if i == 0 then 1.0 else if i == 1 then -1.0 else 0.0)
  }

  /** A row with every entry equal to eps is orthogonal to `e_0 - e_1`. */
  lemma ConstantRowKillsDiff(row: Vector, d: nat)
    requires d >= 2 && |row| == d
    requires forall j :: 0 <= j < d ==> row[j] == Eps
    ensures Dot(row, DiffVector(d)) == 0.0
  {
    var x := DiffVector(d);
    var terms := seq(d, j requires 0 <= j < d => row[j] * x[j]);
    var tail := terms[2..];
    assert forall j :: 0 <= j < |tail| ==> tail[j] == terms[j + 2] == 0.0;
    SumConst(tail, 0.0);
    SumSplit(terms, 2);
    assert terms[..2] == [Eps, -Eps];
    assert [Eps, -Eps][..1] == [Eps];
    assert [Eps][..0] == [];
    assert Sum([Eps]) == Eps;
  }

  lemma {:induction false} SumSplit(s: seq<real>, i: nat)
    requires i <= |s|
    ensures Sum(s) == Sum(s[..i]) + Sum(s[i..])
    decreases |s|
  {
    if i < |s| {
      SumSplit(s[..|s| - 1], i);
      assert s[..|s| - 1][..i] == s[..i];
      assert s[i..][..|s| - i - 1] == s[..|s| - 1][i..];
    } else {
      assert s[..i] == s;
      assert s[i..] == [];
    }
  }

  /** Hence with the dynamics as written and D >= 2, an honest inverse must
      refuse state 0 and the well formula cannot be evaluated at all. */
  lemma AsWrittenWellsFail(cfg: Config, seqs: seq<seq<Vector>>, restart: int,
                           oracles: HotStartOracles, inv: Matrix -> Option<Matrix>)
    requires cfg.nFeatures >= 2
    requires InitAsWritten(cfg, seqs, restart, oracles).Success?
    requires forall m :: IsMatrix(m, cfg.nFeatures, cfg.nFeatures) ==> InverseSound(inv, m, cfg.nFeatures)
    ensures Wells(InitAsWritten(cfg, seqs, restart, oracles).value, cfg.nStates, cfg.nFeatures, inv).Failure?
  {
    var p := InitAsWritten(cfg, seqs, restart, oracles).value;
    var d := cfg.nFeatures;
    var g := Gap(p, 0, d);
    assert g == MatSub(Identity(d), EyeMinusEps(d));
    if inv(g).Some? {
      AsWrittenGapSingular(d, inv(g).value);
      assert false;
    }
  }

  /** With a single feature the line as written coincides with the intended
      one (`1 - eps` is the only entry), so the wells round-trip to the
      centers exactly as for `Init`. */
  lemma AsWrittenOneFeatureAgrees(cfg: Config, seqs: seq<seq<Vector>>, restart: int,
                                  oracles: HotStartOracles)
    requires cfg.nFeatures == 1
    ensures InitAsWritten(cfg, seqs, restart, oracles) == Init(cfg, seqs, restart, oracles)
  {
    assert Identity(1)[0][0] == 1.0;
    assert EyeMinusEps(1)[0][0] == 0.8 == DampedIdentity(1)[0][0];
    assert EyeMinusEps(1)[0] == DampedIdentity(1)[0];
    assert EyeMinusEps(1) == DampedIdentity(1);
  }

  // -----------------------------------------------------------------------
  // Sampling (`sample`)
  // -----------------------------------------------------------------------

  /** The random draws of one sampling run. `categorical(probs, t)` is the
      state drawn at step t from distribution `probs`; `normal(mean, cov, t)`
      the observation drawn at step t from `N(mean, cov)`. */
  datatype Draws = Draws(
    categorical: (Vector, nat) -> int,
    normal: (Vector, Matrix, nat) -> Vector)

  /** The draws are in range: states in `[0, K)`, observations of length D. */
  ghost predicate DrawsInRange(draws: Draws, k: nat, d: nat)
  {
    && (forall probs, t :: 0 <= draws.categorical(probs, t) < k)
    && (forall mean, cov, t :: |draws.normal(mean, cov, t)| == d)
  }

  datatype SampleError =
    | NegativeLength               // `np.zeros` with a negative length
    | IndexOutOfRange(index: int)  // a state index outside the K states, or slot 0 of an empty array
    | BadObservation(length: nat)  // an observation that does not fit a D-vector slot

  datatype Trajectory = Trajectory(obs: seq<Vector>, hiddenState: seq<int>)

  /** Step t of the simulation: from state `h` and observation `o`, the next
      observation `o'` is the draw at step t+1 from `N(A_s o + b_s, Q_s)` and
      the next state `h'` the draw from row s of `transmat`, where s is the
      row numpy reads for index `h`. */
  predicate Stepped(p: Params, k: nat, d: nat, draws: Draws, t: nat,
                    h: int, o: Vector, h': int, o': Vector)
    requires WellFormed(p, k, d)
  {
    && |o| == d
    && PyIndex(h, k).Some?
    && var s := PyIndex(h, k).value;
    && Broadcast(draws.normal(VecAdd(MatVec(p.As[s], o), p.bs[s]), p.Qs[s], t + 1), d) == Some(o')
    && h' == draws.categorical(p.transmat[s], t + 1)
  }

  /** `sample(n_samples, init_state, init_obs)`: simulate the switching
      process forward. Step t+1 draws the observation from
      `N(A_s obs[t] + b_s, Q_s)` and the state from row s of `transmat`,
      where s is the state at step t. */
  method Sample(p: Params, k: nat, d: nat, nSamples: int, initState: Option<int>,
                initObs: Option<Vector>, draws: Draws) returns (r: Result<Trajectory, SampleError>)
    requires WellFormed(p, k, d)
    ensures nSamples < 0 <==> r == Failure(NegativeLength)
    ensures nSamples == 0 ==> r == Failure(IndexOutOfRange(0))
    ensures r.Failure? && r.error.IndexOutOfRange? && nSamples > 0 ==> PyIndex(r.error.index, k).None?
    ensures r.Failure? && r.error.BadObservation? ==> r.error.length != d && r.error.length != 1
    ensures DrawsInRange(draws, k, d) && nSamples >= 1
            && (initState.None? || 0 <= initState.value < k)
            && (initObs.None? || |initObs.value| == d)
            ==> r.Success?
    ensures r.Success? ==>
              var obs := r.value.obs;
              var hidden := r.value.hiddenState;
              && |obs| == nSamples && |hidden| == nSamples
              && (forall t :: 0 <= t < nSamples ==> |obs[t]| == d)
              && hidden[0] == (if initState.Some? then initState.value else draws.categorical(p.populations, 0))
              && (initObs.Some? ==> Broadcast(initObs.value, d) == Some(obs[0]))
              && (initObs.None? ==>
                    PyIndex(hidden[0], k).Some?
                    && var s := PyIndex(hidden[0], k).value;
                    Broadcast(draws.normal(p.means[s], p.covars[s], 0), d) == Some(obs[0]))
    ensures r.Success? ==>
              var obs := r.value.obs;
              var hidden := r.value.hiddenState;
              forall t :: 0 <= t < nSamples - 1 ==>
                Stepped(p, k, d, draws, t, hidden[t], obs[t], hidden[t + 1], obs[t + 1])
  {
    if nSamples < 0 {
      return Failure(NegativeLength);
    }
    if nSamples == 0 {
      return Failure(IndexOutOfRange(0));
    }
    var first := Start(p, k, d, initState, initObs, draws);
    if first.Failure? {
      return Failure(first.error);
    }
    var (h0, o0) := first.value;
    var obs := [o0];
    var hidden := [h0];
    var t := 0;
    while t < nSamples - 1
      invariant 0 <= t < nSamples
      invariant |obs| == t + 1 && |hidden| == t + 1
      invariant obs[0] == o0 && hidden[0] == h0
      invariant forall u :: 0 <= u <= t ==> |obs[u]| == d
      invariant forall u :: 0 <= u < t ==>
                  Stepped(p, k, d, draws, u, hidden[u], obs[u], hidden[u + 1], obs[u + 1])
      invariant DrawsInRange(draws, k, d) ==> forall u :: 0 < u <= t ==> 0 <= hidden[u] < k
    {
      var next := Step(p, k, d, draws, t, hidden[t], obs[t]);
      if next.Failure? {
        return Failure(next.error);
      }
      obs := obs + [next.value.1];
      hidden := hidden + [next.value.0];
      t := t + 1;
    }
    return Success(Trajectory(obs, hidden));
  }

  /** Step 0 of `sample`: the initial state, given or drawn from
      `populations`, and the initial observation, given or drawn from the
      state's `N(means_s, covars_s)`. */
  function Start(p: Params, k: nat, d: nat, initState: Option<int>,
                 initObs: Option<Vector>, draws: Draws): (r: Result<(int, Vector), SampleError>)
    requires WellFormed(p, k, d)
    ensures r.Failure? && r.error.IndexOutOfRange? ==> PyIndex(r.error.index, k).None?
    ensures r.Failure? ==> r.error.IndexOutOfRange? || (r.error.BadObservation? && r.error.length != d && r.error.length != 1)
    ensures DrawsInRange(draws, k, d)
            && (initState.None? || 0 <= initState.value < k)
            && (initObs.None? || |initObs.value| == d)
            ==> r.Success?
    ensures r.Success? ==>
              var (h0, o0) := r.value;
              && |o0| == d
              && h0 == (if initState.Some? then initState.value else draws.categorical(p.populations, 0))
              && (initObs.Some? ==> Broadcast(initObs.value, d) == Some(o0))
              && (initObs.None? ==>
                    PyIndex(h0, k).Some?
                    && var s := PyIndex(h0, k).value;
                    Broadcast(draws.normal(p.means[s], p.covars[s], 0), d) == Some(o0))
  {
    var h0 := if initState.Some? then initState.value else draws.categorical(p.populations, 0);
    if initObs.Some? then
      var b := Broadcast(initObs.value, d);
      if b.None? then Failure(BadObservation(|initObs.value|)) else Success((h0, b.value))
    else
      var s0 := PyIndex(h0, k);
      if s0.None? then Failure(IndexOutOfRange(h0))
      else
        var drawn := draws.normal(p.means[s0.value], p.covars[s0.value], 0);
        var b := Broadcast(drawn, d);
        if b.None? then Failure(BadObservation(|drawn|)) else Success((h0, b.value))
  }

  /** Step t+1 of `sample` from state `h` and observation `o` at step t. */
  function Step(p: Params, k: nat, d: nat, draws: Draws, t: nat, h: int, o: Vector): (r: Result<(int, Vector), SampleError>)
    requires WellFormed(p, k, d)
    requires |o| == d
    ensures r.Success? ==> |r.value.1| == d && Stepped(p, k, d, draws, t, h, o, r.value.0, r.value.1)
    ensures r.Failure? ==>
              || (r.error == IndexOutOfRange(h) && PyIndex(h, k).None?)
              || (r.error.BadObservation? && r.error.length != d && r.error.length != 1)
    ensures DrawsInRange(draws, k, d) && 0 <= h < k ==> r.Success? && 0 <= r.value.0 < k
  {
    var s := PyIndex(h, k);
    if s.None? then Failure(IndexOutOfRange(h))
    else
      var drawn := draws.normal(VecAdd(MatVec(p.As[s.value], o), p.bs[s.value]), p.Qs[s.value], t + 1);
      var b := Broadcast(drawn, d);
      if b.None? then Failure(BadObservation(|drawn|))
      else Success((draws.categorical(p.transmat[s.value], t + 1), b.value))
  }

  // -----------------------------------------------------------------------
  // Property setters
  // -----------------------------------------------------------------------

  /** One assignment through a property setter (`self.As_ = value`, ...). */
  datatype Write =
    | SetMeans(means: seq<Vector>)
    | SetCovars(covars: seq<Matrix>)
    | SetAs(As: seq<Matrix>)
    | SetBs(bs: seq<Vector>)
    | SetQs(Qs: seq<Matrix>)
    | SetTransmat(transmat: Matrix)
    | SetPopulations(populations: Vector)

  /** The model object's own parameters and the inference engine's copy
      (`_impl`; its `populations` field is the engine's `startprob_`). */
  datatype Mirror = Mirror(own: Params, impl: Params)

  /** `p` holds the value `w` writes, in the field `w` writes. */
  predicate Holds(p: Params, w: Write)
  {
    match w
    case SetMeans(v) => p.means == v
    case SetCovars(v) => p.covars == v
    case SetAs(v) => p.As == v
    case SetBs(v) => p.bs == v
    case SetQs(v) => p.Qs == v
    case SetTransmat(v) => p.transmat == v
    case SetPopulations(v) => p.populations == v
  }

  /** `p` and `q` agree on every field `w` does not write. */
  predicate AgreeElsewhere(p: Params, q: Params, w: Write)
  {
    && (w.SetMeans? || p.means == q.means)
    && (w.SetCovars? || p.covars == q.covars)
    && (w.SetAs? || p.As == q.As)
    && (w.SetBs? || p.bs == q.bs)
    && (w.SetQs? || p.Qs == q.Qs)
    && (w.SetTransmat? || p.transmat == q.transmat)
    && (w.SetPopulations? || p.populations == q.populations)
  }

  function Update(p: Params, w: Write): Params
  {
    match w
    case SetMeans(v) => p.(means := v)
    case SetCovars(v) => p.(covars := v)
    case SetAs(v) => p.(As := v)
    case SetBs(v) => p.(bs := v)
    case SetQs(v) => p.(Qs := v)
    case SetTransmat(v) => p.(transmat := v)
    case SetPopulations(v) => p.(populations := v)
  }

  /** A property setter: the value lands in the object's own field and in
      the engine's copy; nothing else changes in either. */
  function Assign(m: Mirror, w: Write): (m': Mirror)
    ensures Holds(m'.own, w) && Holds(m'.impl, w)
    ensures AgreeElsewhere(m.own, m'.own, w) && AgreeElsewhere(m.impl, m'.impl, w)
    ensures m.own == m.impl ==> m'.own == m'.impl
  {
    Mirror(Update(m.own, w), Update(m.impl, w))
  }

  function AssignAll(m: Mirror, ws: seq<Write>): Mirror
    decreases |ws|
  {
    if |ws| == 0 then m else AssignAll(Assign(m, ws[0]), ws[1..])
  }

  /** Writes made only through the setters keep the engine's copy equal to
      the object's parameters, and after any non-empty run of writes every
      field the last write touches holds that write's value in both. */
  lemma {:induction false} SettersKeepMirror(m: Mirror, ws: seq<Write>)
    requires m.own == m.impl
    ensures AssignAll(m, ws).own == AssignAll(m, ws).impl
    ensures |ws| > 0 ==> Holds(AssignAll(m, ws).impl, ws[|ws| - 1])
    decreases |ws|
  {
    if |ws| > 0 {
      var m1 := Assign(m, ws[0]);
      SettersKeepMirror(m1, ws[1..]);
      if |ws| == 1 {
        assert AssignAll(m1, ws[1..]) == m1;
      } else {
        assert ws[1..][|ws[1..]| - 1] == ws[|ws| - 1];
      }
    }
  }

  /** The assignments `_init` makes, in its order. */
  function InitWrites(p: Params): seq<Write>
  {
    [SetMeans(p.means), SetCovars(p.covars), SetTransmat(p.transmat), SetPopulations(p.populations),
     SetAs(p.As), SetBs(p.bs), SetQs(p.Qs)]
  }

  /** The writes `ws` applied to one parameter set, in order. */
  function UpdateAll(p: Params, ws: seq<Write>): Params
    decreases |ws|
  {
    if |ws| == 0 then p else UpdateAll(Update(p, ws[0]), ws[1..])
  }

  /** The object and the engine each see the same writes. */
  lemma {:induction false} AssignAllSplits(m: Mirror, ws: seq<Write>)
    ensures AssignAll(m, ws) == Mirror(UpdateAll(m.own, ws), UpdateAll(m.impl, ws))
    decreases |ws|
  {
    if |ws| > 0 {
      AssignAllSplits(Assign(m, ws[0]), ws[1..]);
    }
  }

  lemma UpdateAllStep(p: Params, ws: seq<Write>, i: nat)
    requires i < |ws|
    ensures UpdateAll(p, ws[i..]) == UpdateAll(Update(p, ws[i]), ws[i + 1..])
  {
    assert ws[i..][0] == ws[i];
    assert ws[i..][1..] == ws[i + 1..];
  }

  /** The hot start's seven writes replace every field. */
  lemma InitWritesReplace(q: Params, p: Params)
    ensures UpdateAll(q, InitWrites(p)) == p
  {
    var ws := InitWrites(p);
    var q1 := Update(q, ws[0]);
    var q2 := Update(q1, ws[1]);
    var q3 := Update(q2, ws[2]);
    var q4 := Update(q3, ws[3]);
    var q5 := Update(q4, ws[4]);
    var q6 := Update(q5, ws[5]);
    var q7 := Update(q6, ws[6]);
    assert ws[0..] == ws;
    UpdateAllStep(q, ws, 0);
    UpdateAllStep(q1, ws, 1);
    UpdateAllStep(q2, ws, 2);
    UpdateAllStep(q3, ws, 3);
    UpdateAllStep(q4, ws, 4);
    UpdateAllStep(q5, ws, 5);
    UpdateAllStep(q6, ws, 6);
    assert ws[7..] == [];
    assert q7 == p;
  }

  /** Whatever state the object was in, after the hot start's assignments
      both the object and the engine hold exactly the new parameter set. */
  lemma InitInstallsEverywhere(m: Mirror, p: Params)
    ensures AssignAll(m, InitWrites(p)) == Mirror(p, p)
  {
    AssignAllSplits(m, InitWrites(p));
    InitWritesReplace(m.own, p);
    InitWritesReplace(m.impl, p);
  }
}
