/** The solve driver of sparse tICA (`SparseTICA._solve`) and the count of
    active degrees of freedom that `summarize` reports.

    The sparse generalized eigensolver `speigh`, the deflation `scdeflate`
    and the dense solve of the tICA base class are foreign numerics; they
    enter as the function-typed fields of `Solvers`. */
module SparseTica {
  import opened Wrappers
  import opened Linalg
  import opened Argsort
  import opened Decimal

  /** The solver settings `_solve` passes to every `speigh` call. */
  datatype SpeighOptions = SpeighOptions(rho: real, epsilon: real, tolerance: real, maxiter: int, verbose: bool)

  /** The estimator state `_solve` reads and writes. `eigenvectors` has one
      row per feature and one column per component. */
  datatype TicaState = TicaState(
    isDirty: bool,
    options: SpeighOptions,
    nComponents: nat,
    nFeatures: nat,
    offsetCorrelation: Matrix,
    covariance: Matrix,
    eigenvalues: Vector,
    eigenvectors: Matrix)

  datatype Solvers = Solvers(
    speigh: (Matrix, Matrix, SpeighOptions) -> (real, Vector),
    scdeflate: (Matrix, Vector) -> Matrix,
    baseSolve: TicaState -> TicaState)

  /** numpy cannot store the vector of component `component`, of length
      `length`, as a column of `nFeatures` rows. */
  datatype SolveError = ColumnShape(component: nat, length: nat)

  /** The offset correlation matrix after `i` deflations, each by the vector
      the solver returned for the matrix before it. The covariance matrix is
      never deflated. */
  function Deflated(st: TicaState, sv: Solvers, i: nat): Matrix
  {
    if i == 0 then st.offsetCorrelation
    else
      var a := Deflated(st, sv, i - 1);
      sv.scdeflate(a, sv.speigh(a, st.covariance, st.options).1)
  }

  /** The (value, vector) pair of component `i`, in solver order. */
  function PairAt(st: TicaState, sv: Solvers, i: nat): (real, Vector)
  {
    sv.speigh(Deflated(st, sv, i), st.covariance, st.options)
  }

  /** The pseudo-eigenvalues in solver order, before the sort. */
  function Unsorted(st: TicaState, sv: Solvers): (vals: Vector)
    ensures |vals| == st.nComponents
    ensures forall i :: 0 <= i < st.nComponents ==> vals[i] == PairAt(st, sv, i).0
  {
    seq(st.nComponents, i requires 0 <= i < st.nComponents => PairAt(st, sv, i).0)
  }

  /** The vectors of the first `n` components all fit a column. */
  predicate ColumnsFit(st: TicaState, sv: Solvers, n: nat)
  {
    forall i :: 0 <= i < n ==> Broadcast(PairAt(st, sv, i).1, st.nFeatures).Some?
  }

  /** Column `i` as numpy stores it. */
  function ColumnAt(st: TicaState, sv: Solvers, i: nat): (c: Vector)
    requires Broadcast(PairAt(st, sv, i).1, st.nFeatures).Some?
    ensures |c| == st.nFeatures
  {
    Broadcast(PairAt(st, sv, i).1, st.nFeatures).value
  }

  /** The order of the sort: `np.argsort(eigenvalues)[::-1]`. */
  function Order(st: TicaState, sv: Solvers): (ind: seq<nat>)
    ensures |ind| == st.nComponents
    ensures InBounds(ind, st.nComponents)
  {
    PermutationDistinct(ArgsortDescending(Unsorted(st, sv)), st.nComponents);
    ArgsortDescending(Unsorted(st, sv))
  }

  /** `m[:, j] = c`. */
  function SetColumn(m: Matrix, j: nat, c: Vector): (r: Matrix)
    requires |c| == |m|
    requires RowsOfWidth(m, j + 1) || (forall f :: 0 <= f < |m| ==> j < |m[f]|)
    ensures |r| == |m|
    ensures forall f :: 0 <= f < |m| ==> r[f] == m[f][j := c[f]]
  {
    seq(|m|, f requires 0 <= f < |m| => m[f][j := c[f]])
  }

  /** `m[:, ind]`: every row read through the same index sequence. */
  function GatherColumns(m: Matrix, ind: seq<nat>, cols: nat): (r: Matrix)
    requires RowsOfWidth(m, cols) && InBounds(ind, cols)
    ensures IsMatrix(r, |m|, |ind|)
    ensures forall f, c :: 0 <= f < |m| && 0 <= c < |ind| ==> r[f][c] == m[f][ind[c]]
  {
    seq(|m|, f requires 0 <= f < |m| => Gather(m[f], ind))
  }

  /** `_solve`. A clean estimator is returned as it is; without sparsity
      (`rho <= 0`) the base tICA solve does all the work; otherwise the
      `nComponents` pairs found by successive deflation are stored, sorted by
      decreasing value with each vector kept beside its value, and the
      estimator is marked clean. */
  method Solve(st: TicaState, sv: Solvers) returns (r: Result<TicaState, SolveError>)
    ensures !st.isDirty ==> r == Success(st)
    ensures st.isDirty && st.options.rho <= 0.0 ==> r == Success(sv.baseSolve(st))
    ensures st.isDirty && st.options.rho > 0.0 ==>
      (r.Success? <==> ColumnsFit(st, sv, st.nComponents))
    ensures st.isDirty && st.options.rho > 0.0 && r.Failure? ==>
      var c := r.error.component;
      c < st.nComponents && ColumnsFit(st, sv, c)
      && Broadcast(PairAt(st, sv, c).1, st.nFeatures).None?
      && r.error.length == |PairAt(st, sv, c).1|
    ensures st.isDirty && st.options.rho > 0.0 && r.Success? ==>
      var out := r.value;
      out == st.(isDirty := false, eigenvalues := out.eigenvalues, eigenvectors := out.eigenvectors)
      && |out.eigenvalues| == st.nComponents
      && IsMatrix(out.eigenvectors, st.nFeatures, st.nComponents)
      && (forall c :: 0 <= c < st.nComponents ==>
            out.eigenvalues[c] == PairAt(st, sv, Order(st, sv)[c]).0)
      && (forall f, c :: 0 <= f < st.nFeatures && 0 <= c < st.nComponents ==>
            out.eigenvectors[f][c] == ColumnAt(st, sv, Order(st, sv)[c])[f])
      && (forall j, k :: 0 <= j < k < st.nComponents ==> out.eigenvalues[j] >= out.eigenvalues[k])
      && multiset(out.eigenvalues) == multiset(Unsorted(st, sv))
  {
    if !st.isDirty {
      return Success(st);
    }
    if st.options.rho <= 0.0 {
      return Success(sv.baseSolve(st));
    }
    var pairs := Deflate(st, sv);
    if pairs.Failure? {
      return Failure(pairs.error);
    }
    var (vals, vecs) := pairs.value;
    var ind := ArgsortDescending(vals);
    var sortedVals := Gather(vals, ind);
    var sortedVecs := GatherColumns(vecs, ind, st.nComponents);
    return Success(st.(isDirty := false, eigenvalues := sortedVals, eigenvectors := sortedVecs));
  }

  /** The deflation loop of `_solve`: `nComponents` rounds of `speigh`
      followed by `scdeflate`, each value stored in `vals[i]` and each vector
      in column i of `vecs`; a vector `vecs[:, i]` cannot hold is a
      `ValueError`. */
  method Deflate(st: TicaState, sv: Solvers) returns (r: Result<(Vector, Matrix), SolveError>)
    ensures r.Success? <==> ColumnsFit(st, sv, st.nComponents)
    ensures r.Failure? ==>
      var c := r.error.component;
      c < st.nComponents && ColumnsFit(st, sv, c)
      && Broadcast(PairAt(st, sv, c).1, st.nFeatures).None?
      && r.error.length == |PairAt(st, sv, c).1|
    ensures r.Success? ==>
      var (vals, vecs) := r.value;
      && vals == Unsorted(st, sv)
      && IsMatrix(vecs, st.nFeatures, st.nComponents)
      && (forall f, c :: 0 <= f < st.nFeatures && 0 <= c < st.nComponents ==>
            vecs[f][c] == ColumnAt(st, sv, c)[f])
  {
    var n := st.nComponents;
    var a := st.offsetCorrelation;
    var vals := Zeros(n);
    var vecs := seq(st.nFeatures, f => Zeros(n));
    var i := 0;
    while i < n
      invariant 0 <= i <= n
      invariant a == Deflated(st, sv, i)
      invariant ColumnsFit(st, sv, i)
      invariant |vals| == n
      invariant forall k :: 0 <= k < i ==> vals[k] == PairAt(st, sv, k).0
      invariant IsMatrix(vecs, st.nFeatures, n)
      invariant forall f, k :: 0 <= f < st.nFeatures && 0 <= k < i ==>
        vecs[f][k] == ColumnAt(st, sv, k)[f]
    {
      var (u, v) := sv.speigh(a, st.covariance, st.options);
      assert (u, v) == PairAt(st, sv, i);
      vals := vals[i := u];
      var col := Broadcast(v, st.nFeatures);
      if col.None? {
        assert !ColumnsFit(st, sv, n) by {
          assert Broadcast(PairAt(st, sv, i).1, st.nFeatures).None?;
        }
        return Failure(ColumnShape(i, |v|));
      }
      vecs := SetColumn(vecs, i, col.value);
      a := sv.scdeflate(a, v);
      i := i + 1;
    }
    assert vals == Unsorted(st, sv);
    return Success((vals, vecs));
  }

  /** After the sort every component of the solver appears exactly once. */
  lemma OrderListsEachComponentOnce(st: TicaState, sv: Solvers)
    ensures forall i :: 0 <= i < st.nComponents ==> i in Order(st, sv)
    ensures forall j, k :: 0 <= j < k < st.nComponents ==> Order(st, sv)[j] != Order(st, sv)[k]
  {
    var ind := Order(st, sv);
    var n := st.nComponents;
    PermutationDistinct(ind, n);
    forall i | 0 <= i < n
      ensures i in ind
    {
      assert Range(n)[i] == i;
      assert i in multiset(Range(n));
      assert i in multiset(ind);
    }
  }

  // ---------------------------------------------------------------------
  // summarize: number of active degrees of freedom

  function Abs(x: real): real
  {
    if x < 0.0 then -x else x
  }

  /** How many entries of `col` have `abs(x) > 0`. */
  function CountNonzero(col: Vector): (c: nat)
    ensures c <= |col|
  {
    if |col| == 0 then 0
    else CountNonzero(col[..|col| - 1]) + (if Abs(col[|col| - 1]) > 0.0 then 1 else 0)
  }

  /** The positions of the nonzero entries of `col`. */
  function Support(col: Vector): set<nat>
  {
    set i: nat | i < |col| && col[i] != 0.0
  }

  /** The count is the size of the support. */
  lemma {:induction false} CountNonzeroIsSupport(col: Vector)
    ensures CountNonzero(col) == |Support(col)|
  {
    if |col| > 0 {
      var front := col[..|col| - 1];
      var last := |col| - 1;
      CountNonzeroIsSupport(front);
      assert CountNonzero(col) == CountNonzero(front) + (if Abs(col[last]) > 0.0 then 1 else 0);
      assert forall i :: i in Support(front) <==> i in Support(col) && i != last;
      if col[last] != 0.0 {
        assert Support(col) == Support(front) + {last};
        assert last !in Support(front);
      } else {
        assert Support(col) == Support(front);
      }
    }
  }

  /** `np.sum(np.abs(m) > 0, axis=0)[:5]`: the nonzero count of each of the
      first (at most five) columns. */
  function ActiveCounts(m: Matrix, cols: nat): (r: seq<nat>)
    requires RowsOfWidth(m, cols)
    ensures |r| == if cols < 5 then cols else 5
    ensures forall j :: 0 <= j < |r| ==> r[j] == |Support(ColumnOf(m, j))|
    ensures forall j :: 0 <= j < |r| ==> r[j] <= |m|
  {
    var n := if cols < 5 then cols else 5;
    var r := seq(n, j requires 0 <= j < n => CountNonzero(ColumnOf(m, j)));
    forall j | 0 <= j < n
      ensures r[j] == |Support(ColumnOf(m, j))|
    {
      CountNonzeroIsSupport(ColumnOf(m, j));
    }
    r
  }

  /** `'%d/%d' % (n, nFeatures)`. */
  function Entry(n: nat, nFeatures: nat): string
  {
    NatToString(n) + "/" + NatToString(nFeatures)
  }

  /** `', '.join(entries)`. */
  function JoinEntries(counts: seq<nat>, nFeatures: nat): string
  {
    if |counts| == 0 then ""
    else if |counts| == 1 then Entry(counts[0], nFeatures)
    else Entry(counts[0], nFeatures) + ", " + JoinEntries(counts[1..], nFeatures)
  }

  /** The `active` line of the summary. */
  function ActiveText(counts: seq<nat>, nFeatures: nat): string
  {
    "[" + JoinEntries(counts, nFeatures) + "]"
  }

  /** The `active` line of the summary of a solved estimator. */
  function Active(st: TicaState): string
    requires RowsOfWidth(st.eigenvectors, st.nComponents)
  {
    ActiveText(ActiveCounts(st.eigenvectors, st.nComponents), st.nFeatures)
  }

  /** Reads an `active` line back into its (count, features) pairs. */
  function ParseActive(s: string): Option<seq<(nat, nat)>>
  {
    if |s| < 2 || s[0] != '[' || s[|s| - 1] != ']' then None
    else ParseEntries(s[1..|s| - 1])
  }

  /** Reads one `count/features` entry and returns it with the text after it. */
  function ParseEntry(s: string): (r: Option<((nat, nat), string)>)
    ensures r.Some? ==> |r.value.1| < |s|
  {
    match ReadNat(s)
    case None => None
    case Some((n, rest)) =>
      if |rest| == 0 || rest[0] != '/' then None
      else
        match ReadNat(rest[1..])
        case None => None
        case Some((nf, tail)) => Some(((n, nf), tail))
  }

  function ParseEntries(s: string): Option<seq<(nat, nat)>>
    decreases |s|
  {
    if |s| == 0 then Some([])
    else
      match ParseEntry(s)
      case None => None
      case Some((e, tail)) =>
        if |tail| == 0 then Some([e])
        else if |tail| >= 2 && tail[0] == ',' && tail[1] == ' ' then
          match ParseEntries(tail[2..])
          case None => None
          case Some(more) => Some([e] + more)
        else None
  }

  function Tagged(counts: seq<nat>, nFeatures: nat): (r: seq<(nat, nat)>)
    ensures |r| == |counts|
    ensures forall j :: 0 <= j < |counts| ==> r[j] == (counts[j], nFeatures)
  {
    seq(|counts|, j requires 0 <= j < |counts| => (counts[j], nFeatures))
  }

  lemma ParseEntryOf(n: nat, nFeatures: nat, t: string)
    requires t == [] || !IsDigit(t[0])
    ensures ParseEntry(Entry(n, nFeatures) + t) == Some(((n, nFeatures), t))
  {
    var d := NatToString(n);
    var tail := "/" + NatToString(nFeatures) + t;
    SlashSplits(d, NatToString(nFeatures), t);
    ReadNatToString(n, tail);
    ReadNatToString(nFeatures, t);
  }

  lemma SlashSplits(d: string, e: string, t: string)
    ensures d + "/" + e + t == d + ("/" + e + t)
    ensures ("/" + e + t)[0] == '/' && ("/" + e + t)[1..] == e + t
  {
    assert ("/" + e + t)[1..] == e + t;
  }

  /** One entry, then either nothing or `", "` and the rest of the list. */
  lemma ParseEntriesStep(n: nat, nFeatures: nat, t: string)
    requires t == [] || (|t| >= 2 && t[0] == ',' && t[1] == ' ')
    ensures ParseEntries(Entry(n, nFeatures) + t) ==
      if t == [] then Some([(n, nFeatures)])
      else match ParseEntries(t[2..])
        case None => None
        case Some(more) => Some([(n, nFeatures)] + more)
  {
    var s := Entry(n, nFeatures) + t;
    assert |s| > 0 by {
      assert |Entry(n, nFeatures)| > 0;
    }
    assert ParseEntry(s) == Some(((n, nFeatures), t)) by {
      ParseEntryOf(n, nFeatures, t);
    }
  }

  lemma ParseJoinSingle(counts: seq<nat>, nFeatures: nat)
    requires |counts| == 1
    ensures ParseEntries(JoinEntries(counts, nFeatures)) == Some(Tagged(counts, nFeatures))
  {
    assert JoinEntries(counts, nFeatures) == Entry(counts[0], nFeatures) + [];
    ParseEntriesStep(counts[0], nFeatures, []);
    assert Tagged(counts, nFeatures) == [(counts[0], nFeatures)];
  }

  lemma ParseJoinCons(counts: seq<nat>, nFeatures: nat)
    requires |counts| > 1
    requires ParseEntries(JoinEntries(counts[1..], nFeatures)) == Some(Tagged(counts[1..], nFeatures))
    ensures ParseEntries(JoinEntries(counts, nFeatures)) == Some(Tagged(counts, nFeatures))
  {
    var more := JoinEntries(counts[1..], nFeatures);
    var t := ", " + more;
    JoinEntriesCons(counts, nFeatures);
    CommaSplits(Entry(counts[0], nFeatures), more);
    ParseEntriesStep(counts[0], nFeatures, t);
    TaggedCons(counts, nFeatures);
  }

  lemma JoinEntriesCons(counts: seq<nat>, nFeatures: nat)
    requires |counts| > 1
    ensures JoinEntries(counts, nFeatures)
         == Entry(counts[0], nFeatures) + (", " + JoinEntries(counts[1..], nFeatures))
  {
    CommaSplits(Entry(counts[0], nFeatures), JoinEntries(counts[1..], nFeatures));
  }

  lemma TaggedCons(counts: seq<nat>, nFeatures: nat)
    requires |counts| > 0
    ensures Tagged(counts, nFeatures) == [(counts[0], nFeatures)] + Tagged(counts[1..], nFeatures)
  {
  }

  lemma CommaSplits(d: string, more: string)
    ensures d + ", " + more == d + (", " + more)
    ensures (", " + more)[0] == ',' && (", " + more)[1] == ' ' && (", " + more)[2..] == more
  {
    assert (", " + more)[2..] == more;
  }

  lemma {:induction false} ParseJoinEntries(counts: seq<nat>, nFeatures: nat)
    ensures ParseEntries(JoinEntries(counts, nFeatures)) == Some(Tagged(counts, nFeatures))
    decreases |counts|
  {
    if |counts| == 1 {
      ParseJoinSingle(counts, nFeatures);
    } else if |counts| > 1 {
      ParseJoinEntries(counts[1..], nFeatures);
      ParseJoinCons(counts, nFeatures);
    }
  }

  /** The `active` line reads back as the counts it was written from, each
      paired with the feature count. */
  lemma ActiveTextRoundTrip(counts: seq<nat>, nFeatures: nat)
    ensures ParseActive(ActiveText(counts, nFeatures)) == Some(Tagged(counts, nFeatures))
  {
    var s := ActiveText(counts, nFeatures);
    assert s[1..|s| - 1] == JoinEntries(counts, nFeatures);
    ParseJoinEntries(counts, nFeatures);
  }

  /** The summary of a solved estimator lists at most five columns, each as
      its number of nonzero loadings out of `nFeatures`. */
  lemma ActiveReportsColumns(st: TicaState)
    requires RowsOfWidth(st.eigenvectors, st.nComponents)
    ensures ParseActive(Active(st)).Some?
    ensures var e := ParseActive(Active(st)).value;
      |e| <= 5 && |e| <= st.nComponents
      && forall j :: 0 <= j < |e| ==>
           e[j].0 == |Support(ColumnOf(st.eigenvectors, j))|
           && e[j].0 <= |st.eigenvectors|
           && e[j].1 == st.nFeatures
  {
    ActiveTextRoundTrip(ActiveCounts(st.eigenvectors, st.nComponents), st.nFeatures);
  }
}
