/** The LP wrapper around GLPK: how the problem handed to the simplex solver is laid out
    (row bounds, column bounds, objective, 1-based coefficient triplets), and the status and
    result contract around the simplex call, whose outcome is an input here. */
module LPSolving {
  import opened BanditUtil

  /** A dense matrix as a sequence of rows. */
  type Matrix = seq<seq<real>>

  predicate IsMatrix(a: Matrix, rows: nat, cols: nat)
  {
    |a| == rows && forall i :: 0 <= i < rows ==> |a[i]| == cols
  }

  /** `Matrix(rows, cols)`; its implementation is not part of this model, and the matrix is
      taken to start zero-filled. */
  function Zeros(rows: nat, cols: nat): (a: Matrix)
    ensures IsMatrix(a, rows, cols)
    ensures forall i, j :: 0 <= i < rows && 0 <= j < cols ==> a[i][j] == 0.0
  {
    seq(rows, _ => seq(cols, _ => 0.0))
  }

  /** GLPK bound kinds used here: GLP_UP (x <= ub), GLP_FX (x == v), GLP_DB (lo <= x <= hi). */
  datatype Bound = Upper(ub: real) | Fixed(v: real) | Double(lo: real, hi: real)

  /** Objective direction; a fresh GLPK problem minimises. */
  datatype Direction = Maximize | Minimize

  datatype LPStatus = Feasible | Error

  /** The GLPK problem object as the solver builds it. rows[i] and cols[j] are GLPK row i+1
      and column j+1; ia/ja/ar are the triplet arrays passed to glp_load_matrix, ne the count. */
  datatype Problem = Problem(rows: seq<Bound>, cols: seq<Bound>, obj: seq<real>,
                             ia: seq<nat>, ja: seq<nat>, ar: seq<real>, ne: nat, dir: Direction)

  /** Slot of entry (i, j) of an n-column matrix in the 1-based triplet arrays. */
  function Slot(i: nat, j: nat, n: nat): nat { i * n + j + 1 }

  lemma {:induction false} SlotInRange(i: nat, j: nat, m: nat, n: nat)
    requires i < m && j < n
    ensures 1 <= Slot(i, j, n) <= m * n
  {
    assert i * n + j < (i + 1) * n;
    assert (i + 1) * n <= m * n;
  }

  /** The row bounds of an m-row problem: every row but the last is bounded above by b, the
      last is fixed at `fix`. */
  ghost predicate RowsDescribe(rows: seq<Bound>, m: nat, b: seq<real>, fix: real)
    requires m >= 1 && |b| >= m - 1
  {
    |rows| == m && (forall i :: 0 <= i < m - 1 ==> rows[i] == Upper(b[i])) && rows[m - 1] == Fixed(fix)
  }

  /** Every column bounded to [0, 1] with objective coefficient c[j]. */
  ghost predicate ColumnsDescribe(cols: seq<Bound>, obj: seq<real>, n: nat, c: seq<real>)
    requires |c| >= n
  {
    |cols| == n && |obj| == n && forall j :: 0 <= j < n ==> cols[j] == Double(0.0, 1.0) && obj[j] == c[j]
  }

  /** The triplet arrays of an m x n matrix: a dummy slot 0, then entry (i, j) at Slot(i, j, n). */
  ghost predicate TripletsDescribe(ia: seq<nat>, ja: seq<nat>, ar: seq<real>, a: Matrix, m: nat, n: nat)
    requires IsMatrix(a, m, n)
  {
    |ia| == |ja| == |ar| == m * n + 1 && ia[0] == 0 && ja[0] == 0 && ar[0] == 0.0 &&
    forall i, j :: 0 <= i < m && 0 <= j < n ==>
      Slot(i, j, n) < |ia| && ia[Slot(i, j, n)] == i + 1 && ja[Slot(i, j, n)] == j + 1 && ar[Slot(i, j, n)] == a[i][j]
  }

  ghost predicate Describes(lp: Problem, a: Matrix, b: seq<real>, c: seq<real>, fix: real, m: nat, n: nat)
    requires m >= 1 && IsMatrix(a, m, n) && |b| >= m - 1 && |c| >= n
  {
    RowsDescribe(lp.rows, m, b, fix) && ColumnsDescribe(lp.cols, lp.obj, n, c) &&
    TripletsDescribe(lp.ia, lp.ja, lp.ar, a, m, n) && lp.ne == m * n
  }

  /** A point x satisfies the problem when it is within its column bounds and every row's
      value DotSum(a[i], x) is within that row's bound. */
  ghost predicate Satisfies(lp: Problem, a: Matrix, x: seq<real>)
    requires IsMatrix(a, |lp.rows|, |lp.cols|)
  {
    |x| == |lp.cols| &&
    (forall j :: 0 <= j < |x| ==> lp.cols[j].Double? && lp.cols[j].lo <= x[j] <= lp.cols[j].hi) &&
    (forall i :: 0 <= i < |lp.rows| ==> InBound(lp.rows[i], DotSum(a[i], x)))
  }

  predicate InBound(bd: Bound, v: real)
  {
    match bd
    case Upper(ub) => v <= ub
    case Fixed(f) => v == f
    case Double(lo, hi) => lo <= v <= hi
  }

  lemma {:induction false} DivLess(x: nat, m: nat, n: nat)
    requires n > 0 && x < m * n
    ensures x / n < m
  {
    var q := x / n;
    assert q * n + x % n == x;
    assert (m - q) * n == m * n - q * n;
    assert (m - q) * n > 0;
  }

  /** Every non-dummy slot of the triplet arrays names a cell of the matrix and carries its
      value, so glp_load_matrix receives exactly the matrix. */
  lemma {:induction false} TripletsCoverMatrix(ia: seq<nat>, ja: seq<nat>, ar: seq<real>, a: Matrix, m: nat, n: nat, s: nat)
    requires IsMatrix(a, m, n) && TripletsDescribe(ia, ja, ar, a, m, n)
    requires 1 <= s <= m * n
    ensures 1 <= ia[s] <= m && 1 <= ja[s] <= n
    ensures ar[s] == a[ia[s] - 1][ja[s] - 1]
  {
    assert n > 0;
    var i, j := (s - 1) / n, (s - 1) % n;
    assert s == i * n + j + 1;
    DivLess(s - 1, m, n);
    assert Slot(i, j, n) == s;
  }

  /** A point satisfies a described problem exactly when it lies in the unit box, every row
      but the last stays within its upper bound and the last row hits `fix`. */
  lemma {:induction false} SatisfiesDescribed(lp: Problem, a: Matrix, b: seq<real>, c: seq<real>, fix: real, m: nat, n: nat, x: seq<real>)
    requires m >= 1 && IsMatrix(a, m, n) && |b| >= m - 1 && |c| >= n && Describes(lp, a, b, c, fix, m, n)
    ensures IsMatrix(a, |lp.rows|, |lp.cols|)
    ensures Satisfies(lp, a, x) <==>
      |x| == n && (forall j :: 0 <= j < n ==> 0.0 <= x[j] <= 1.0) &&
      (forall i :: 0 <= i < m - 1 ==> DotSum(a[i], x) <= b[i]) && DotSum(a[m - 1], x) == fix
  {
    if Satisfies(lp, a, x) {
      assert InBound(lp.rows[m - 1], DotSum(a[m - 1], x));
    }
  }

  /** A row whose only non-zero entry is v at column i. */
  function UnitRow(n: nat, i: nat, v: real): (r: seq<real>)
    requires i < n
    ensures |r| == n && r[i] == v && forall j :: 0 <= j < n && j != i ==> r[j] == 0.0
  {
    seq(n, j => if j == i then v else 0.0)
  }

  lemma {:induction false} DotUnitRow(n: nat, i: nat, v: real, x: seq<real>)
    requires i < n == |x|
    ensures DotSum(UnitRow(n, i, v), x) == v * x[i]
  {
    if i < n - 1 {
      assert UnitRow(n, i, v)[..n - 1] == UnitRow(n - 1, i, v);
      DotUnitRow(n - 1, i, v, x[..n - 1]);
    } else {
      assert UnitRow(n, i, v)[..n - 1] == Fill(n - 1, 0.0);
      DotZeros(x[..n - 1]);
    }
  }

  lemma {:induction false} DotZeros(x: seq<real>)
    ensures DotSum(Fill(|x|, 0.0), x) == 0.0
  {
    if |x| > 0 {
      assert Fill(|x|, 0.0)[..|x| - 1] == Fill(|x| - 1, 0.0);
      DotZeros(x[..|x| - 1]);
    }
  }

  /** Splitting off the first column of a row. */
  lemma {:induction false} DotCons(h: real, t: seq<real>, x0: real, xs: seq<real>)
    requires |t| == |xs|
    ensures DotSum([h] + t, [x0] + xs) == h * x0 + DotSum(t, xs)
  {
    if |t| > 0 {
      assert ([h] + t)[..|t|] == [h] + t[..|t| - 1];
      assert ([x0] + xs)[..|xs|] == [x0] + xs[..|xs| - 1];
      DotCons(h, t[..|t| - 1], x0, xs[..|xs| - 1]);
    } else {
      assert ([h] + t)[..0] == [];
    }
  }

  /** `setRowBounds`: rows 1..m-1 bounded above by b[0..m-2], row m fixed at `fix`. */
  method RowBounds(m: nat, b: seq<real>, fix: real) returns (rows: seq<Bound>)
    requires m >= 1 && |b| >= m - 1
    ensures RowsDescribe(rows, m, b, fix)
  {
    rows := [];
    for i := 0 to m - 1
      invariant |rows| == i && forall k :: 0 <= k < i ==> rows[k] == Upper(b[k])
    {
      rows := rows + [Upper(b[i])];
    }
    rows := rows + [Fixed(fix)];
  }

  /** `setColumnCoefs`: every column in [0, 1] with objective coefficient c[j]. */
  method ColumnCoefs(n: nat, c: seq<real>) returns (cols: seq<Bound>, obj: seq<real>)
    requires |c| >= n
    ensures ColumnsDescribe(cols, obj, n, c)
  {
    cols, obj := [], [];
    for j := 0 to n
      invariant |cols| == |obj| == j
      invariant forall k :: 0 <= k < j ==> cols[k] == Double(0.0, 1.0) && obj[k] == c[k]
    {
      cols := cols + [Double(0.0, 1.0)];
      obj := obj + [c[j]];
    }
  }

  /** The triplet arrays of `initProblem`: a dummy entry, then the matrix row by row. */
  method Triplets(a: Matrix, m: nat, n: nat) returns (ia: seq<nat>, ja: seq<nat>, ar: seq<real>)
    requires IsMatrix(a, m, n)
    ensures TripletsDescribe(ia, ja, ar, a, m, n)
  {
    ia, ja, ar := [0], [0], [0.0];
    for i := 0 to m
      invariant |ia| == |ja| == |ar| == i * n + 1 && ia[0] == 0 && ja[0] == 0 && ar[0] == 0.0
      invariant forall r, k :: 0 <= r < i && 0 <= k < n ==>
        Slot(r, k, n) < |ia| && ia[Slot(r, k, n)] == r + 1 && ja[Slot(r, k, n)] == k + 1 && ar[Slot(r, k, n)] == a[r][k]
    {
      for j := 0 to n
        invariant |ia| == |ja| == |ar| == i * n + j + 1 && ia[0] == 0 && ja[0] == 0 && ar[0] == 0.0
        invariant forall r, k :: 0 <= r < i && 0 <= k < n ==>
          Slot(r, k, n) < |ia| && ia[Slot(r, k, n)] == r + 1 && ja[Slot(r, k, n)] == k + 1 && ar[Slot(r, k, n)] == a[r][k]
        invariant forall k :: 0 <= k < j ==>
          Slot(i, k, n) < |ia| && ia[Slot(i, k, n)] == i + 1 && ja[Slot(i, k, n)] == k + 1 && ar[Slot(i, k, n)] == a[i][k]
      {
        ia, ja, ar := ia + [i + 1], ja + [j + 1], ar + [a[i][j]];
      }
      assert i * n + n == (i + 1) * n;
    }
  }

  class LPSolver {
    var m: nat
    var n: nat
    var c: seq<real>
    var b: seq<real>
    var a: Matrix
    var fix: real
    var lp: Problem

    ghost predicate Valid()
      reads this
    {
      m >= 1 && IsMatrix(a, m, n) && |b| >= m - 1 && |c| >= n && Describes(lp, a, b, c, fix, m, n)
    }

    /** `LPSolver(A, b, c, Fix)`: keeps the data and builds a fresh minimising problem. The
        source reads A[0], so A has a row; b needs a bound for each non-final row. */
    constructor (A: Matrix, b: seq<real>, c: seq<real>, fix: real)
      requires |A| >= 1 && IsMatrix(A, |A|, |A[0]|) && |b| >= |A| - 1 && |c| >= |A[0]|
      ensures Valid()
      ensures this.m == |A| && this.n == |A[0]| && this.a == A && this.b == b && this.c == c && this.fix == fix
      ensures lp.dir == Minimize
    {
      this.m := |A|;
      this.n := |A[0]|;
      this.c := c;
      this.b := b;
      this.a := A;
      this.fix := fix;
      new;
      InitProblem();
    }

    /** The copy constructor: copies all data, `Fix` included, into a fresh problem. */
    constructor Copy(p: LPSolver)
      requires p.Valid()
      ensures Valid()
      ensures m == p.m && n == p.n && a == p.a && b == p.b && c == p.c && fix == p.fix
      ensures lp.dir == Minimize
    {
      m := p.m;
      n := p.n;
      c := p.c;
      b := p.b;
      a := p.a;
      fix := p.fix;
      new;
      InitProblem();
    }

    /** `initProblem`: row bounds, column bounds and objective, then the matrix as triplets,
        into a newly created problem. */
    method InitProblem()
      requires m >= 1 && IsMatrix(a, m, n) && |b| >= m - 1 && |c| >= n
      modifies this
      ensures Valid() && lp.dir == Minimize
      ensures m == old(m) && n == old(n) && a == old(a) && b == old(b) && c == old(c) && fix == old(fix)
    {
      var rows := RowBounds(m, b, fix);
      var cols, obj := ColumnCoefs(n, c);
      var ia, ja, ar := Triplets(a, m, n);
      lp := Problem(rows, cols, obj, ia, ja, ar, m * n, Minimize);
    }

    /** `operator=`: copies sizes, c, b and A and rebuilds the problem, but keeps this
        solver's own `Fix`; assigning a solver to itself changes nothing. */
    method Assign(p: LPSolver)
      requires p.Valid()
      modifies this
      ensures Valid()
      ensures p == this ==> m == old(m) && n == old(n) && a == old(a) && b == old(b) && c == old(c) && lp == old(lp)
      ensures p != this ==> m == p.m && n == p.n && a == p.a && b == p.b && c == p.c && lp.dir == Minimize
      ensures fix == old(fix)
    {
      if p != this {
        m := p.m;
        n := p.n;
        c := p.c;
        b := p.b;
        a := p.a;
        InitProblem();
      }
    }

    method SetMaximization()
      requires Valid()
      modifies this
      ensures Valid() && lp == old(lp).(dir := Maximize)
      ensures m == old(m) && n == old(n) && a == old(a) && b == old(b) && c == old(c) && fix == old(fix)
    {
      lp := lp.(dir := Maximize);
    }

    method SetMinimization()
      requires Valid()
      modifies this
      ensures Valid() && lp == old(lp).(dir := Minimize)
      ensures m == old(m) && n == old(n) && a == old(a) && b == old(b) && c == old(c) && fix == old(fix)
    {
      lp := lp.(dir := Minimize);
    }

    /** `solve(result)`. The simplex call is an oracle: `simplexRet` is its return code and
        `colPrim(j)` the primal value of GLPK column j. Feasible exactly when the code is 0;
        then the result has one entry per column, entry j being column j+1's value. On Error
        the caller's vector comes back untouched. */
    method Solve(simplexRet: int, colPrim: nat -> real, result: seq<real>)
      returns (status: LPStatus, out: seq<real>)
      requires Valid()
      ensures status == Feasible <==> simplexRet == 0
      ensures status == Feasible ==> |out| == n && forall j :: 0 <= j < n ==> out[j] == colPrim(j + 1)
      ensures status == Error ==> out == result
    {
      if simplexRet != 0 {
        return Error, result;
      }
      // result.resize(m_N, 0), then one value per column
      out := if |result| >= n then result[..n] else result + seq(n - |result|, _ => 0.0);
      for j := 0 to n
        invariant |out| == n && forall k :: 0 <= k < j ==> out[k] == colPrim(k + 1)
      {
        out := out[j := colPrim(j + 1)];
      }
      status := Feasible;
    }
  }

  /** The LP solution vector read off the simplex oracle, one value per column. */
  function Primal(colPrim: nat -> real, k: nat): (v: seq<real>)
    ensures |v| == k && forall j :: 0 <= j < k ==> v[j] == colPrim(j + 1)
  {
    seq(k, j requires 0 <= j < k => colPrim(j + 1))
  }
}
