/**
 * The cut generator `_create_cuts`: at the separation point x̂ of the hull
 * relaxation it picks the active constraints (`constraint_tight`), sums their
 * oriented gradients into one composite normal, writes the hyperplane through
 * x̂ with that normal as a row over the original and the disaggregated
 * variables, projects the disaggregated variables out with Fourier–Motzkin
 * elimination, and translates what is left to the BigM and relaxed BigM models
 * (`get_constraint_exprs`).
 */
module CutGeneration {
  import opened Wrappers
  import opened LinearBody
  import opened LinearRows
  import opened FourierMotzkin

  // ---------------------------------------------------------------------------
  // Active constraints

  /** The value reaches or passes the lower bound. */
  predicate AtLower(lower: Option<real>, val: real) {
    lower.Some? && lower.value >= val
  }

  /** The value reaches or passes the upper bound. */
  predicate AtUpper(upper: Option<real>, val: real) {
    upper.Some? && upper.value <= val
  }

  /**
   * `constraint_tight`: -1 when the body value `val` sits on (or below) the
   * lower bound only, +1 when it sits on (or above) the upper bound only, and
   * 0 when it touches neither bound or both (a satisfied equality).
   */
  function ConstraintTight(lower: Option<real>, upper: Option<real>, val: real): (m: int)
    ensures -1 <= m <= 1
    ensures m == -1 <==> AtLower(lower, val) && !AtUpper(upper, val)
    ensures m == 1 <==> AtUpper(upper, val) && !AtLower(lower, val)
    ensures lower == Some(val) && upper == Some(val) ==> m == 0
  {
    var ans := if lower.Some? && lower.value >= val then -1 else 0;
    if upper.Some? && upper.value <= val then ans + 1 else ans
  }

  /**
   * The multiplier points out of the feasible side: for every value `w` that
   * satisfies the bounds, `m·(w - val) <= 0`.
   */
  lemma TightSupports(lower: Option<real>, upper: Option<real>, val: real, w: real)
    requires lower.Some? ==> lower.value <= w
    requires upper.Some? ==> w <= upper.value
    ensures Times(ConstraintTight(lower, upper, val) as real, w - val) <= 0.0
  {
    var m := ConstraintTight(lower, upper, val);
    if m == -1 {
      assert val <= lower.value <= w;
      assert Times(-1.0, w - val) == val - w;
    } else if m == 1 {
      assert w <= upper.value <= val;
      assert Times(1.0, w - val) == w - val;
    } else {
      assert Times(0.0, w - val) == 0.0;
    }
  }

  /**
   * One active constraint of the hull relaxation as `_create_cuts` sees it at
   * x̂: its linear representation (`get_linear_constraint_repn`), the value of
   * its body at x̂, and the derivative of its body with respect to every
   * variable of the hull model, in the model's variable order.
   */
  datatype HullConstraint = HullConstraint(row: Row, bodyValue: real, gradient: seq<real>)

  function Multiplier(c: HullConstraint): int {
    ConstraintTight(c.row.lower, c.row.upper, c.bodyValue)
  }

  /** `[multiplier*value(d) for d in firstDerivs]`. */
  function Normal(m: int, g: seq<real>): (n: seq<real>)
    ensures |n| == |g|
  {
    seq(|g|, i requires 0 <= i < |g| => Times(m as real, g[i]))
  }

  /** The linear representations of the tight constraints, in order. */
  function TightRows(cs: seq<HullConstraint>): seq<Row> {
    if cs == [] then []
    else
      var c := cs[|cs| - 1];
      TightRows(cs[..|cs| - 1]) + (if Multiplier(c) != 0 then [c.row] else [])
  }

  /** The normal vectors of the tight constraints, in order. */
  function NormalVectors(cs: seq<HullConstraint>): (ns: seq<seq<real>>)
    ensures |ns| == |TightRows(cs)|
    ensures forall g :: g in ns ==> exists c :: c in cs && |g| == |c.gradient|
  {
    if cs == [] then []
    else
      var c := cs[|cs| - 1];
      var init := NormalVectors(cs[..|cs| - 1]);
      assert forall g :: g in init ==> exists c :: c in cs && |g| == |c.gradient| by {
        forall g | g in init ensures exists c :: c in cs && |g| == |c.gradient| {
          var c' :| c' in cs[..|cs| - 1] && |g| == |c'.gradient|;
          assert c' in cs;
        }
      }
      init + (if Multiplier(c) != 0 then [Normal(Multiplier(c), c.gradient)] else [])
  }

  // ---------------------------------------------------------------------------
  // The composite normal

  /** The sum of entry `i` over the vectors. */
  function ColumnSum(ns: seq<seq<real>>, i: nat): real
    requires forall g :: g in ns ==> i < |g|
  {
    if ns == [] then 0.0 else ColumnSum(ns[..|ns| - 1], i) + ns[|ns| - 1][i]
  }

  /** `[sum(col) for col in zip(*normal_vectors)]` for vectors of length `n`. */
  function CompositeNormal(ns: seq<seq<real>>, n: nat): (r: seq<real>)
    requires forall g :: g in ns ==> |g| == n
    ensures |r| == n
  {
    seq(n, i requires 0 <= i < n => ColumnSum(ns, i))
  }

  /** `n[v]·x[v]` for each variable, a variable past the end of `n` counting 0. */
  function Weighted(n: seq<real>, x: Point): Var -> real {
    (v: Var) => if v < |n| then Times(n[v], x(v)) else 0.0
  }

  /** `Σ n[v]·x[v]` over the variables of `vars`. */
  function Dot(n: seq<real>, vars: seq<Var>, x: Point): real {
    SumOver(vars, Weighted(n, x))
  }

  lemma DotAdd(a: seq<real>, b: seq<real>, c: seq<real>, vars: seq<Var>, x: Point)
    requires |a| == |b| == |c|
    requires forall i :: 0 <= i < |c| ==> c[i] == a[i] + b[i]
    ensures Dot(c, vars, x) == Dot(a, vars, x) + Dot(b, vars, x)
  {
    SumOverAdd(vars, Weighted(a, x), Weighted(b, x), Weighted(c, x));
  }

  lemma DotNormal(m: int, g: seq<real>, vars: seq<Var>, x: Point)
    ensures Dot(Normal(m, g), vars, x) == Times(m as real, Dot(g, vars, x))
  {
    SumOverScale(vars, Weighted(g, x), Weighted(Normal(m, g), x), m as real);
  }

  /** Adding one vector to the list adds its weighted sum to the composite's. */
  lemma CompositeSnoc(ns: seq<seq<real>>, g: seq<real>, n: nat, vars: seq<Var>, x: Point)
    requires forall h :: h in ns ==> |h| == n
    requires |g| == n
    ensures Dot(CompositeNormal(ns + [g], n), vars, x) == Dot(CompositeNormal(ns, n), vars, x) + Dot(g, vars, x)
  {
    assert (ns + [g])[..|ns|] == ns;
    DotAdd(CompositeNormal(ns, n), g, CompositeNormal(ns + [g], n), vars, x);
  }

  lemma CompositeEmpty(n: nat, vars: seq<Var>, x: Point)
    ensures Dot(CompositeNormal([], n), vars, x) == 0.0
  {
    SumOverScale(vars, Weighted(CompositeNormal([], n), x), Weighted(CompositeNormal([], n), x), 0.0);
  }

  /**
   * When the gradient of a linear body holds its coefficients, the weighted
   * sum over a duplicate-free list covering the body is the body's value.
   */
  lemma DotLinear(g: seq<real>, b: Body, vars: seq<Var>, x: Point)
    requires WellFormed(b) && Distinct(vars)
    requires forall v :: v in Vars(b) ==> v in vars
    requires forall v :: v in vars ==> v < |g| && g[v] == Coef(b, v)
    ensures Dot(g, vars, x) == Eval(b, x)
  {
    SumOverSame(vars, Weighted(g, x), Contribution(b, x));
    SumContributionAll(b, vars, x);
  }

  // ---------------------------------------------------------------------------
  // The cut through x̂

  /** Every variable of `vars` is a position of a vector of length `n`. */
  predicate Indexes(vars: seq<Var>, n: nat) {
    forall i :: 0 <= i < |vars| ==> vars[i] < n
  }

  /** The standard form of `Σ n[v]·(x_v - x̂_v)`: its terms, collected in order. */
  function CutBody(n: seq<real>, vars: seq<Var>): Body
    requires Indexes(vars, |n|)
  {
    if vars == [] then []
    else
      var v := vars[|vars| - 1];
      AddTerm(CutBody(n, vars[..|vars| - 1]), v, n[v])
  }

  /** The constant of that standard form, `-Σ n[v]·x̂_v`. */
  function CutConstant(n: seq<real>, vars: seq<Var>, xhat: Point): real
    requires Indexes(vars, |n|)
  {
    if vars == [] then 0.0
    else
      var v := vars[|vars| - 1];
      CutConstant(n, vars[..|vars| - 1], xhat) - Times(n[v], xhat(v))
  }

  /** `cut_cons`: `Σ n[v]·(x_v - x̂_v) <= 0` as a row with upper bound 0. */
  function CutRow(n: seq<real>, vars: seq<Var>, xhat: Point): Row
    requires Indexes(vars, |n|)
  {
    Row(None, Some(0.0), CutBody(n, vars), CutConstant(n, vars, xhat))
  }

  /**
   * The cut row's value at `x` is `Σ n[v]·(x_v - x̂_v)`; its body is a
   * dictionary over the variables of `vars`.
   */
  lemma {:induction false} CutRowValue(n: seq<real>, vars: seq<Var>, xhat: Point, x: Point)
    requires Indexes(vars, |n|)
    ensures Value(CutRow(n, vars, xhat), x) == Dot(n, vars, x) - Dot(n, vars, xhat)
    ensures WellFormed(CutBody(n, vars))
    ensures forall v :: v in Vars(CutBody(n, vars)) <==> v in vars
  {
    if vars != [] {
      var init, v := vars[..|vars| - 1], vars[|vars| - 1];
      assert vars == init + [v];
      CutRowValue(n, init, xhat, x);
      AddTermEval(CutBody(n, init), v, n[v], x);
      AddTermVars(CutBody(n, init), v, n[v]);
      SumOverAppend(init, [v], Weighted(n, x));
      SumOverAppend(init, [v], Weighted(n, xhat));
    }
  }

  /**
   * The hull constraint is linear around x̂ over `vars`: its gradient holds the
   * coefficients of its linear representation, whose variables are all among
   * `vars`, and its body value is the representation's value at x̂.
   */
  predicate LinearAt(c: HullConstraint, vars: seq<Var>, xhat: Point) {
    && WellFormed(c.row.body)
    && (forall v :: v in Vars(c.row.body) ==> v in vars)
    && (forall v :: v in vars ==> v < |c.gradient| && c.gradient[v] == Coef(c.row.body, v))
    && c.bodyValue == Value(c.row, xhat)
  }

  /**
   * Every point satisfying the tight constraints lies on the non-positive
   * side of the composite normal through x̂.
   */
  lemma {:induction false} CompositeSupports(cs: seq<HullConstraint>, nv: nat, vars: seq<Var>, xhat: Point, x: Point)
    requires forall c :: c in cs ==> |c.gradient| == nv
    requires Distinct(vars)
    requires forall c :: c in cs && Multiplier(c) != 0 ==> LinearAt(c, vars, xhat) && Sat(c.row, x)
    ensures var n := CompositeNormal(NormalVectors(cs), nv);
      Dot(n, vars, x) - Dot(n, vars, xhat) <= 0.0
  {
    if cs == [] {
      CompositeEmpty(nv, vars, x);
      CompositeEmpty(nv, vars, xhat);
    } else {
      var init, c := cs[..|cs| - 1], cs[|cs| - 1];
      assert forall d :: d in init ==> d in cs;
      CompositeSupports(init, nv, vars, xhat, x);
      var ns := NormalVectors(init);
      if Multiplier(c) != 0 {
        var g := Normal(Multiplier(c), c.gradient);
        assert NormalVectors(cs) == ns + [g];
        CompositeSnoc(ns, g, nv, vars, x);
        CompositeSnoc(ns, g, nv, vars, xhat);
        NormalSupports(c, vars, xhat, x);
      } else {
        assert NormalVectors(cs) == ns;
      }
    }
  }

  /** The oriented gradient of one tight linear constraint supports the points that satisfy it. */
  lemma NormalSupports(c: HullConstraint, vars: seq<Var>, xhat: Point, x: Point)
    requires Distinct(vars)
    requires LinearAt(c, vars, xhat) && Sat(c.row, x)
    ensures var g := Normal(Multiplier(c), c.gradient);
      Dot(g, vars, x) - Dot(g, vars, xhat) <= 0.0
  {
    var m := Multiplier(c);
    var g := Normal(m, c.gradient);
    DotNormal(m, c.gradient, vars, x);
    DotNormal(m, c.gradient, vars, xhat);
    GradientGap(c, vars, xhat, x);
    var w := Value(c.row, x);
    TightSupports(c.row.lower, c.row.upper, c.bodyValue, w);
    SupportArith(m as real, Dot(c.gradient, vars, x), Dot(c.gradient, vars, xhat), w - c.bodyValue,
      Dot(g, vars, x), Dot(g, vars, xhat));
  }

  /** Between two points the gradient of a linear constraint measures the change of its body. */
  lemma GradientGap(c: HullConstraint, vars: seq<Var>, xhat: Point, x: Point)
    requires Distinct(vars) && LinearAt(c, vars, xhat)
    ensures Dot(c.gradient, vars, x) - Dot(c.gradient, vars, xhat) == Value(c.row, x) - c.bodyValue
  {
    DotLinear(c.gradient, c.row.body, vars, x);
    DotLinear(c.gradient, c.row.body, vars, xhat);
  }

  lemma SupportArith(m: real, a: real, b: real, d: real, ma: real, mb: real)
    requires a - b == d && Times(m, d) <= 0.0
    requires ma == Times(m, a) && mb == Times(m, b)
    ensures ma - mb <= 0.0
  {
    assert m * a - m * b == m * (a - b);
  }

  /**
   * The cut `_create_cuts` builds in the extended space is valid: every
   * point satisfying the tight constraints satisfies it.
   */
  lemma CutValid(cs: seq<HullConstraint>, nv: nat, vars: seq<Var>, xhat: Point, x: Point)
    requires forall c :: c in cs ==> |c.gradient| == nv
    requires Indexes(vars, nv)
    requires Distinct(vars)
    requires forall c :: c in cs && Multiplier(c) != 0 ==> LinearAt(c, vars, xhat) && Sat(c.row, x)
    ensures Sat(CutRow(CompositeNormal(NormalVectors(cs), nv), vars, xhat), x)
  {
    var n := CompositeNormal(NormalVectors(cs), nv);
    CompositeSupports(cs, nv, vars, xhat, x);
    CutRowValue(n, vars, xhat, x);
  }

  // ---------------------------------------------------------------------------
  // The variables to project out

  /** `ComponentSet.add`: a variable already in the set is not added again. */
  function Insert(s: seq<Var>, v: Var): (r: seq<Var>)
    ensures Distinct(s) ==> Distinct(r)
  {
    if v in s then s
    else
      DistinctAppendOne(s, v);
      s + [v]
  }

  lemma DistinctAppendOne(s: seq<Var>, v: Var)
    ensures Distinct(s) && v !in s ==> Distinct(s + [v])
  {
    if Distinct(s) && v !in s {
      DistinctAppend(s, [v]);
    }
  }

  /** A `ComponentSet` filled in order: each variable kept at its first insertion. */
  function Dedup(vs: seq<Var>): (r: seq<Var>)
    ensures Distinct(r)
  {
    if vs == [] then [] else Insert(Dedup(vs[..|vs| - 1]), vs[|vs| - 1])
  }

  /** The set holds exactly the inserted variables. */
  lemma {:induction false} DedupMembers(vs: seq<Var>)
    ensures forall v :: v in Dedup(vs) <==> v in vs
  {
    if vs != [] {
      var init, v := vs[..|vs| - 1], vs[|vs| - 1];
      assert vs == init + [v];
      DedupMembers(init);
    }
  }

  // ---------------------------------------------------------------------------
  // Translating the projected rows to the BigM models

  /** The BigM and relaxed BigM counterparts of one hull variable, `var_map[var]`. */
  datatype Counterparts = Counterparts(bigM: Var, rBigM: Var)

  type VarMap = map<Var, Counterparts>

  datatype Sense = AtLeast | AtMost

  /** A cut on a BigM model: `bound <= Σ coef·y + constant` (AtLeast) or `bound >= …` (AtMost). */
  datatype Cut = Cut(sense: Sense, bound: real, body: Body, constant: real)

  predicate CutSat(k: Cut, y: Point) {
    match k.sense
    case AtLeast => k.bound <= Eval(k.body, y) + k.constant
    case AtMost => k.bound >= Eval(k.body, y) + k.constant
  }

  /** The dictionary `{'rBigM': [...], 'bigM': [...]}` of cut expressions. */
  datatype Cuts = Cuts(rBigM: seq<Cut>, bigM: seq<Cut>)

  /** One body rewritten over the BigM variables and over the relaxed BigM variables. */
  datatype Translated = Translated(bigM: Body, rBigM: Body)

  /** Some entry of the body has a non-zero coefficient. */
  predicate Nontrivial(b: Body) {
    exists t :: t in b && t.coef != 0.0
  }

  /** Every variable with a non-zero coefficient in the body has counterparts. */
  predicate Mapped(b: Body, vm: VarMap) {
    forall t :: t in b && t.coef != 0.0 ==> t.v in vm
  }

  /**
   * The inner loop of `get_constraint_exprs`: every entry with a non-zero
   * coefficient becomes `coef·var_map[var]['bigM']` and
   * `coef·var_map[var]['rBigM']`; the first such variable without
   * counterparts raises `KeyError`. Entries with coefficient 0 are skipped.
   */
  function Translate(b: Body, vm: VarMap): (r: Result<Translated>)
    ensures r.Ok? <==> Mapped(b, vm)
    ensures r.Err? ==> r.error.KeyError? && exists t :: t in b && t.coef != 0.0 && t.v !in vm && t.v == r.error.v
    ensures r.Ok? ==> |r.value.bigM| == |r.value.rBigM| && (r.value.bigM == [] <==> !Nontrivial(b))
  {
    if b == [] then Ok(Translated([], []))
    else
      var init, t := b[..|b| - 1], b[|b| - 1];
      assert b == init + [t];
      match Translate(init, vm)
      case Err(e) => Err(e)
      case Ok(m) =>
        if t.coef != 0.0 && t.v !in vm then Err(KeyError(t.v))
        else Ok(Extend(m, t, vm))
  }

  /** One more entry of the inner loop: a non-zero term is appended to both bodies. */
  function Extend(m: Translated, t: Term, vm: VarMap): Translated
    requires t.coef != 0.0 ==> t.v in vm
  {
    if t.coef == 0.0 then m
    else Translated(m.bigM + [Term(vm[t.v].bigM, t.coef)], m.rBigM + [Term(vm[t.v].rBigM, t.coef)])
  }

  lemma ExtendEval(m: Translated, t: Term, vm: VarMap, x: Point, y: Point, z: Point)
    requires t.coef != 0.0 ==> t.v in vm
    requires Agrees(vm, x, y, z)
    ensures Eval(Extend(m, t, vm).bigM, y) == Eval(m.bigM, y) + Times(t.coef, x(t.v))
    ensures Eval(Extend(m, t, vm).rBigM, z) == Eval(m.rBigM, z) + Times(t.coef, x(t.v))
  {
    if t.coef != 0.0 {
      var p := vm[t.v];
      EvalAppend(m.bigM, [Term(p.bigM, t.coef)], y);
      EvalAppend(m.rBigM, [Term(p.rBigM, t.coef)], z);
    }
  }

  /** The BigM point `y` and the relaxed BigM point `z` agree with `x` on every mapped variable. */
  predicate Agrees(vm: VarMap, x: Point, y: Point, z: Point) {
    forall v :: v in vm ==> y(vm[v].bigM) == x(v) && z(vm[v].rBigM) == x(v)
  }

  /** A translated body takes the original body's value at corresponding points. */
  lemma {:induction false} TranslateEval(b: Body, vm: VarMap, x: Point, y: Point, z: Point)
    requires Translate(b, vm).Ok?
    requires Agrees(vm, x, y, z)
    ensures Eval(Translate(b, vm).value.bigM, y) == Eval(b, x)
    ensures Eval(Translate(b, vm).value.rBigM, z) == Eval(b, x)
  {
    if b != [] {
      var init, t := b[..|b| - 1], b[|b| - 1];
      assert b == init + [t];
      TranslateEval(init, vm, x, y, z);
      EvalAppend(init, [t], x);
      assert Eval([t], x) == Times(t.coef, x(t.v));
      var m := Translate(init, vm).value;
      assert Translate(b, vm).value == Extend(m, t, vm);
      ExtendEval(m, t, vm, x, y, z);
    }
  }

  /** Once some prefix of the body raises, the whole body raises the same error. */
  lemma {:induction false} TranslateErrPersists(b: Body, vm: VarMap, k: nat)
    requires k <= |b| && Translate(b[..k], vm).Err?
    ensures Translate(b, vm) == Translate(b[..k], vm)
    decreases |b| - k
  {
    if k < |b| {
      assert b[..k + 1][..k] == b[..k];
      TranslateErrPersists(b, vm, k + 1);
    } else {
      assert b[..k] == b;
    }
  }

  /** A row that yields a cut: a non-trivial body and some bound. */
  predicate Emits(r: Row) {
    Nontrivial(r.body) && Bounded(r)
  }

  /** The terms of a body with a non-zero coefficient, in order. */
  function NonZeroTerms(b: Body): (nz: Body)
    ensures forall t :: t in nz ==> t in b && t.coef != 0.0
  {
    if b == [] then []
    else NonZeroTerms(b[..|b| - 1]) + (if b[|b| - 1].coef != 0.0 then [b[|b| - 1]] else [])
  }

  /**
   * The translated bodies hold exactly the non-zero terms of the body, in
   * order, each over the variable's BigM or relaxed BigM counterpart with the
   * same coefficient.
   */
  lemma {:induction false} TranslateTerms(b: Body, vm: VarMap)
    requires Translate(b, vm).Ok?
    ensures var m, nz := Translate(b, vm).value, NonZeroTerms(b);
      && |m.bigM| == |nz| && |m.rBigM| == |nz|
      && forall i :: 0 <= i < |nz| ==>
           && nz[i].v in vm
           && m.bigM[i] == Term(vm[nz[i].v].bigM, nz[i].coef)
           && m.rBigM[i] == Term(vm[nz[i].v].rBigM, nz[i].coef)
  {
    if b != [] {
      var init, t := b[..|b| - 1], b[|b| - 1];
      assert b == init + [t];
      TranslateTerms(init, vm);
      assert Translate(b, vm).value == Extend(Translate(init, vm).value, t, vm);
    }
  }

  /** The rows that give a cut: a non-trivial body and some bound. */
  function EmittingRows(rows: seq<Row>): (e: seq<Row>)
    ensures |e| == CountEmitted(rows)
    ensures forall r :: r in e ==> r in rows && Emits(r)
  {
    if rows == [] then []
    else EmittingRows(rows[..|rows| - 1]) + (if Emits(rows[|rows| - 1]) then [rows[|rows| - 1]] else [])
  }

  function CountEmitted(rows: seq<Row>): nat {
    if rows == [] then 0
    else CountEmitted(rows[..|rows| - 1]) + (if Emits(rows[|rows| - 1]) then 1 else 0)
  }

  /**
   * `get_constraint_exprs`: each row with a non-trivial body becomes one cut on
   * each BigM model, `lower <= body` when it has a lower bound and otherwise
   * `upper >= body` when it has an upper bound; rows with no bound give none.
   */
  function ConstraintExprs(rows: seq<Row>, vm: VarMap): (r: Result<Cuts>)
    ensures r.Ok? ==> |r.value.bigM| == |r.value.rBigM| <= |rows|
  {
    if rows == [] then Ok(Cuts([], []))
    else
      var r := rows[|rows| - 1];
      match ConstraintExprs(rows[..|rows| - 1], vm)
      case Err(e) => Err(e)
      case Ok(cs) =>
        match Translate(r.body, vm)
        case Err(e) => Err(e)
        case Ok(m) =>
          if m.bigM == [] then Ok(cs)
          else if r.lower.Some? then
            Ok(Cuts(cs.rBigM + [Cut(AtLeast, r.lower.value, m.rBigM, r.constant)],
                    cs.bigM + [Cut(AtLeast, r.lower.value, m.bigM, r.constant)]))
          else if r.upper.Some? then
            Ok(Cuts(cs.rBigM + [Cut(AtMost, r.upper.value, m.rBigM, r.constant)],
                    cs.bigM + [Cut(AtMost, r.upper.value, m.bigM, r.constant)]))
          else Ok(cs)
  }

  /**
   * The translation succeeds exactly when every variable with a non-zero
   * coefficient has counterparts, and then yields one cut per emitting row on
   * each model.
   */
  lemma {:induction false} ExprsShape(rows: seq<Row>, vm: VarMap)
    ensures ConstraintExprs(rows, vm).Ok? <==> forall r :: r in rows ==> Mapped(r.body, vm)
    ensures ConstraintExprs(rows, vm).Err? ==> ConstraintExprs(rows, vm).error.KeyError?
    ensures ConstraintExprs(rows, vm).Ok? ==>
      |ConstraintExprs(rows, vm).value.bigM| == |ConstraintExprs(rows, vm).value.rBigM| == CountEmitted(rows)
  {
    if rows != [] {
      var init, r := rows[..|rows| - 1], rows[|rows| - 1];
      assert rows == init + [r];
      ExprsShape(init, vm);
    }
  }

  /**
   * Every cut on the BigM model holds at `y`, and every cut on the relaxed
   * BigM model at `z`, when `x` satisfies the rows and the points agree.
   */
  lemma {:induction false} ExprsSound(rows: seq<Row>, vm: VarMap, x: Point, y: Point, z: Point)
    requires ConstraintExprs(rows, vm).Ok?
    requires SatAll(rows, x) && Agrees(vm, x, y, z)
    ensures forall k :: k in ConstraintExprs(rows, vm).value.bigM ==> CutSat(k, y)
    ensures forall k :: k in ConstraintExprs(rows, vm).value.rBigM ==> CutSat(k, z)
  {
    if rows != [] {
      var init, r := rows[..|rows| - 1], rows[|rows| - 1];
      assert rows == init + [r];
      ExprsSound(init, vm, x, y, z);
      TranslateEval(r.body, vm, x, y, z);
      assert Sat(r, x);
    }
  }

  /**
   * `k` is the cut of row `r` over the translated body `body`: `lower <= body`
   * when the row has a lower bound and `upper >= body` otherwise, with the
   * row's constant.
   */
  predicate CutOfRow(k: Cut, r: Row, body: Body) {
    && k.body == body && k.constant == r.constant
    && (r.lower.Some? ==> k.sense == AtLeast && k.bound == r.lower.value)
    && (r.lower.None? ==> r.upper.Some? && k.sense == AtMost && k.bound == r.upper.value)
  }

  /**
   * The form of the cuts: the k-th cut on each model is the cut of the k-th
   * row that gives one, over that row's translated body.
   */
  lemma {:induction false} ExprsForm(rows: seq<Row>, vm: VarMap)
    requires ConstraintExprs(rows, vm).Ok?
    ensures var cs, e := ConstraintExprs(rows, vm).value, EmittingRows(rows);
      && |cs.bigM| == |e| && |cs.rBigM| == |e|
      && forall k :: 0 <= k < |e| ==>
           && Translate(e[k].body, vm).Ok?
           && CutOfRow(cs.bigM[k], e[k], Translate(e[k].body, vm).value.bigM)
           && CutOfRow(cs.rBigM[k], e[k], Translate(e[k].body, vm).value.rBigM)
  {
    if rows != [] {
      var init, r := rows[..|rows| - 1], rows[|rows| - 1];
      ExprsLast(rows, vm);
      ExprsForm(init, vm);
      var e0 := EmittingRows(init);
      if Emits(r) {
        assert EmittingRows(rows) == e0 + [r];
      }
    }
  }

  /** The last row adds its cut to each model when it gives one, and nothing otherwise. */
  lemma ExprsLast(rows: seq<Row>, vm: VarMap)
    requires rows != [] && ConstraintExprs(rows, vm).Ok?
    ensures var init, r := rows[..|rows| - 1], rows[|rows| - 1];
      && ConstraintExprs(init, vm).Ok? && Translate(r.body, vm).Ok?
      && var cs0, cs, m := ConstraintExprs(init, vm).value, ConstraintExprs(rows, vm).value, Translate(r.body, vm).value;
      && (Emits(r) ==>
            && |cs.bigM| == |cs0.bigM| + 1 && cs.bigM[..|cs0.bigM|] == cs0.bigM
            && |cs.rBigM| == |cs0.rBigM| + 1 && cs.rBigM[..|cs0.rBigM|] == cs0.rBigM
            && CutOfRow(cs.bigM[|cs0.bigM|], r, m.bigM) && CutOfRow(cs.rBigM[|cs0.rBigM|], r, m.rBigM))
      && (!Emits(r) ==> cs == cs0)
  {
  }

  /** Once some prefix of the rows raises, the whole list raises the same error. */
  lemma {:induction false} ExprsErrPersists(rows: seq<Row>, vm: VarMap, k: nat)
    requires k <= |rows| && ConstraintExprs(rows[..k], vm).Err?
    ensures ConstraintExprs(rows, vm) == ConstraintExprs(rows[..k], vm)
    decreases |rows| - k
  {
    if k < |rows| {
      assert rows[..k + 1][..k] == rows[..k];
      ExprsErrPersists(rows, vm, k + 1);
    } else {
      assert rows[..k] == rows;
    }
  }

  /**
   * The outer loop of `get_constraint_exprs`: each row's two bodies are built
   * by the inner loop, trivial rows are skipped, and one cut per model is
   * appended for a row with a bound.
   */
  method GetConstraintExprs(constraints: seq<Row>, varMap: VarMap) returns (cuts: Result<Cuts>)
    ensures cuts == ConstraintExprs(constraints, varMap)
  {
    var rBigM: seq<Cut>, bigM: seq<Cut> := [], [];
    for i := 0 to |constraints|
      invariant ConstraintExprs(constraints[..i], varMap) == Ok(Cuts(rBigM, bigM))
    {
      var cons := constraints[i];
      assert constraints[..i + 1][..i] == constraints[..i];
      var bodies, trivialConstraint := TranslateBody(cons.body, varMap);
      if bodies.Err? {
        ExprsErrPersists(constraints, varMap, i + 1);
        return Err(bodies.error);
      }
      if trivialConstraint {
        continue;
      }
      var bodyBigM, bodyRBigM := bodies.value.bigM, bodies.value.rBigM;
      if cons.lower.Some? {
        rBigM := rBigM + [Cut(AtLeast, cons.lower.value, bodyRBigM, cons.constant)];
        bigM := bigM + [Cut(AtLeast, cons.lower.value, bodyBigM, cons.constant)];
      } else if cons.upper.Some? {
        rBigM := rBigM + [Cut(AtMost, cons.upper.value, bodyRBigM, cons.constant)];
        bigM := bigM + [Cut(AtMost, cons.upper.value, bodyBigM, cons.constant)];
      }
    }
    assert constraints[..|constraints|] == constraints;
    cuts := Ok(Cuts(rBigM, bigM));
  }

  /**
   * The inner loop of `get_constraint_exprs` over one row's body; the flag
   * says whether no entry had a non-zero coefficient.
   */
  method TranslateBody(body: Body, varMap: VarMap) returns (bodies: Result<Translated>, trivialConstraint: bool)
    ensures bodies == Translate(body, varMap)
    ensures bodies.Ok? ==> (trivialConstraint <==> !Nontrivial(body))
  {
    var bodyBigM: Body, bodyRBigM: Body := [], [];
    trivialConstraint := true;
    for j := 0 to |body|
      invariant Translate(body[..j], varMap) == Ok(Translated(bodyBigM, bodyRBigM))
      invariant trivialConstraint <==> bodyBigM == []
    {
      var t := body[j];
      assert body[..j + 1][..j] == body[..j];
      if t.coef != 0.0 {
        if t.v !in varMap {
          TranslateErrPersists(body, varMap, j + 1);
          return Err(KeyError(t.v)), trivialConstraint;
        }
        bodyBigM := bodyBigM + [Term(varMap[t.v].bigM, t.coef)];
        bodyRBigM := bodyRBigM + [Term(varMap[t.v].rBigM, t.coef)];
        trivialConstraint := false;
      }
    }
    assert body[..|body|] == body;
    bodies := Ok(Translated(bodyBigM, bodyRBigM));
  }

  // ---------------------------------------------------------------------------
  // `_create_cuts`

  /**
   * The rows Fourier–Motzkin elimination leaves when the cut through x̂ is
   * appended to the tight constraints and the disaggregated variables are
   * projected out.
   */
  function Projected(cs: seq<HullConstraint>, nv: nat, tracked: seq<Var>, disaggregated: seq<Var>, xhat: Point): (rows: seq<Row>)
    requires forall c :: c in cs ==> |c.gradient| == nv
    requires Indexes(tracked + disaggregated, nv)
    ensures forall r, v :: r in rows && v in disaggregated ==> Coef(r.body, v) == 0.0
  {
    var cut := CutRow(CompositeNormal(NormalVectors(cs), nv), tracked + disaggregated, xhat);
    EliminateRemoves(SplitTwoSided(TightRows(cs) + [cut]), Dedup(disaggregated));
    DedupMembers(disaggregated);
    Eliminate(SplitTwoSided(TightRows(cs) + [cut]), Dedup(disaggregated))
  }

  /**
   * What `_create_cuts` returns: `None` when no constraint is tight, and
   * otherwise the projected rows translated to the BigM models (or the
   * `KeyError` of the translation).
   */
  function CreatedCuts(cs: seq<HullConstraint>, nv: nat, tracked: seq<Var>, disaggregated: seq<Var>, vm: VarMap, xhat: Point): (r: Result<Option<Cuts>>)
    requires forall c :: c in cs ==> |c.gradient| == nv
    requires Indexes(tracked + disaggregated, nv)
    ensures r == Ok(None) <==> TightRows(cs) == []
    ensures r.Err? ==> r.error.KeyError?
  {
    if NormalVectors(cs) == [] then Ok(None)
    else
      var e := ConstraintExprs(Projected(cs, nv, tracked, disaggregated, xhat), vm);
      ExprsShape(Projected(cs, nv, tracked, disaggregated, xhat), vm);
      if e.Ok? then Ok(Some(e.value)) else Err(e.error)
  }

  /** The tight rows are the rows of the constraints with a non-zero multiplier. */
  lemma {:induction false} TightRowsMembers(cs: seq<HullConstraint>)
    ensures forall r :: r in TightRows(cs) ==> exists c :: c in cs && Multiplier(c) != 0 && r == c.row
  {
    if cs != [] {
      var init := cs[..|cs| - 1];
      TightRowsMembers(init);
      assert forall c :: c in init ==> c in cs;
    }
  }

  /** The row of every constraint with a non-zero multiplier is a tight row. */
  lemma {:induction false} TightRowsComplete(cs: seq<HullConstraint>)
    ensures forall c :: c in cs && Multiplier(c) != 0 ==> c.row in TightRows(cs)
  {
    if cs != [] {
      var init := cs[..|cs| - 1];
      assert cs == init + [cs[|cs| - 1]];
      TightRowsComplete(init);
    }
  }

  /**
   * The projected rows hold at every point `x` that satisfies the tight
   * constraints, when those constraints are linear over the cut's variables.
   */
  lemma ProjectedValid(cs: seq<HullConstraint>, nv: nat, tracked: seq<Var>, disaggregated: seq<Var>, xhat: Point, x: Point)
    requires forall c :: c in cs ==> |c.gradient| == nv
    requires Indexes(tracked + disaggregated, nv)
    requires Distinct(tracked + disaggregated)
    requires forall c :: c in cs && Multiplier(c) != 0 ==> LinearAt(c, tracked + disaggregated, xhat) && Sat(c.row, x)
    ensures SatAll(Projected(cs, nv, tracked, disaggregated, xhat), x)
  {
    var vars := tracked + disaggregated;
    var n := CompositeNormal(NormalVectors(cs), nv);
    var cut := CutRow(n, vars, xhat);
    var rows := TightRows(cs) + [cut];
    CutValid(cs, nv, vars, xhat, x);
    CutRowValue(n, vars, xhat, x);
    TightRowsMembers(cs);
    assert AllWellFormed(rows) && SatAll(rows, x) by {
      forall r | r in rows ensures WellFormed(r.body) && Sat(r, x) {
        if r != cut {
          assert r in TightRows(cs);
        }
      }
    }
    SplitShape(rows);
    SplitSolutions(rows, x);
    EliminateSound(SplitTwoSided(rows), Dedup(disaggregated), x);
  }

  /**
   * The cuts `_create_cuts` returns are valid: every cut on the BigM model
   * holds at `y`, and every cut on the relaxed BigM model at `z`, whenever
   * these points carry the values of a point `x` of the hull relaxation that
   * satisfies the tight (linear) constraints.
   */
  lemma CreatedCutsValid(cs: seq<HullConstraint>, nv: nat, tracked: seq<Var>, disaggregated: seq<Var>, vm: VarMap,
                         xhat: Point, x: Point, y: Point, z: Point)
    requires forall c :: c in cs ==> |c.gradient| == nv
    requires Indexes(tracked + disaggregated, nv)
    requires Distinct(tracked + disaggregated)
    requires forall c :: c in cs && Multiplier(c) != 0 ==> LinearAt(c, tracked + disaggregated, xhat) && Sat(c.row, x)
    requires Agrees(vm, x, y, z)
    requires CreatedCuts(cs, nv, tracked, disaggregated, vm, xhat).Ok?
    requires CreatedCuts(cs, nv, tracked, disaggregated, vm, xhat).value.Some?
    ensures forall k :: k in CreatedCuts(cs, nv, tracked, disaggregated, vm, xhat).value.value.bigM ==> CutSat(k, y)
    ensures forall k :: k in CreatedCuts(cs, nv, tracked, disaggregated, vm, xhat).value.value.rBigM ==> CutSat(k, z)
  {
    var rows := Projected(cs, nv, tracked, disaggregated, xhat);
    ProjectedValid(cs, nv, tracked, disaggregated, xhat, x);
    ExprsSound(rows, vm, x, y, z);
  }

  /** The loop over the active constraints: their tight rows and normal vectors. */
  method CollectTight(cs: seq<HullConstraint>) returns (tight: seq<Row>, normals: seq<seq<real>>)
    ensures tight == TightRows(cs) && normals == NormalVectors(cs)
  {
    tight, normals := [], [];
    for i := 0 to |cs|
      invariant tight == TightRows(cs[..i]) && normals == NormalVectors(cs[..i])
    {
      var constraint := cs[i];
      assert cs[..i + 1][..i] == cs[..i];
      var multiplier := ConstraintTight(constraint.row.lower, constraint.row.upper, constraint.bodyValue);
      if multiplier != 0 {
        tight := tight + [constraint.row];
        normals := normals + [Normal(multiplier, constraint.gradient)];
      }
    }
    assert cs[..|cs|] == cs;
  }

  /**
   * The two loops that build `Σ n[v]·(x_v - x̂_v)` over the original and then
   * the disaggregated variables, collecting the latter into
   * `vars_to_eliminate`.
   */
  method BuildCut(n: seq<real>, tracked: seq<Var>, disaggregated: seq<Var>, xhat: Point) returns (cut: Row, toEliminate: seq<Var>)
    requires Indexes(tracked + disaggregated, |n|)
    ensures cut == CutRow(n, tracked + disaggregated, xhat)
    ensures toEliminate == Dedup(disaggregated)
  {
    var vars := tracked + disaggregated;
    var body, constant := CutOverTracked(n, vars, |tracked|, xhat);
    cut, toEliminate := CutOverDisaggregated(n, vars, |tracked|, xhat, body, constant);
    assert vars[|tracked|..] == disaggregated;
  }

  /** The first loop: the cut's terms and constant over the original variables `vars[..m]`. */
  method CutOverTracked(n: seq<real>, vars: seq<Var>, m: nat, xhat: Point) returns (body: Body, constant: real)
    requires Indexes(vars, |n|) && m <= |vars|
    ensures body == CutBody(n, vars[..m]) && constant == CutConstant(n, vars[..m], xhat)
  {
    body, constant := [], 0.0;
    for i := 0 to m
      invariant body == CutBody(n, vars[..i]) && constant == CutConstant(n, vars[..i], xhat)
    {
      var v := vars[i];
      CutStep(n, vars, xhat, i);
      body := AddTerm(body, v, n[v]);
      constant := constant - Times(n[v], xhat(v));
    }
  }

  /**
   * The second loop: the cut's terms and constant over the disaggregated
   * variables `vars[m..]`, which are also collected into `vars_to_eliminate`.
   */
  method CutOverDisaggregated(n: seq<real>, vars: seq<Var>, m: nat, xhat: Point, body0: Body, constant0: real)
    returns (cut: Row, toEliminate: seq<Var>)
    requires Indexes(vars, |n|) && m <= |vars|
    requires body0 == CutBody(n, vars[..m]) && constant0 == CutConstant(n, vars[..m], xhat)
    ensures cut == CutRow(n, vars, xhat)
    ensures toEliminate == Dedup(vars[m..])
  {
    var body, constant := body0, constant0;
    toEliminate := [];
    for k := m to |vars|
      invariant body == CutBody(n, vars[..k]) && constant == CutConstant(n, vars[..k], xhat)
      invariant toEliminate == Dedup(vars[m..k])
    {
      var v := vars[k];
      CutStep(n, vars, xhat, k);
      body := AddTerm(body, v, n[v]);
      constant := constant - Times(n[v], xhat(v));
      DedupStep(vars, m, k);
      toEliminate := Insert(toEliminate, v);
    }
    assert vars[..|vars|] == vars;
    cut := Row(None, Some(0.0), body, constant);
  }

  lemma CutStep(n: seq<real>, vars: seq<Var>, xhat: Point, k: nat)
    requires Indexes(vars, |n|) && k < |vars|
    ensures CutBody(n, vars[..k + 1]) == AddTerm(CutBody(n, vars[..k]), vars[k], n[vars[k]])
    ensures CutConstant(n, vars[..k + 1], xhat) == CutConstant(n, vars[..k], xhat) - Times(n[vars[k]], xhat(vars[k]))
  {
    assert vars[..k + 1][..k] == vars[..k];
  }

  lemma DedupStep(vs: seq<Var>, m: nat, k: nat)
    requires m <= k < |vs|
    ensures Dedup(vs[m..k + 1]) == Insert(Dedup(vs[m..k]), vs[k])
  {
    assert vs[m..k + 1][..k - m] == vs[m..k];
  }

  /**
   * `_create_cuts`: collects the tight constraints and their normal vectors,
   * returns `None` when there are none, and otherwise builds the cut through
   * x̂ with the composite normal, projects it with the tight constraints, and
   * translates the result to the BigM models.
   */
  method CreateCuts(cs: seq<HullConstraint>, nv: nat, tracked: seq<Var>, disaggregated: seq<Var>, varMap: VarMap, xhat: Point)
    returns (cuts: Result<Option<Cuts>>)
    requires forall c :: c in cs ==> |c.gradient| == nv
    requires Indexes(tracked + disaggregated, nv)
    ensures cuts == CreatedCuts(cs, nv, tracked, disaggregated, varMap, xhat)
  {
    var tightConstraints, normalVectors := CollectTight(cs);
    if normalVectors == [] {
      return Ok(None);
    }
    var compositeNormal := CompositeNormal(normalVectors, nv);
    var cutCons, varsToEliminate := BuildCut(compositeNormal, tracked, disaggregated, xhat);
    var projected := FourierMotzkinElimination(tightConstraints + [cutCons], varsToEliminate);
    var exprs := GetConstraintExprs(projected, varMap);
    if exprs.Err? {
      return Err(exprs.error);
    }
    cuts := Ok(Some(exprs.value));
  }
}
