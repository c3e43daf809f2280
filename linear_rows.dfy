/**
 * The linear constraint rows of the cutting-plane engine, `{'lower', 'upper',
 * 'body'}` dictionaries meaning `lower <= body + constant <= upper`, and the
 * two pieces of row arithmetic the projection is built from:
 * `scalar_multiply_linear_constraint` and `add_linear_constraints`.
 */
module LinearRows {
  import opened Wrappers
  import opened LinearBody

  /** `lower <= Σ coef·x + constant <= upper`; a missing bound is `None`. */
  datatype Row = Row(lower: Option<real>, upper: Option<real>, body: Body, constant: real)

  /** The value of the row's body, constant included, at `x`. */
  function Value(r: Row, x: Point): real {
    Eval(r.body, x) + r.constant
  }

  /** `x` satisfies every bound the row has. */
  predicate Sat(r: Row, x: Point) {
    && (r.lower.Some? ==> r.lower.value <= Value(r, x))
    && (r.upper.Some? ==> Value(r, x) <= r.upper.value)
  }

  predicate SatAll(rows: seq<Row>, x: Point) {
    forall r :: r in rows ==> Sat(r, x)
  }

  /** Every row's body is a dictionary (each variable at most once). */
  predicate AllWellFormed(rows: seq<Row>) {
    forall r :: r in rows ==> WellFormed(r.body)
  }

  predicate TwoSided(r: Row) {
    r.lower.Some? && r.upper.Some?
  }

  /** A present bound multiplied by `s`; an absent one stays absent. */
  function MulBound(b: Option<real>, s: real): Option<real> {
    if b.Some? then Some(Times(s, b.value)) else None
  }

  /**
   * The row multiplied by `s`: every coefficient and the constant are scaled,
   * and so is each present bound; a negative factor turns the lower bound into
   * an upper one and back.
   */
  function Scaled(r: Row, s: real): (scaled: Row)
    ensures s >= 0.0 ==> scaled.lower.Some? == r.lower.Some? && scaled.upper.Some? == r.upper.Some?
    ensures s < 0.0 ==> scaled.lower.Some? == r.upper.Some? && scaled.upper.Some? == r.lower.Some?
  {
    var body := ScaleBody(r.body, s);
    var c := r.constant * s;
    if s >= 0.0 then Row(MulBound(r.lower, s), MulBound(r.upper, s), body, c)
    else Row(MulBound(r.upper, s), MulBound(r.lower, s), body, c)
  }

  /**
   * The sum of two rows bounded on a common side; each bound of the sum is
   * present only when both rows have it. Rows that share no bounded side
   * cannot be added.
   */
  function Sum(a: Row, b: Row): (r: Result<Row>)
    ensures r.Ok? <==> (a.lower.Some? && b.lower.Some?) || (a.upper.Some? && b.upper.Some?)
    ensures r.Err? ==> r.error == RuntimeError
    ensures r.Ok? ==> (r.value.lower.Some? <==> a.lower.Some? && b.lower.Some?)
    ensures r.Ok? ==> (r.value.upper.Some? <==> a.upper.Some? && b.upper.Some?)
  {
    var lower := if a.lower.Some? && b.lower.Some? then Some(a.lower.value + b.lower.value) else None;
    var upper := if a.upper.Some? && b.upper.Some? then Some(a.upper.value + b.upper.value) else None;
    if lower.None? && upper.None? then Err(RuntimeError)
    else Ok(Row(lower, upper, SumBody(a.body, b.body), a.constant + b.constant))
  }

  // ---------------------------------------------------------------------------
  // Scaling

  /** Scaling multiplies every coefficient (present or not) and the constant by `s`. */
  lemma ScaledCoefficients(r: Row, s: real, v: Var)
    ensures Coef(Scaled(r, s).body, v) == s * Coef(r.body, v)
    ensures Scaled(r, s).constant == s * r.constant
    ensures Vars(Scaled(r, s).body) == Vars(r.body)
  {
    ScaleBodyCoef(r.body, s, v);
    ScaleBodyVars(r.body, s);
  }

  lemma ScaledValue(r: Row, s: real, x: Point)
    ensures Value(Scaled(r, s), x) == s * Value(r, x)
  {
    ScaleBodyEval(r.body, s, x);
  }

  lemma MulLe(s: real, a: real, b: real)
    requires s > 0.0
    ensures a <= b <==> s * a <= s * b
  {
    assert s * b - s * a == s * (b - a);
  }

  /** Scaling by a non-zero factor keeps exactly the points that satisfy the row. */
  lemma ScaledSolutions(r: Row, s: real, x: Point)
    requires s != 0.0
    ensures Sat(Scaled(r, s), x) <==> Sat(r, x)
  {
    var v, sr := Value(r, x), Scaled(r, s);
    ScaledValue(r, s, x);
    assert Value(sr, x) == s * v;
    BoundScaled(r.lower, s, v);
    BoundScaled(r.upper, s, v);
    if s > 0.0 {
      assert sr.lower == MulBound(r.lower, s) && sr.upper == MulBound(r.upper, s);
    } else {
      assert sr.lower == MulBound(r.upper, s) && sr.upper == MulBound(r.lower, s);
    }
  }

  /** How one bound compares with a value after both are multiplied by `s`. */
  lemma BoundScaled(b: Option<real>, s: real, v: real)
    requires s != 0.0
    ensures b.Some? ==> MulBound(b, s).Some? && MulBound(b, s).value == s * b.value
    ensures b.Some? && s > 0.0 ==> (b.value <= v <==> MulBound(b, s).value <= s * v)
    ensures b.Some? && s > 0.0 ==> (v <= b.value <==> s * v <= MulBound(b, s).value)
    ensures b.Some? && s < 0.0 ==> (b.value <= v <==> s * v <= MulBound(b, s).value)
    ensures b.Some? && s < 0.0 ==> (v <= b.value <==> MulBound(b, s).value <= s * v)
    ensures b.None? ==> MulBound(b, s).None?
  {
    if b.Some? {
      if s > 0.0 {
        MulLe(s, b.value, v);
        MulLe(s, v, b.value);
      } else {
        MulLe(-s, b.value, v);
        MulLe(-s, v, b.value);
      }
    }
  }

  // ---------------------------------------------------------------------------
  // Addition

  /** Each coefficient of the sum is the sum of the two coefficients, and the constants add. */
  lemma SumCoefficients(a: Row, b: Row, v: Var)
    requires Sum(a, b).Ok?
    ensures Coef(Sum(a, b).value.body, v) == Coef(a.body, v) + Coef(b.body, v)
    ensures Sum(a, b).value.constant == a.constant + b.constant
  {
    SumBodyCoef(a.body, b.body, v);
  }

  /**
   * The sum has a lower bound exactly when both rows do, equal to the sum of
   * theirs, and likewise an upper bound; it fails exactly when the rows share
   * no bounded side.
   */
  lemma SumBounds(a: Row, b: Row)
    ensures Sum(a, b).Err? <==> !(a.lower.Some? && b.lower.Some?) && !(a.upper.Some? && b.upper.Some?)
    ensures Sum(a, b).Err? ==> Sum(a, b).error == RuntimeError
    ensures Sum(a, b).Ok? ==>
      && (Sum(a, b).value.lower.Some? <==> a.lower.Some? && b.lower.Some?)
      && (Sum(a, b).value.lower.Some? ==> Sum(a, b).value.lower.value == a.lower.value + b.lower.value)
      && (Sum(a, b).value.upper.Some? <==> a.upper.Some? && b.upper.Some?)
      && (Sum(a, b).value.upper.Some? ==> Sum(a, b).value.upper.value == a.upper.value + b.upper.value)
  {
  }

  /** A point satisfying both rows satisfies their sum. */
  lemma SumSatisfied(a: Row, b: Row, x: Point)
    requires WellFormed(a.body) && WellFormed(b.body)
    requires Sat(a, x) && Sat(b, x)
    requires Sum(a, b).Ok?
    ensures Sat(Sum(a, b).value, x)
  {
    var r := Sum(a, b).value;
    SumBodyEval(a.body, b.body, x);
    assert Value(r, x) == Value(a, x) + Value(b, x);
  }

  lemma SumWellFormed(a: Row, b: Row)
    requires WellFormed(a.body) && WellFormed(b.body)
    requires Sum(a, b).Ok?
    ensures WellFormed(Sum(a, b).value.body)
  {
    SumBodyWellFormed(a.body, b.body);
  }

  // ---------------------------------------------------------------------------
  // The source's two procedures

  /**
   * `scalar_multiply_linear_constraint`: multiplies each entry of the body (and
   * the constant) by `scalar`, then rewrites the bounds, swapping their sides
   * when `scalar` is negative. The row is returned updated.
   */
  method ScalarMultiply(cons: Row, scalar: real) returns (r: Row)
    ensures r == Scaled(cons, scalar)
  {
    var body := cons.body;
    for i := 0 to |body|
      invariant |body| == |cons.body|
      invariant forall j :: 0 <= j < i ==> body[j] == ScaleTerm(cons.body[j], scalar)
      invariant forall j :: i <= j < |body| ==> body[j] == cons.body[j]
    {
      body := body[i := Term(body[i].v, body[i].coef * scalar)];
    }
    assert body == ScaleBody(cons.body, scalar);
    var constant := cons.constant * scalar;
    var lower, upper := cons.lower, cons.upper;
    if scalar >= 0.0 {
      if lower.Some? {
        lower := Some(scalar * lower.value);
      }
      if upper.Some? {
        upper := Some(scalar * upper.value);
      }
    } else {
      if lower.Some? {
        var tmpUpper := upper;
        upper := Some(scalar * lower.value);
        lower := None;
        if tmpUpper.Some? {
          lower := Some(scalar * tmpUpper.value);
        }
      } else if upper.Some? {
        var tmpUpper := upper;
        upper := None;
        lower := Some(scalar * tmpUpper.value);
      }
    }
    r := Row(lower, upper, body, constant);
  }

  /**
   * `add_linear_constraints`: a fresh row whose body holds every variable of
   * either row with the sum of its coefficients, whose constant is the sum of
   * the constants, and whose bounds are the sums of the bounds both rows have.
   */
  method AddLinearConstraints(cons1: Row, cons2: Row) returns (ans: Result<Row>)
    ensures ans == Sum(cons1, cons2)
  {
    var body: Body := [];
    for i := 0 to |cons1.body|
      invariant body == AddEach(cons1.body[..i], cons2.body)
    {
      var t := cons1.body[i];
      body := body + [Term(t.v, t.coef + Coef(cons2.body, t.v))];
    }
    assert cons1.body[..|cons1.body|] == cons1.body;
    var keys1 := Vars(cons1.body);
    for j := 0 to |cons2.body|
      invariant body == AddEach(cons1.body, cons2.body) + Without(cons2.body[..j], keys1)
    {
      var t := cons2.body[j];
      if t.v !in keys1 {
        body := body + [t];
      }
      WithoutSnoc(cons2.body[..j], t, keys1);
      assert cons2.body[..j + 1] == cons2.body[..j] + [t];
    }
    assert cons2.body[..|cons2.body|] == cons2.body;
    var lower, upper := None, None;
    var boundsGood := false;
    if cons1.lower.Some? && cons2.lower.Some? {
      lower := Some(cons1.lower.value + cons2.lower.value);
      boundsGood := true;
    }
    if cons1.upper.Some? && cons2.upper.Some? {
      upper := Some(cons1.upper.value + cons2.upper.value);
      boundsGood := true;
    }
    if !boundsGood {
      return Err(RuntimeError);
    }
    ans := Ok(Row(lower, upper, body, cons1.constant + cons2.constant));
  }

  lemma {:induction false} WithoutSnoc(b: Body, t: Term, vs: seq<Var>)
    ensures Without(b + [t], vs) == Without(b, vs) + (if t.v in vs then [] else [t])
  {
    if b == [] {
      assert b + [t] == [t];
    } else {
      assert (b + [t])[0] == b[0] && (b + [t])[1..] == b[1..] + [t];
      WithoutSnoc(b[1..], t, vs);
    }
  }
}
