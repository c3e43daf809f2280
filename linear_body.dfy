/**
 * The variable part of a linear constraint: an ordered `var -> coef` dictionary
 * (a `ComponentMap` in the source), kept as a list of entries so that its
 * iteration order is explicit. The constant (the source's `None` key) is kept
 * beside the body, in `LinearRows.Row`.
 */
module LinearBody {

  /** A variable, identified by its position in the deterministic variable list. */
  type Var = nat

  /** One `var: coef` entry of a body. */
  datatype Term = Term(v: Var, coef: real)

  type Body = seq<Term>

  /** A value for every variable. */
  type Point = Var -> real

  /** The keys of a body, in iteration order. */
  function Vars(b: Body): seq<Var> {
    if b == [] then [] else [b[0].v] + Vars(b[1..])
  }

  predicate Distinct(vs: seq<Var>) {
    vs == [] || (vs[0] !in vs[1..] && Distinct(vs[1..]))
  }

  /** A dictionary holds each key once. */
  predicate WellFormed(b: Body) {
    Distinct(Vars(b))
  }

  /** `body.get(v)`, with a missing entry read as 0. */
  function Coef(b: Body, v: Var): real {
    if b == [] then 0.0 else if b[0].v == v then b[0].coef else Coef(b[1..], v)
  }

  /** `a * b`, kept as one term so that products of point values compare as terms. */
  function Times(a: real, b: real): real {
    a * b
  }

  /** The body evaluated at `x`: the sum of `coef * x[var]` over its entries. */
  function Eval(b: Body, x: Point): real {
    if b == [] then 0.0 else Times(b[0].coef, x(b[0].v)) + Eval(b[1..], x)
  }

  /** The sum of `f(v)` over the variables of `vs`, in order. */
  function SumOver(vs: seq<Var>, f: Var -> real): real {
    if vs == [] then 0.0 else f(vs[0]) + SumOver(vs[1..], f)
  }

  /** The contribution `coef(v) * x[v]` of each variable to `Eval(b, x)`. */
  function Contribution(b: Body, x: Point): Var -> real {
    (v: Var) => Times(Coef(b, v), x(v))
  }

  /** One entry with its coefficient multiplied by `s`. */
  function ScaleTerm(t: Term, s: real): Term {
    Term(t.v, t.coef * s)
  }

  /** Every coefficient multiplied by `s`, keys and their order kept. */
  function ScaleBody(b: Body, s: real): Body {
    seq(|b|, i requires 0 <= i < |b| => ScaleTerm(b[i], s))
  }

  /** The entries of `b` whose variable is among `vs`, in order. */
  function Only(b: Body, vs: seq<Var>): Body {
    if b == [] then [] else (if b[0].v in vs then [b[0]] else []) + Only(b[1..], vs)
  }

  /** The entries of `b` whose variable is not among `vs`, in order. */
  function Without(b: Body, vs: seq<Var>): Body {
    if b == [] then [] else (if b[0].v in vs then [] else [b[0]]) + Without(b[1..], vs)
  }

  /** The entries of `a`, each with `b`'s coefficient on the same variable added. */
  function AddEach(a: Body, b: Body): Body {
    seq(|a|, i requires 0 <= i < |a| => Term(a[i].v, a[i].coef + Coef(b, a[i].v)))
  }

  /**
   * The coefficient-wise sum of two bodies: the entries of `a` (with `b`'s
   * coefficients added), then the entries of `b` on variables `a` lacks.
   */
  function SumBody(a: Body, b: Body): Body {
    AddEach(a, b) + Without(b, Vars(a))
  }

  /**
   * `body[v] += c` on an expression being collected into standard form: the
   * entry for `v` is updated in place, or appended when `v` is new.
   */
  function AddTerm(b: Body, v: Var, c: real): Body {
    if b == [] then [Term(v, c)]
    else if b[0].v == v then [Term(v, b[0].coef + c)] + b[1..]
    else [b[0]] + AddTerm(b[1..], v, c)
  }

  // ---------------------------------------------------------------------------
  // Keys

  lemma {:induction false} VarsAppend(a: Body, b: Body)
    ensures Vars(a + b) == Vars(a) + Vars(b)
  {
    if a == [] {
      assert a + b == b;
    } else {
      assert (a + b)[0] == a[0] && (a + b)[1..] == a[1..] + b;
      VarsAppend(a[1..], b);
    }
  }

  lemma {:induction false} VarsLength(b: Body)
    ensures |Vars(b)| == |b|
    ensures forall i :: 0 <= i < |b| ==> Vars(b)[i] == b[i].v
  {
    if b != [] {
      VarsLength(b[1..]);
    }
  }

  lemma {:induction false} DistinctAppend(a: seq<Var>, b: seq<Var>)
    requires Distinct(a) && Distinct(b)
    requires forall v :: v in a ==> v !in b
    ensures Distinct(a + b)
  {
    if a == [] {
      assert a + b == b;
    } else {
      assert (a + b)[0] == a[0] && (a + b)[1..] == a[1..] + b;
      DistinctAppend(a[1..], b);
    }
  }

  lemma {:induction false} CoefAbsent(b: Body, v: Var)
    requires v !in Vars(b)
    ensures Coef(b, v) == 0.0
  {
    if b != [] {
      CoefAbsent(b[1..], v);
    }
  }

  lemma {:induction false} CoefAppend(a: Body, b: Body, v: Var)
    ensures Coef(a + b, v) == if v in Vars(a) then Coef(a, v) else Coef(b, v)
  {
    if a == [] {
      assert a + b == b;
    } else {
      assert (a + b)[0] == a[0] && (a + b)[1..] == a[1..] + b;
      CoefAppend(a[1..], b, v);
    }
  }

  lemma {:induction false} EvalAppend(a: Body, b: Body, x: Point)
    ensures Eval(a + b, x) == Eval(a, x) + Eval(b, x)
  {
    if a == [] {
      assert a + b == b;
    } else {
      assert (a + b)[0] == a[0] && (a + b)[1..] == a[1..] + b;
      EvalAppend(a[1..], b, x);
    }
  }

  // ---------------------------------------------------------------------------
  // Sums over variable lists

  lemma {:induction false} SumOverAdd(vs: seq<Var>, f: Var -> real, g: Var -> real, h: Var -> real)
    requires forall v :: v in vs ==> h(v) == f(v) + g(v)
    ensures SumOver(vs, h) == SumOver(vs, f) + SumOver(vs, g)
  {
    if vs != [] {
      SumOverAdd(vs[1..], f, g, h);
    }
  }

  lemma {:induction false} SumOverScale(vs: seq<Var>, f: Var -> real, g: Var -> real, m: real)
    requires forall v :: v in vs ==> g(v) == m * f(v)
    ensures SumOver(vs, g) == m * SumOver(vs, f)
  {
    if vs != [] {
      SumOverScale(vs[1..], f, g, m);
    }
  }

  lemma {:induction false} SumOverSame(vs: seq<Var>, f: Var -> real, g: Var -> real)
    requires forall v :: v in vs ==> f(v) == g(v)
    ensures SumOver(vs, f) == SumOver(vs, g)
  {
    if vs != [] {
      SumOverSame(vs[1..], f, g);
    }
  }

  lemma {:induction false} SumOverAppend(a: seq<Var>, b: seq<Var>, f: Var -> real)
    ensures SumOver(a + b, f) == SumOver(a, f) + SumOver(b, f)
  {
    if a == [] {
      assert a + b == b;
    } else {
      assert (a + b)[0] == a[0] && (a + b)[1..] == a[1..] + b;
      SumOverAppend(a[1..], b, f);
    }
  }

  // ---------------------------------------------------------------------------
  // Scaling

  lemma ScaleBodyTail(b: Body, s: real)
    requires b != []
    ensures ScaleBody(b, s)[1..] == ScaleBody(b[1..], s)
  {
    forall i | 0 <= i < |b| - 1
      ensures ScaleBody(b, s)[1..][i] == ScaleBody(b[1..], s)[i]
    {
    }
  }

  lemma {:induction false} ScaleBodyVars(b: Body, s: real)
    ensures Vars(ScaleBody(b, s)) == Vars(b)
  {
    if b != [] {
      ScaleBodyTail(b, s);
      ScaleBodyVars(b[1..], s);
    }
  }

  /** Scaling multiplies every coefficient, present or missing, by `s`. */
  lemma {:induction false} ScaleBodyCoef(b: Body, s: real, v: Var)
    ensures Coef(ScaleBody(b, s), v) == s * Coef(b, v)
  {
    if b != [] {
      ScaleBodyTail(b, s);
      ScaleBodyCoef(b[1..], s, v);
    }
  }

  /** Scaling the body scales its value at every point. */
  lemma {:induction false} ScaleBodyEval(b: Body, s: real, x: Point)
    ensures Eval(ScaleBody(b, s), x) == s * Eval(b, x)
  {
    if b != [] {
      ScaleBodyTail(b, s);
      ScaleBodyEval(b[1..], s, x);
      calc {
        Eval(ScaleBody(b, s), x);
        Times(b[0].coef * s, x(b[0].v)) + s * Eval(b[1..], x);
        s * (Times(b[0].coef, x(b[0].v)) + Eval(b[1..], x));
      }
    }
  }

  // ---------------------------------------------------------------------------
  // Filtering by variable

  lemma {:induction false} OnlyVars(b: Body, vs: seq<Var>)
    ensures forall v :: v in Vars(Only(b, vs)) ==> v in Vars(b) && v in vs
  {
    if b != [] {
      OnlyVars(b[1..], vs);
      VarsAppend(if b[0].v in vs then [b[0]] else [], Only(b[1..], vs));
    }
  }

  lemma {:induction false} WithoutVars(b: Body, vs: seq<Var>)
    ensures forall v :: v in Vars(Without(b, vs)) <==> v in Vars(b) && v !in vs
  {
    if b != [] {
      WithoutVars(b[1..], vs);
      VarsAppend(if b[0].v in vs then [] else [b[0]], Without(b[1..], vs));
    }
  }

  lemma {:induction false} WithoutWellFormed(b: Body, vs: seq<Var>)
    requires WellFormed(b)
    ensures WellFormed(Without(b, vs))
  {
    if b != [] {
      WithoutWellFormed(b[1..], vs);
      WithoutVars(b[1..], vs);
      var rest := Without(b[1..], vs);
      assert Vars(b)[1..] == Vars(b[1..]);
      if b[0].v !in vs {
        assert Without(b, vs) == [b[0]] + rest;
        assert Vars([b[0]] + rest) == [b[0].v] + Vars(rest);
        assert ([b[0].v] + Vars(rest))[1..] == Vars(rest);
      } else {
        assert Without(b, vs) == rest;
      }
    }
  }

  lemma {:induction false} CoefWithout(b: Body, vs: seq<Var>, v: Var)
    requires v !in vs
    ensures Coef(Without(b, vs), v) == Coef(b, v)
  {
    if b != [] {
      CoefWithout(b[1..], vs, v);
      CoefAppend(if b[0].v in vs then [] else [b[0]], Without(b[1..], vs), v);
    }
  }

  /** Every entry lands on exactly one side of a split by `vs`. */
  lemma {:induction false} EvalSplit(b: Body, vs: seq<Var>, x: Point)
    ensures Eval(b, x) == Eval(Only(b, vs), x) + Eval(Without(b, vs), x)
  {
    if b != [] {
      EvalSplit(b[1..], vs, x);
      EvalAppend(if b[0].v in vs then [b[0]] else [], Only(b[1..], vs), x);
      EvalAppend(if b[0].v in vs then [] else [b[0]], Without(b[1..], vs), x);
    }
  }

  /** Keeping the entries on `u :: vs` keeps those on `u` and those on `vs`. */
  lemma {:induction false} EvalOnlyCons(b: Body, u: Var, vs: seq<Var>, x: Point)
    requires u !in vs
    ensures Eval(Only(b, [u] + vs), x) == Eval(Only(b, [u]), x) + Eval(Only(b, vs), x)
  {
    if b != [] {
      EvalOnlyCons(b[1..], u, vs, x);
      EvalOnlyHead(b, [u] + vs, x);
      EvalOnlyHead(b, [u], x);
      EvalOnlyHead(b, vs, x);
      assert b[0].v in [u] + vs <==> b[0].v in [u] || b[0].v in vs;
    }
  }

  /** In a dictionary, the entries on `u` contribute `coef(u) * x[u]`. */
  lemma {:induction false} EvalOnlySingle(b: Body, u: Var, x: Point)
    requires WellFormed(b)
    ensures Eval(Only(b, [u]), x) == Times(Coef(b, u), x(u))
  {
    if b != [] {
      var t, rest := b[0], b[1..];
      WellFormedTail(b);
      EvalOnlyHead(b, [u], x);
      if t.v == u {
        OnlyAbsent(rest, u);
      } else {
        EvalOnlySingle(rest, u, x);
      }
    }
  }

  lemma WellFormedTail(b: Body)
    requires b != [] && WellFormed(b)
    ensures WellFormed(b[1..]) && b[0].v !in Vars(b[1..])
  {
    assert Vars(b) == [b[0].v] + Vars(b[1..]);
  }

  lemma {:induction false} OnlyAbsent(b: Body, u: Var)
    requires u !in Vars(b)
    ensures Only(b, [u]) == []
  {
    if b != [] {
      OnlyAbsent(b[1..], u);
    }
  }

  lemma EvalOnlyHead(b: Body, vs: seq<Var>, x: Point)
    requires b != []
    ensures Eval(Only(b, vs), x) == (if b[0].v in vs then Times(b[0].coef, x(b[0].v)) else 0.0) + Eval(Only(b[1..], vs), x)
  {
    EvalAppend(if b[0].v in vs then [b[0]] else [], Only(b[1..], vs), x);
  }

  /**
   * Summing the coefficients of a body over a duplicate-free list of variables
   * evaluates exactly the entries on those variables.
   */
  lemma {:induction false} SumContribution(b: Body, vs: seq<Var>, x: Point)
    requires WellFormed(b) && Distinct(vs)
    ensures SumOver(vs, Contribution(b, x)) == Eval(Only(b, vs), x)
  {
    if vs == [] {
      OnlyNone(b, x);
    } else {
      SumContribution(b, vs[1..], x);
      assert vs == [vs[0]] + vs[1..];
      EvalOnlyCons(b, vs[0], vs[1..], x);
      EvalOnlySingle(b, vs[0], x);
    }
  }

  lemma {:induction false} OnlyNone(b: Body, x: Point)
    ensures Eval(Only(b, []), x) == 0.0
  {
    if b != [] {
      OnlyNone(b[1..], x);
      EvalAppend([], Only(b[1..], []), x);
    }
  }

  lemma {:induction false} OnlyAll(b: Body, vs: seq<Var>)
    requires forall v :: v in Vars(b) ==> v in vs
    ensures Only(b, vs) == b
  {
    if b != [] {
      OnlyAll(b[1..], vs);
    }
  }

  /** A body whose variables all lie in `vs` is the sum of its contributions over `vs`. */
  lemma SumContributionAll(b: Body, vs: seq<Var>, x: Point)
    requires WellFormed(b) && Distinct(vs)
    requires forall v :: v in Vars(b) ==> v in vs
    ensures SumOver(vs, Contribution(b, x)) == Eval(b, x)
  {
    SumContribution(b, vs, x);
    OnlyAll(b, vs);
  }

  // ---------------------------------------------------------------------------
  // Addition of bodies

  lemma AddEachTail(a: Body, b: Body)
    requires a != []
    ensures AddEach(a, b)[1..] == AddEach(a[1..], b)
  {
    forall i | 0 <= i < |a| - 1
      ensures AddEach(a, b)[1..][i] == AddEach(a[1..], b)[i]
    {
    }
  }

  lemma {:induction false} AddEachVars(a: Body, b: Body)
    ensures Vars(AddEach(a, b)) == Vars(a)
  {
    if a != [] {
      AddEachTail(a, b);
      AddEachVars(a[1..], b);
    }
  }

  lemma {:induction false} AddEachCoef(a: Body, b: Body, v: Var)
    requires v in Vars(a)
    ensures Coef(AddEach(a, b), v) == Coef(a, v) + Coef(b, v)
  {
    if a[0].v != v {
      AddEachTail(a, b);
      AddEachCoef(a[1..], b, v);
    }
  }

  lemma {:induction false} AddEachEval(a: Body, b: Body, x: Point)
    ensures Eval(AddEach(a, b), x) == Eval(a, x) + SumOver(Vars(a), Contribution(b, x))
  {
    if a != [] {
      AddEachTail(a, b);
      AddEachEval(a[1..], b, x);
      calc {
        Eval(AddEach(a, b), x);
        Times(a[0].coef + Coef(b, a[0].v), x(a[0].v)) + Eval(AddEach(a[1..], b), x);
        Times(a[0].coef, x(a[0].v)) + Times(Coef(b, a[0].v), x(a[0].v)) + Eval(AddEach(a[1..], b), x);
      }
    }
  }

  /** Each coefficient of the sum is the sum of the coefficients, a missing one read as 0. */
  lemma SumBodyCoef(a: Body, b: Body, v: Var)
    ensures Coef(SumBody(a, b), v) == Coef(a, v) + Coef(b, v)
  {
    CoefAppend(AddEach(a, b), Without(b, Vars(a)), v);
    AddEachVars(a, b);
    if v in Vars(a) {
      AddEachCoef(a, b, v);
    } else {
      CoefAbsent(a, v);
      CoefWithout(b, Vars(a), v);
    }
  }

  /** The sum of two dictionaries is a dictionary on the union of their keys. */
  lemma SumBodyWellFormed(a: Body, b: Body)
    requires WellFormed(a) && WellFormed(b)
    ensures WellFormed(SumBody(a, b))
    ensures forall v :: v in Vars(SumBody(a, b)) <==> v in Vars(a) || v in Vars(b)
  {
    AddEachVars(a, b);
    WithoutWellFormed(b, Vars(a));
    WithoutVars(b, Vars(a));
    DistinctAppend(Vars(a), Vars(Without(b, Vars(a))));
    VarsAppend(AddEach(a, b), Without(b, Vars(a)));
  }

  /** The sum of two bodies evaluates to the sum of their values. */
  lemma SumBodyEval(a: Body, b: Body, x: Point)
    requires WellFormed(a) && WellFormed(b)
    ensures Eval(SumBody(a, b), x) == Eval(a, x) + Eval(b, x)
  {
    EvalAppend(AddEach(a, b), Without(b, Vars(a)), x);
    AddEachEval(a, b, x);
    SumContribution(b, Vars(a), x);
    EvalSplit(b, Vars(a), x);
  }

  // ---------------------------------------------------------------------------
  // Collecting terms

  lemma {:induction false} AddTermEval(b: Body, v: Var, c: real, x: Point)
    ensures Eval(AddTerm(b, v, c), x) == Eval(b, x) + Times(c, x(v))
  {
    if b != [] && b[0].v != v {
      AddTermEval(b[1..], v, c, x);
    }
  }

  lemma {:induction false} AddTermVars(b: Body, v: Var, c: real)
    ensures forall u :: u in Vars(AddTerm(b, v, c)) <==> u == v || u in Vars(b)
    ensures WellFormed(b) ==> WellFormed(AddTerm(b, v, c))
  {
    if b == [] {
    } else if b[0].v == v {
      assert Vars(AddTerm(b, v, c)) == Vars(b);
    } else {
      AddTermVars(b[1..], v, c);
    }
  }
}
