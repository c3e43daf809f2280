/**
 * Fourier–Motzkin elimination over the cutting-plane engine's rows:
 * `fourier_motzkin_elimination` splits every two-sided row into two one-sided
 * rows, and `fm_elimination` then projects out one variable per recursive
 * step, pairing every row that bounds the variable from above with every row
 * that bounds it from below.
 */
module FourierMotzkin {
  import opened Wrappers
  import opened LinearBody
  import opened LinearRows

  /** The row has at least one bound. */
  predicate Bounded(r: Row) {
    r.lower.Some? || r.upper.Some?
  }

  predicate AllBounded(rows: seq<Row>) {
    forall r :: r in rows ==> Bounded(r)
  }

  // ---------------------------------------------------------------------------
  // Splitting two-sided rows

  /** A two-sided row keeps only its lower bound; any other row is kept as is. */
  function LowerPart(r: Row): Row {
    if TwoSided(r) then r.(upper := None) else r
  }

  /** The upper-bounded copy appended for a two-sided row, with the same body. */
  function UpperCopy(r: Row): Row {
    Row(None, r.upper, r.body, r.constant)
  }

  function LowerParts(rows: seq<Row>): seq<Row> {
    seq(|rows|, i requires 0 <= i < |rows| => LowerPart(rows[i]))
  }

  /** One upper-bounded copy per two-sided row, in the order of the rows. */
  function UpperCopies(rows: seq<Row>): seq<Row> {
    if rows == [] then []
    else
      var last := rows[|rows| - 1];
      UpperCopies(rows[..|rows| - 1]) + (if TwoSided(last) then [UpperCopy(last)] else [])
  }

  function CountTwoSided(rows: seq<Row>): nat {
    if rows == [] then 0
    else CountTwoSided(rows[..|rows| - 1]) + (if TwoSided(rows[|rows| - 1]) then 1 else 0)
  }

  /** The system `fourier_motzkin_elimination` hands to `fm_elimination`. */
  function SplitTwoSided(rows: seq<Row>): (split: seq<Row>)
    ensures |split| >= |rows|
    ensures forall i :: 0 <= i < |rows| ==>
      split[i].lower == rows[i].lower && split[i].body == rows[i].body && split[i].constant == rows[i].constant
  {
    LowerParts(rows) + UpperCopies(rows)
  }

  lemma {:induction false} UpperCopiesFacts(rows: seq<Row>)
    ensures |UpperCopies(rows)| == CountTwoSided(rows)
    ensures forall u :: u in UpperCopies(rows) ==> exists r :: r in rows && TwoSided(r) && u == UpperCopy(r)
  {
    if rows != [] {
      var init := rows[..|rows| - 1];
      UpperCopiesFacts(init);
      forall u | u in UpperCopies(rows)
        ensures exists r :: r in rows && TwoSided(r) && u == UpperCopy(r)
      {
        if u in UpperCopies(init) {
          var r :| r in init && TwoSided(r) && u == UpperCopy(r);
          assert r in rows;
        } else {
          assert rows[|rows| - 1] in rows;
        }
      }
    }
  }

  lemma {:induction false} UpperCopiesComplete(rows: seq<Row>)
    ensures forall r :: r in rows && TwoSided(r) ==> UpperCopy(r) in UpperCopies(rows)
  {
    if rows != [] {
      var init := rows[..|rows| - 1];
      UpperCopiesComplete(init);
      assert rows == init + [rows[|rows| - 1]];
    }
  }

  /**
   * After the split no row has both bounds, there is one extra row per
   * two-sided row, and every row of the split is bounded when every input row is.
   */
  lemma SplitShape(rows: seq<Row>)
    ensures forall r :: r in SplitTwoSided(rows) ==> !TwoSided(r)
    ensures |SplitTwoSided(rows)| == |rows| + CountTwoSided(rows)
    ensures AllBounded(rows) ==> AllBounded(SplitTwoSided(rows))
    ensures AllWellFormed(rows) ==> AllWellFormed(SplitTwoSided(rows))
  {
    UpperCopiesFacts(rows);
    forall r | r in LowerParts(rows)
      ensures exists i :: 0 <= i < |rows| && r == LowerPart(rows[i])
    {
      var i :| 0 <= i < |LowerParts(rows)| && LowerParts(rows)[i] == r;
    }
  }

  /** The split system has exactly the solutions of the original one. */
  lemma SplitSolutions(rows: seq<Row>, x: Point)
    ensures SatAll(SplitTwoSided(rows), x) <==> SatAll(rows, x)
  {
    var split := SplitTwoSided(rows);
    UpperCopiesFacts(rows);
    UpperCopiesComplete(rows);
    if SatAll(rows, x) {
      forall r | r in split
        ensures Sat(r, x)
      {
        if r in LowerParts(rows) {
          var i :| 0 <= i < |rows| && LowerParts(rows)[i] == r;
          assert rows[i] in rows;
        } else {
          var o :| o in rows && TwoSided(o) && r == UpperCopy(o);
        }
      }
    }
    if SatAll(split, x) {
      forall r | r in rows
        ensures Sat(r, x)
      {
        var i :| 0 <= i < |rows| && rows[i] == r;
        assert LowerParts(rows)[i] in split;
        if TwoSided(r) {
          assert UpperCopy(r) in split;
        }
      }
    }
  }

  // ---------------------------------------------------------------------------
  // One elimination step

  /** Where one popped row goes when variable `v` is eliminated. */
  datatype Placement = ToLeq(row: Row) | ToGeq(row: Row) | ToWaiting | Dropped

  /**
   * A row whose coefficient `c` on `v` is zero waits; a bounded row is scaled
   * by `-1/c` or `1/c` so that it becomes a lower-bounded row with coefficient
   * -1 (an upper bound on `v`) or +1 (a lower bound on `v`); a row with no
   * bound is dropped.
   */
  function Normalize(r: Row, v: Var): (p: Placement)
    ensures p.ToLeq? ==> p.row.lower.Some? && Coef(p.row.body, v) == -1.0
    ensures p.ToGeq? ==> p.row.lower.Some? && Coef(p.row.body, v) == 1.0
    ensures p.ToWaiting? <==> Coef(r.body, v) == 0.0
    ensures p.Dropped? <==> Coef(r.body, v) != 0.0 && !Bounded(r)
    ensures (p.ToLeq? || p.ToGeq?) ==> exists s :: s != 0.0 && p.row == Scaled(r, s)
  {
    var c := Coef(r.body, v);
    if c == 0.0 then ToWaiting
    else if r.lower.Some? then
      if c < 0.0 then NormalizeBy(r, v, -1.0 / c); ToLeq(Scaled(r, -1.0 / c))
      else NormalizeBy(r, v, 1.0 / c); ToGeq(Scaled(r, 1.0 / c))
    else if r.upper.Some? then
      if c > 0.0 then NormalizeBy(r, v, -1.0 / c); ToLeq(Scaled(r, -1.0 / c))
      else NormalizeBy(r, v, 1.0 / c); ToGeq(Scaled(r, 1.0 / c))
    else Dropped
  }

  lemma NormalizeBy(r: Row, v: Var, s: real)
    requires Coef(r.body, v) != 0.0
    requires s == 1.0 / Coef(r.body, v) || s == -1.0 / Coef(r.body, v)
    ensures s != 0.0
    ensures Coef(Scaled(r, s).body, v) == (if s == 1.0 / Coef(r.body, v) then 1.0 else -1.0)
    ensures s > 0.0 ==> Scaled(r, s).lower == MulBound(r.lower, s)
    ensures s < 0.0 ==> Scaled(r, s).lower == MulBound(r.upper, s)
  {
    ScaledCoefficients(r, s, v);
  }

  /** The leq, geq and waiting lists of `fm_elimination`. */
  datatype Buckets = Buckets(leq: seq<Row>, geq: seq<Row>, waiting: seq<Row>)

  function Place(bk: Buckets, p: Placement, r: Row): Buckets {
    match p
    case ToLeq(s) => bk.(leq := bk.leq + [s])
    case ToGeq(s) => bk.(geq := bk.geq + [s])
    case ToWaiting => bk.(waiting := bk.waiting + [r])
    case Dropped => bk
  }

  /**
   * The buckets after popping every row of `rows`, last row first, and
   * placing it.
   */
  function Classify(rows: seq<Row>, v: Var): (bk: Buckets)
    ensures forall r :: r in bk.leq ==> r.lower.Some? && Coef(r.body, v) == -1.0
    ensures forall r :: r in bk.geq ==> r.lower.Some? && Coef(r.body, v) == 1.0
    ensures forall r :: r in bk.waiting ==> r in rows && Coef(r.body, v) == 0.0
    ensures |bk.leq| + |bk.geq| + |bk.waiting| <= |rows|
  {
    if rows == [] then Buckets([], [], [])
    else Place(Classify(rows[1..], v), Normalize(rows[0], v), rows[0])
  }

  /** `leq + geq` for one leq row and every geq row, in order. */
  function RowSums(a: Row, geq: seq<Row>): (res: seq<Row>)
    requires a.lower.Some? && forall g :: g in geq ==> g.lower.Some?
    ensures |res| == |geq|
  {
    seq(|geq|, j requires 0 <= j < |geq| => Sum(a, geq[j]).value)
  }

  /** Every leq row added to every geq row, leq rows in the outer loop. */
  function PairSums(leq: seq<Row>, geq: seq<Row>): seq<Row>
    requires forall a :: a in leq ==> a.lower.Some?
    requires forall g :: g in geq ==> g.lower.Some?
  {
    if leq == [] then []
    else PairSums(leq[..|leq| - 1], geq) + RowSums(leq[|leq| - 1], geq)
  }

  /** The rows `fm_elimination` passes on after eliminating `v` from `rows`. */
  function EliminateStep(rows: seq<Row>, v: Var): (next: seq<Row>)
    ensures var bk := Classify(rows, v);
      |next| == |bk.leq| * |bk.geq| + |bk.waiting|
    ensures var bk := Classify(rows, v);
      forall a, g :: a in bk.leq && g in bk.geq ==> Sum(a, g).value in next
  {
    var bk := Classify(rows, v);
    PairSumsMembers(bk.leq, bk.geq);
    PairSumsAll(bk.leq, bk.geq);
    PairSums(bk.leq, bk.geq) + bk.waiting
  }

  /** The rows left after eliminating the variables of `vars`, first one first. */
  function Eliminate(rows: seq<Row>, vars: seq<Var>): (left: seq<Row>)
    ensures forall r :: r in rows && (forall v :: v in vars ==> Coef(r.body, v) == 0.0) ==> r in left
    decreases |vars|
  {
    if vars == [] then rows
    else
      StepEliminates(rows, vars[0]);
      assert vars[0] in vars && forall v :: v in vars[1..] ==> v in vars;
      Eliminate(EliminateStep(rows, vars[0]), vars[1..])
  }

  // ---------------------------------------------------------------------------
  // What one step does

  /** There are `|leq|·|geq|` sums, each of one leq row and one geq row. */
  lemma {:induction false} PairSumsMembers(leq: seq<Row>, geq: seq<Row>)
    requires forall a :: a in leq ==> a.lower.Some?
    requires forall g :: g in geq ==> g.lower.Some?
    ensures |PairSums(leq, geq)| == |leq| * |geq|
    ensures forall r :: r in PairSums(leq, geq) ==> exists a, g :: a in leq && g in geq && r == Sum(a, g).value
  {
    if leq != [] {
      var init, a := leq[..|leq| - 1], leq[|leq| - 1];
      assert forall b :: b in init ==> b in leq;
      PairSumsMembers(init, geq);
      RowSumsMembers(a, geq);
      assert |PairSums(leq, geq)| == |init| * |geq| + |geq|;
      forall r | r in PairSums(leq, geq)
        ensures exists a, g :: a in leq && g in geq && r == Sum(a, g).value
      {
        if r in PairSums(init, geq) {
          var b, g :| b in init && g in geq && r == Sum(b, g).value;
          assert b in leq;
        } else {
          assert r in RowSums(a, geq);
          assert a in leq;
        }
      }
    }
  }

  /** Every leq row is summed with every geq row. */
  lemma {:induction false} PairSumsAll(leq: seq<Row>, geq: seq<Row>)
    requires forall a :: a in leq ==> a.lower.Some?
    requires forall g :: g in geq ==> g.lower.Some?
    ensures forall a, g :: a in leq && g in geq ==> Sum(a, g).value in PairSums(leq, geq)
  {
    if leq != [] {
      var init, last := leq[..|leq| - 1], leq[|leq| - 1];
      assert leq == init + [last];
      assert forall b :: b in init ==> b in leq;
      PairSumsAll(init, geq);
      forall a, g | a in leq && g in geq
        ensures Sum(a, g).value in PairSums(leq, geq)
      {
        if a in init {
          assert Sum(a, g).value in PairSums(init, geq);
        } else {
          var j :| 0 <= j < |geq| && geq[j] == g;
          assert RowSums(last, geq)[j] == Sum(a, g).value;
        }
      }
    }
  }

  lemma RowSumsMembers(a: Row, geq: seq<Row>)
    requires a.lower.Some? && forall g :: g in geq ==> g.lower.Some?
    ensures forall r :: r in RowSums(a, geq) ==> exists g :: g in geq && r == Sum(a, g).value
  {
    forall r | r in RowSums(a, geq)
      ensures exists g :: g in geq && r == Sum(a, g).value
    {
      var j :| 0 <= j < |geq| && RowSums(a, geq)[j] == r;
      assert geq[j] in geq;
    }
  }

  /**
   * Every bounded input row with a non-zero coefficient on `v` lands,
   * normalised, in the leq or the geq bucket.
   */
  lemma {:induction false} ClassifyComplete(rows: seq<Row>, v: Var)
    ensures forall r :: r in rows && Coef(r.body, v) != 0.0 && Bounded(r) ==>
      || (Normalize(r, v).ToLeq? && Normalize(r, v).row in Classify(rows, v).leq)
      || (Normalize(r, v).ToGeq? && Normalize(r, v).row in Classify(rows, v).geq)
  {
    if rows != [] {
      ClassifyComplete(rows[1..], v);
      assert forall r :: r in rows <==> r == rows[0] || r in rows[1..];
    }
  }

  /** Each leq or geq row is a row of the input scaled by a non-zero factor. */
  lemma {:induction false} ClassifyOrigins(rows: seq<Row>, v: Var)
    ensures forall r :: r in Classify(rows, v).leq || r in Classify(rows, v).geq ==>
      exists o, s :: o in rows && s != 0.0 && r == Scaled(o, s)
  {
    if rows != [] {
      ClassifyOrigins(rows[1..], v);
      var bk := Classify(rows, v);
      forall r | r in bk.leq || r in bk.geq
        ensures exists o, s :: o in rows && s != 0.0 && r == Scaled(o, s)
      {
        var prev := Classify(rows[1..], v);
        if r in prev.leq || r in prev.geq {
          var o, s :| o in rows[1..] && s != 0.0 && r == Scaled(o, s);
          assert o in rows;
        } else {
          var p := Normalize(rows[0], v);
          assert p.ToLeq? || p.ToGeq?;
          var s :| s != 0.0 && p.row == Scaled(rows[0], s);
          assert rows[0] in rows;
        }
      }
    }
  }

  /** A row waits exactly when it is a row of the input without `v`. */
  lemma {:induction false} ClassifyWaiting(rows: seq<Row>, v: Var)
    ensures forall r :: r in Classify(rows, v).waiting <==> r in rows && Coef(r.body, v) == 0.0
  {
    if rows != [] {
      ClassifyWaiting(rows[1..], v);
      assert forall r :: r in rows <==> r == rows[0] || r in rows[1..];
    }
  }

  /**
   * One step of `fm_elimination`: the variable's coefficient is 0 in every
   * resulting row, there are `|leq|·|geq|` sums followed by the rows without
   * the variable, which are carried over unchanged.
   */
  lemma StepEliminates(rows: seq<Row>, v: Var)
    ensures forall r :: r in EliminateStep(rows, v) ==> Coef(r.body, v) == 0.0
    ensures var bk := Classify(rows, v);
      |EliminateStep(rows, v)| == |bk.leq| * |bk.geq| + |bk.waiting|
    ensures forall r :: r in rows && Coef(r.body, v) == 0.0 ==> r in EliminateStep(rows, v)
  {
    var bk := Classify(rows, v);
    PairSumsMembers(bk.leq, bk.geq);
    ClassifyWaiting(rows, v);
    forall r | r in EliminateStep(rows, v)
      ensures Coef(r.body, v) == 0.0
    {
      if r in PairSums(bk.leq, bk.geq) {
        var a, g :| a in bk.leq && g in bk.geq && r == Sum(a, g).value;
        SumCoefficients(a, g, v);
      }
    }
  }

  /** A variable absent from every row stays absent after a step. */
  lemma StepKeepsZero(rows: seq<Row>, v: Var, w: Var)
    requires forall r :: r in rows ==> Coef(r.body, w) == 0.0
    ensures forall r :: r in EliminateStep(rows, v) ==> Coef(r.body, w) == 0.0
  {
    var bk := Classify(rows, v);
    PairSumsMembers(bk.leq, bk.geq);
    BucketsKeepZero(rows, v, w);
    forall r | r in PairSums(bk.leq, bk.geq)
      ensures Coef(r.body, w) == 0.0
    {
      var a, g :| a in bk.leq && g in bk.geq && r == Sum(a, g).value;
      SumCoefficients(a, g, w);
    }
    assert EliminateStep(rows, v) == PairSums(bk.leq, bk.geq) + bk.waiting;
  }

  lemma BucketsKeepZero(rows: seq<Row>, v: Var, w: Var)
    requires forall r :: r in rows ==> Coef(r.body, w) == 0.0
    ensures var bk := Classify(rows, v);
      forall r :: r in bk.leq || r in bk.geq ==> Coef(r.body, w) == 0.0
  {
    var bk := Classify(rows, v);
    ClassifyOrigins(rows, v);
    forall r | r in bk.leq || r in bk.geq
      ensures Coef(r.body, w) == 0.0
    {
      var o, s :| o in rows && s != 0.0 && r == Scaled(o, s);
      ScaledCoefficients(o, s, w);
    }
  }

  /** The leq and geq rows are scaled input rows: they keep its solutions and its dictionaries. */
  lemma BucketsSound(rows: seq<Row>, v: Var, x: Point)
    requires AllWellFormed(rows)
    ensures var bk := Classify(rows, v);
      forall r :: r in bk.leq || r in bk.geq ==> WellFormed(r.body) && (SatAll(rows, x) ==> Sat(r, x))
  {
    var bk := Classify(rows, v);
    ClassifyOrigins(rows, v);
    forall r | r in bk.leq || r in bk.geq
      ensures WellFormed(r.body) && (SatAll(rows, x) ==> Sat(r, x))
    {
      var o, s :| o in rows && s != 0.0 && r == Scaled(o, s);
      ScaleBodyVars(o.body, s);
      ScaledSolutions(o, s, x);
    }
  }

  /**
   * A step is valid: every point satisfying the rows satisfies every row it
   * produces; dictionaries stay dictionaries and bounded rows stay bounded.
   */
  lemma StepSound(rows: seq<Row>, v: Var, x: Point)
    requires AllWellFormed(rows)
    ensures AllWellFormed(EliminateStep(rows, v))
    ensures AllBounded(rows) ==> AllBounded(EliminateStep(rows, v))
    ensures SatAll(rows, x) ==> SatAll(EliminateStep(rows, v), x)
  {
    var bk := Classify(rows, v);
    PairSumsMembers(bk.leq, bk.geq);
    BucketsSound(rows, v, x);
    forall r | r in PairSums(bk.leq, bk.geq)
      ensures WellFormed(r.body) && Bounded(r) && (SatAll(rows, x) ==> Sat(r, x))
    {
      var a, g :| a in bk.leq && g in bk.geq && r == Sum(a, g).value;
      SumWellFormed(a, g);
      if SatAll(rows, x) {
        SumSatisfied(a, g, x);
      }
    }
    assert EliminateStep(rows, v) == PairSums(bk.leq, bk.geq) + bk.waiting;
  }

  // ---------------------------------------------------------------------------
  // The whole elimination

  lemma {:induction false} EliminateKeepsZero(rows: seq<Row>, vars: seq<Var>, w: Var)
    requires forall r :: r in rows ==> Coef(r.body, w) == 0.0
    ensures forall r :: r in Eliminate(rows, vars) ==> Coef(r.body, w) == 0.0
    decreases |vars|
  {
    if vars != [] {
      StepKeepsZero(rows, vars[0], w);
      EliminateKeepsZero(EliminateStep(rows, vars[0]), vars[1..], w);
    }
  }

  /** Every eliminated variable has coefficient 0 (or no entry) in every resulting row. */
  lemma {:induction false} EliminateRemoves(rows: seq<Row>, vars: seq<Var>)
    ensures forall v, r :: v in vars && r in Eliminate(rows, vars) ==> Coef(r.body, v) == 0.0
    decreases |vars|
  {
    if vars != [] {
      var next := EliminateStep(rows, vars[0]);
      StepEliminates(rows, vars[0]);
      EliminateKeepsZero(next, vars[1..], vars[0]);
      EliminateRemoves(next, vars[1..]);
      assert forall v :: v in vars ==> v == vars[0] || v in vars[1..];
    }
  }

  /**
   * The projection is valid: every point satisfying the input rows satisfies
   * every resulting row.
   */
  lemma {:induction false} EliminateSound(rows: seq<Row>, vars: seq<Var>, x: Point)
    requires AllWellFormed(rows)
    ensures AllWellFormed(Eliminate(rows, vars))
    ensures AllBounded(rows) ==> AllBounded(Eliminate(rows, vars))
    ensures SatAll(rows, x) ==> SatAll(Eliminate(rows, vars), x)
    decreases |vars|
  {
    if vars != [] {
      StepSound(rows, vars[0], x);
      EliminateSound(EliminateStep(rows, vars[0]), vars[1..], x);
    }
  }

  // ---------------------------------------------------------------------------
  // The source's two procedures

  /**
   * `fourier_motzkin_elimination`: every two-sided row loses its upper bound
   * and an upper-bounded copy of it is appended to the list; the result is
   * then handed to `fm_elimination`.
   */
  method FourierMotzkinElimination(constraints: seq<Row>, varsToEliminate: seq<Var>) returns (res: seq<Row>)
    ensures res == Eliminate(SplitTwoSided(constraints), varsToEliminate)
  {
    var rows := SplitRows(constraints);
    res := FmElimination(rows, varsToEliminate);
  }

  /** The splitting loop of `fourier_motzkin_elimination`. */
  method SplitRows(constraints: seq<Row>) returns (rows: seq<Row>)
    ensures rows == SplitTwoSided(constraints)
  {
    rows := constraints;
    var n := |constraints|;
    for i := 0 to n
      invariant rows == LowerParts(constraints[..i]) + constraints[i..] + UpperCopies(constraints[..i])
    {
      SplitLoopStep(constraints, i, rows);
      var cons := constraints[i];
      if cons.lower.Some? && cons.upper.Some? {
        var geq := Row(None, cons.upper, cons.body, cons.constant);
        rows := rows[i := cons.(upper := None)] + [geq];
      }
    }
    assert constraints[..n] == constraints && constraints[n..] == [];
    assert rows == LowerParts(constraints) + UpperCopies(constraints);
  }

  /** One pass of the splitting loop: row `i` is split, or left alone. */
  lemma SplitLoopStep(c: seq<Row>, i: int, rows: seq<Row>)
    requires 0 <= i < |c|
    requires rows == LowerParts(c[..i]) + c[i..] + UpperCopies(c[..i])
    ensures i < |rows| && rows[i] == c[i]
    ensures TwoSided(c[i]) ==>
      rows[i := c[i].(upper := None)] + [UpperCopy(c[i])] == LowerParts(c[..i + 1]) + c[i + 1..] + UpperCopies(c[..i + 1])
    ensures !TwoSided(c[i]) ==> rows == LowerParts(c[..i + 1]) + c[i + 1..] + UpperCopies(c[..i + 1])
  {
    assert c[..i + 1][..i] == c[..i];
    var lp, up := LowerParts(c[..i]), UpperCopies(c[..i]);
    assert LowerParts(c[..i + 1]) == lp + [LowerPart(c[i])];
    assert c[i..][0] == c[i] && c[i..][1..] == c[i + 1..];
    assert c[i..] == [c[i]] + c[i + 1..];
    assert rows == lp + [c[i]] + c[i + 1..] + up;
    if TwoSided(c[i]) {
      assert rows[i := c[i].(upper := None)] == lp + [LowerPart(c[i])] + c[i + 1..] + up;
    }
  }

  /**
   * `fm_elimination`: pops the first variable and then every row, last row
   * first, into the leq, geq and waiting lists; appends every leq row added to
   * every geq row, then the waiting rows; and recurses on the other variables.
   */
  method FmElimination(constraints: seq<Row>, varsToEliminate: seq<Var>) returns (res: seq<Row>)
    ensures res == Eliminate(constraints, varsToEliminate)
    decreases |varsToEliminate|
  {
    if varsToEliminate == [] {
      return constraints;
    }
    var theVar := varsToEliminate[0];
    var remaining := varsToEliminate[1..];
    var leqList, geqList, waitingList := SortRows(constraints, theVar);
    var rows := [];
    rows := AddPairs(leqList, geqList);
    for i := 0 to |waitingList|
      invariant rows == PairSums(leqList, geqList) + waitingList[..i]
    {
      assert waitingList[..i + 1] == waitingList[..i] + [waitingList[i]];
      rows := rows + [waitingList[i]];
    }
    assert waitingList[..|waitingList|] == waitingList;
    res := FmElimination(rows, remaining);
  }

  /**
   * The sorting loop of `fm_elimination`: rows are popped from the end of the
   * list and placed in the leq, geq or waiting list.
   */
  method SortRows(constraints: seq<Row>, theVar: Var) returns (leqList: seq<Row>, geqList: seq<Row>, waitingList: seq<Row>)
    ensures Classify(constraints, theVar) == Buckets(leqList, geqList, waitingList)
  {
    var rows := constraints;
    leqList, geqList, waitingList := [], [], [];
    while rows != []
      invariant rows == constraints[..|rows|]
      invariant Classify(constraints[|rows|..], theVar) == Buckets(leqList, geqList, waitingList)
      decreases |rows|
    {
      var k := |rows| - 1;
      var cons := rows[k];
      rows := rows[..k];
      ClassifyPop(constraints, k, theVar);
      var leavingVarCoef := Coef(cons.body, theVar);
      if leavingVarCoef == 0.0 {
        waitingList := waitingList + [cons];
        continue;
      }
      if cons.lower.Some? {
        if leavingVarCoef < 0.0 {
          var scaled := ScalarMultiply(cons, -1.0 / leavingVarCoef);
          leqList := leqList + [scaled];
        } else {
          var scaled := ScalarMultiply(cons, 1.0 / leavingVarCoef);
          geqList := geqList + [scaled];
        }
      } else if cons.upper.Some? {
        if leavingVarCoef > 0.0 {
          var scaled := ScalarMultiply(cons, -1.0 / leavingVarCoef);
          leqList := leqList + [scaled];
        } else {
          var scaled := ScalarMultiply(cons, 1.0 / leavingVarCoef);
          geqList := geqList + [scaled];
        }
      }
    }
    assert constraints[0..] == constraints;
  }

  /**
   * The nested loop of `fm_elimination` that appends every leq row added to
   * every geq row.
   */
  method AddPairs(leqList: seq<Row>, geqList: seq<Row>) returns (rows: seq<Row>)
    requires forall a :: a in leqList ==> a.lower.Some?
    requires forall g :: g in geqList ==> g.lower.Some?
    ensures rows == PairSums(leqList, geqList)
  {
    rows := [];
    for i := 0 to |leqList|
      invariant rows == PairSums(leqList[..i], geqList)
    {
      PairSumsSnoc(leqList, i, geqList);
      for j := 0 to |geqList|
        invariant rows == PairSums(leqList[..i], geqList) + RowSums(leqList[i], geqList)[..j]
      {
        var sum := AddLinearConstraints(leqList[i], geqList[j]);
        assert RowSums(leqList[i], geqList)[..j + 1] == RowSums(leqList[i], geqList)[..j] + [sum.value];
        rows := rows + [sum.value];
      }
      assert RowSums(leqList[i], geqList)[..|geqList|] == RowSums(leqList[i], geqList);
    }
    assert leqList[..|leqList|] == leqList;
  }

  lemma ClassifyPop(c: seq<Row>, k: int, v: Var)
    requires 0 <= k < |c|
    ensures c[..k + 1][..k] == c[..k]
    ensures Classify(c[k..], v) == Place(Classify(c[k + 1..], v), Normalize(c[k], v), c[k])
  {
    assert c[k..][1..] == c[k + 1..];
  }

  lemma PairSumsSnoc(leq: seq<Row>, i: int, geq: seq<Row>)
    requires 0 <= i < |leq|
    requires forall a :: a in leq ==> a.lower.Some?
    requires forall g :: g in geq ==> g.lower.Some?
    ensures PairSums(leq[..i + 1], geq) == PairSums(leq[..i], geq) + RowSums(leq[i], geq)
  {
    assert leq[..i + 1][..i] == leq[..i];
    assert leq[..i + 1][i] == leq[i];
  }
}
