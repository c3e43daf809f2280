/**
 * The policy loop of `_generate_cuttingplanes`: solve the relaxed BigM model,
 * decide whether its objective is still improving, solve the separation
 * problem over the hull relaxation, build cuts, always add them to the relaxed
 * BigM model and add them to the BigM model only while improving; stop on a
 * failed solve, a negligible separation, no cut, or the first pass that does
 * not improve.
 */
module CuttingPlaneLoop {
  import opened Wrappers
  import opened LinearBody
  import opened LinearRows
  import opened CutGeneration

  function Abs(r: real): real {
    if r < 0.0 then -r else r
  }

  // ---------------------------------------------------------------------------
  // The improvement test

  /**
   * The improvement test as the source writes it, with `None` for the initial
   * `float("inf")`: the absolute change when the new objective is below 1 in
   * magnitude, and otherwise the change relative to the previous objective,
   * which raises `ZeroDivisionError` when that objective is 0. The first pass
   * improves and a repeated objective does not.
   */
  function ImprovingAsWritten(prev: Option<real>, val: real, eps: real): (r: Result<bool>)
    ensures r.Err? <==> prev == Some(0.0) && Abs(val) >= 1.0
    ensures r.Err? ==> r.error == ZeroDivisionError
    ensures prev.None? ==> r == Ok(true)
    ensures eps >= 0.0 && prev == Some(val) ==> r == Ok(false)
  {
    if prev.None? then Ok(true)
    else if Abs(val) < 1.0 then Ok(Abs(prev.value - val) > eps)
    else if prev.value == 0.0 then Err(ZeroDivisionError)
    else Ok(Abs((prev.value - val) / prev.value) > eps)
  }

  /** A relaxed objective of 0 followed by one of 2 makes the test raise. */
  lemma ZeroThenTwoRaises(eps: real)
    ensures ImprovingAsWritten(Some(0.0), 2.0, eps) == Err(ZeroDivisionError)
  {
  }

  /**
   * The improvement test with its guard on the divisor: the absolute change
   * when the previous objective is below 1 in magnitude, and otherwise the
   * change relative to the previous objective, which the guard keeps away
   * from 0. The first pass improves, a repeated objective does not, and the
   * test never raises.
   */
  function Improving(prev: Option<real>, val: real, eps: real): (r: bool)
    ensures prev.None? ==> r
    ensures eps >= 0.0 && prev == Some(val) ==> !r
    ensures prev.Some? && Abs(prev.value) < 1.0 ==> (r <==> Abs(prev.value - val) > eps)
    ensures prev.Some? && Abs(prev.value) >= 1.0 ==> (r <==> Abs(prev.value - val) > eps * Abs(prev.value))
  {
    if prev.None? then true
    else if Abs(prev.value) < 1.0 then Abs(prev.value - val) > eps
    else
      RelativeChange(prev.value - val, prev.value, eps);
      Abs((prev.value - val) / prev.value) > eps
  }

  lemma RelativeChange(d: real, p: real, eps: real)
    requires Abs(p) >= 1.0
    ensures Abs(d / p) > eps <==> Abs(d) > eps * Abs(p)
  {
    var q := d / p;
    assert d == q * p;
    assert Abs(d) == Abs(q) * Abs(p);
    if Abs(q) > eps {
      assert Abs(q) * Abs(p) > eps * Abs(p);
    } else {
      assert Abs(q) * Abs(p) <= eps * Abs(p);
    }
  }

  /**
   * Wherever both guards pick the same branch, the test as written does not
   * raise and agrees with the guarded one.
   */
  lemma ImprovingAgrees(prev: Option<real>, val: real, eps: real)
    requires prev.Some? ==> (Abs(val) < 1.0 <==> Abs(prev.value) < 1.0)
    ensures ImprovingAsWritten(prev, val, eps) == Ok(Improving(prev, val, eps))
  {
  }

  // ---------------------------------------------------------------------------
  // The cut containers

  /**
   * A `Constraint(Any)` block holding cuts, keyed by the number of cuts it
   * held when each was added.
   */
  class CutBlock {
    var cuts: map<nat, Cut>

    /** The keys are exactly 0, 1, …, |cuts| - 1. */
    ghost predicate Valid()
      reads this
    {
      forall i: nat :: i in cuts <==> i < |cuts|
    }

    constructor ()
      ensures cuts == map[] && Valid()
    {
      cuts := map[];
    }

    /** `cuts.add(index, cut)`. */
    method Add(index: nat, cut: Cut)
      requires index !in cuts
      modifies this
      ensures cuts == old(cuts)[index := cut]
    {
      cuts := cuts[index := cut];
    }

    /** The cuts in the order of their keys. */
    function Listed(): (s: seq<Cut>)
      reads this
      requires Valid()
      ensures |s| == |cuts|
    {
      InOrder(cuts, |cuts|)
    }
  }

  /** The values under the keys 0, …, n - 1, in order. */
  function InOrder(m: map<nat, Cut>, n: nat): (s: seq<Cut>)
    requires forall i: nat :: i < n ==> i in m
    ensures |s| == n
  {
    if n == 0 then [] else InOrder(m, n - 1) + [m[n - 1]]
  }

  /** The value under key `i` sits at position `i`. */
  lemma {:induction false} InOrderAt(m: map<nat, Cut>, n: nat)
    requires forall i: nat :: i < n ==> i in m
    ensures forall i :: 0 <= i < n ==> InOrder(m, n)[i] == m[i]
  {
    if n > 0 {
      InOrderAt(m, n - 1);
    }
  }

  /**
   * Adding a cut under the next key keeps the keys consecutive and appends
   * the cut to the listed cuts.
   */
  lemma AddNext(m: map<nat, Cut>, cut: Cut)
    requires forall i: nat :: i in m <==> i < |m|
    ensures |m| !in m
    ensures var m' := m[|m| := cut];
      && (forall i: nat :: i in m' <==> i < |m'|)
      && |m'| == |m| + 1
      && InOrder(m', |m'|) == InOrder(m, |m|) + [cut]
  {
    assert |m| !in m;
    var m' := m[|m| := cut];
    assert |m'| == |m| + 1;
    var s, t := InOrder(m', |m'|), InOrder(m, |m|) + [cut];
    InOrderAt(m', |m'|);
    InOrderAt(m, |m|);
    assert forall i :: 0 <= i < |s| ==> s[i] == t[i];
  }

  // ---------------------------------------------------------------------------
  // The loop as a function of the solver answers

  /**
   * What the transformation fixes before the loop: the number of variables of
   * the hull model, the hull counterparts of the original variables
   * (`var_info`), the disaggregated variables (`disaggregated_var_info`), and
   * their BigM and relaxed BigM counterparts (`var_map`).
   */
  datatype Setup = Setup(nv: nat, tracked: seq<Var>, disaggregated: seq<Var>, varMap: VarMap)

  /**
   * What one pass learns from the solvers: whether the relaxed BigM solve
   * ended normally, its objective value, the separation objective, the hull
   * constraints evaluated at the separation point x̂, and x̂ itself.
   */
  datatype Answer = Answer(normal: bool, objective: real, separationObjective: real,
                           active: seq<HullConstraint>, xhat: Point)

  /** Every variable of the setup is a hull variable and every gradient spans them all. */
  predicate Consistent(s: Setup, answers: seq<Answer>) {
    && Indexes(s.tracked + s.disaggregated, s.nv)
    && forall i, c :: 0 <= i < |answers| && c in answers[i].active ==> |c.gradient| == s.nv
  }

  datatype Stop =
    | SolveFailed        // the relaxed BigM solve did not end normally
    | SeparationSmall    // the separation objective fell below EPS
    | NoCuts             // `_create_cuts` returned None
    | NotImproving       // the loop condition: a pass that did not improve
    | AnswersExhausted   // the finite list of solver answers ran out

  /** The cuts on the BigM and relaxed BigM models when the loop stops, and why it stopped. */
  datatype Outcome = Outcome(bigM: seq<Cut>, rBigM: seq<Cut>, stop: Result<Stop>)

  /**
   * What one pass does: either it adds cuts to both models and the loop goes
   * on, or it adds cuts (if any) to the relaxed BigM model only and the loop
   * stops.
   */
  datatype Pass =
    | Continue(bigM: seq<Cut>, rBigM: seq<Cut>)
    | Halt(rBigM: seq<Cut>, stop: Result<Stop>)

  /** Every constraint of the answer has a gradient over all hull variables. */
  predicate Fits(s: Setup, a: Answer) {
    Indexes(s.tracked + s.disaggregated, s.nv) && forall c :: c in a.active ==> |c.gradient| == s.nv
  }

  /**
   * One pass of the loop, given the previous relaxed objective: a failed
   * solve, a raising improvement test, a negligible separation, an error or
   * no cut stop it with nothing added; otherwise the cuts go to the relaxed BigM model, and to the BigM
   * model as well exactly when the objective improved, which is also when the
   * loop continues.
   */
  function Step(s: Setup, eps: real, prev: Option<real>, a: Answer): (p: Pass)
    requires Fits(s, a)
    ensures p.Continue? ==> |p.bigM| == |p.rBigM|
    ensures p.Continue? ==> a.normal && ImprovingAsWritten(prev, a.objective, eps) == Ok(true)
    ensures p.Halt? && p.rBigM != [] ==> p.stop == Ok(NotImproving)
    ensures p.Halt? && p.stop == Ok(NotImproving) ==> ImprovingAsWritten(prev, a.objective, eps) == Ok(false)
    ensures p.Halt? && p.stop.Err? ==> p.stop.error.KeyError? || p.stop.error == ZeroDivisionError
  {
    if !a.normal then Halt([], Ok(SolveFailed))
    else
      var improving := ImprovingAsWritten(prev, a.objective, eps);
      if improving.Err? then Halt([], Err(improving.error))
      else if Abs(a.separationObjective) < eps then Halt([], Ok(SeparationSmall))
      else
        var created := CreatedCuts(a.active, s.nv, s.tracked, s.disaggregated, s.varMap, a.xhat);
        if created.Err? then Halt([], Err(created.error))
        else if created.value.None? then Halt([], Ok(NoCuts))
        else
          var cuts := created.value.value;
          ExprsShape(Projected(a.active, s.nv, s.tracked, s.disaggregated, a.xhat), s.varMap);
          if improving.value then Continue(cuts.bigM, cuts.rBigM)
          else Halt(cuts.rBigM, Ok(NotImproving))
  }

  /**
   * The loop from a state with previous objective `prev` and cuts `bigM` and
   * `rBigM`, one answer per pass.
   */
  function Run(s: Setup, eps: real, prev: Option<real>, answers: seq<Answer>, bigM: seq<Cut>, rBigM: seq<Cut>): (o: Outcome)
    requires Consistent(s, answers)
    ensures o.stop.Err? ==> o.stop.error.KeyError? || o.stop.error == ZeroDivisionError
    decreases |answers|
  {
    if answers == [] then Outcome(bigM, rBigM, Ok(AnswersExhausted))
    else
      ConsistentTail(s, answers);
      match Step(s, eps, prev, answers[0])
      case Continue(b, r) => Run(s, eps, Some(answers[0].objective), answers[1..], bigM + b, rBigM + r)
      case Halt(r, stop) => Outcome(bigM, rBigM + r, stop)
  }

  /** `_generate_cuttingplanes` from its start: no active objective raises `GDP_Error`. */
  function Generate(s: Setup, eps: real, hasObjective: bool, answers: seq<Answer>, bigM: seq<Cut>, rBigM: seq<Cut>): (o: Outcome)
    requires Consistent(s, answers)
    ensures o.stop == Err(GdpError) <==> !hasObjective
    ensures !hasObjective ==> o.bigM == bigM && o.rBigM == rBigM
  {
    if !hasObjective then Outcome(bigM, rBigM, Err(GdpError))
    else Run(s, eps, None, answers, bigM, rBigM)
  }

  lemma ConsistentTail(s: Setup, answers: seq<Answer>)
    requires answers != [] && Consistent(s, answers)
    ensures Fits(s, answers[0]) && Consistent(s, answers[1..])
  {
    assert forall i :: 0 <= i < |answers| - 1 ==> answers[1..][i] == answers[i + 1];
  }

  // ---------------------------------------------------------------------------
  // What the loop guarantees

  /**
   * The policy of one pass, case by case: a failed solve, a raising
   * improvement test, a separation objective below EPS, an error of
   * `_create_cuts` and a `None` from it each stop the loop with nothing
   * added; otherwise the created relaxed BigM cuts are always added, and the
   * BigM cuts are added, and the loop goes on, exactly when the test is true.
   */
  lemma StepPolicy(s: Setup, eps: real, prev: Option<real>, a: Answer)
    requires Fits(s, a)
    ensures !a.normal ==> Step(s, eps, prev, a) == Halt([], Ok(SolveFailed))
    ensures a.normal && prev == Some(0.0) && Abs(a.objective) >= 1.0 ==>
      Step(s, eps, prev, a) == Halt([], Err(ZeroDivisionError))
    ensures a.normal && ImprovingAsWritten(prev, a.objective, eps).Ok? && Abs(a.separationObjective) < eps ==>
      Step(s, eps, prev, a) == Halt([], Ok(SeparationSmall))
    ensures var created := CreatedCuts(a.active, s.nv, s.tracked, s.disaggregated, s.varMap, a.xhat);
      a.normal && ImprovingAsWritten(prev, a.objective, eps).Ok? && Abs(a.separationObjective) >= eps ==>
        && (created.Err? ==> Step(s, eps, prev, a) == Halt([], Err(created.error)))
        && (created == Ok(None) ==> Step(s, eps, prev, a) == Halt([], Ok(NoCuts)))
    ensures forall b: bool, c: Cuts ::
      a.normal && ImprovingAsWritten(prev, a.objective, eps) == Ok(b) && Abs(a.separationObjective) >= eps &&
      CreatedCuts(a.active, s.nv, s.tracked, s.disaggregated, s.varMap, a.xhat) == Ok(Some(c)) ==>
        && (b ==> Step(s, eps, prev, a) == Continue(c.bigM, c.rBigM))
        && (!b ==> Step(s, eps, prev, a) == Halt(c.rBigM, Ok(NotImproving)))
  {
  }

  /**
   * A pass that creates cuts `c`: the relaxed BigM cuts `c.rBigM` follow the
   * earlier ones in the final relaxed BigM model, and when the test is true
   * the BigM cuts `c.bigM` follow the earlier ones in the final BigM model and
   * the loop goes on from the new objective; otherwise the loop stops there.
   */
  lemma RunOnePass(s: Setup, eps: real, prev: Option<real>, answers: seq<Answer>, bigM: seq<Cut>, rBigM: seq<Cut>, b: bool, c: Cuts)
    requires Consistent(s, answers) && answers != []
    requires answers[0].normal && ImprovingAsWritten(prev, answers[0].objective, eps) == Ok(b)
    requires Abs(answers[0].separationObjective) >= eps
    requires CreatedCuts(answers[0].active, s.nv, s.tracked, s.disaggregated, s.varMap, answers[0].xhat) == Ok(Some(c))
    ensures var o := Run(s, eps, prev, answers, bigM, rBigM);
      && rBigM + c.rBigM <= o.rBigM
      && (b ==> bigM + c.bigM <= o.bigM)
      && (!b ==> o == Outcome(bigM, rBigM + c.rBigM, Ok(NotImproving)))
  {
    ConsistentTail(s, answers);
    StepPolicy(s, eps, prev, answers[0]);
    if b {
      RunAppends(s, eps, Some(answers[0].objective), answers[1..], bigM + c.bigM, rBigM + c.rBigM);
    }
  }

  /**
   * Cuts are only ever appended, and the loop adds as many relaxed BigM cuts
   * as BigM cuts, or more.
   */
  lemma {:induction false} RunAppends(s: Setup, eps: real, prev: Option<real>, answers: seq<Answer>, bigM: seq<Cut>, rBigM: seq<Cut>)
    requires Consistent(s, answers)
    ensures var o := Run(s, eps, prev, answers, bigM, rBigM);
      && bigM <= o.bigM && rBigM <= o.rBigM
      && |o.bigM| - |bigM| <= |o.rBigM| - |rBigM|
    decreases |answers|
  {
    if answers != [] {
      ConsistentTail(s, answers);
      var p := Step(s, eps, prev, answers[0]);
      if p.Continue? {
        RunAppends(s, eps, Some(answers[0].objective), answers[1..], bigM + p.bigM, rBigM + p.rBigM);
      }
    }
  }

  /**
   * A pass whose objective repeats the previous one adds no BigM cut and
   * ends the loop: later answers are never consulted.
   */
  lemma RepeatedObjectiveStops(s: Setup, eps: real, v: real, answers: seq<Answer>, bigM: seq<Cut>, rBigM: seq<Cut>)
    requires eps >= 0.0
    requires Consistent(s, answers) && answers != [] && answers[0].objective == v
    ensures Run(s, eps, Some(v), answers, bigM, rBigM).bigM == bigM
    ensures Run(s, eps, Some(v), answers, bigM, rBigM) == Run(s, eps, Some(v), answers[..1], bigM, rBigM)
  {
    ConsistentTail(s, answers);
    assert answers[..1] != [] && answers[..1][0] == answers[0];
    ConsistentTail(s, answers[..1]);
  }

  /**
   * No cut the loop adds removes a point of the hull relaxation: if `x`
   * satisfies every tight (linear) hull constraint of every pass and `y`, `z`
   * carry its values on the BigM and relaxed BigM models, then every cut,
   * old and new, holds at `y` and at `z` respectively.
   */
  lemma {:induction false} RunValid(s: Setup, eps: real, prev: Option<real>, answers: seq<Answer>, bigM: seq<Cut>, rBigM: seq<Cut>,
                                   x: Point, y: Point, z: Point)
    requires Consistent(s, answers)
    requires Distinct(s.tracked + s.disaggregated)
    requires forall i, c :: 0 <= i < |answers| && c in answers[i].active && Multiplier(c) != 0 ==>
      LinearAt(c, s.tracked + s.disaggregated, answers[i].xhat) && Sat(c.row, x)
    requires Agrees(s.varMap, x, y, z)
    requires forall k :: k in bigM ==> CutSat(k, y)
    requires forall k :: k in rBigM ==> CutSat(k, z)
    ensures forall k :: k in Run(s, eps, prev, answers, bigM, rBigM).bigM ==> CutSat(k, y)
    ensures forall k :: k in Run(s, eps, prev, answers, bigM, rBigM).rBigM ==> CutSat(k, z)
    decreases |answers|
  {
    if answers != [] {
      var a := answers[0];
      LinearTail(s, answers, x);
      StepValid(s, eps, prev, a, x, y, z);
      RunFirst(s, eps, prev, answers, bigM, rBigM);
      var p := Step(s, eps, prev, a);
      AppendSat(rBigM, p.rBigM, z);
      if p.Continue? {
        AppendSat(bigM, p.bigM, y);
        RunValid(s, eps, Some(a.objective), answers[1..], bigM + p.bigM, rBigM + p.rBigM, x, y, z);
      }
    }
  }

  /** The assumption of RunValid about the answers, for the first answer and for the rest. */
  lemma LinearTail(s: Setup, answers: seq<Answer>, x: Point)
    requires Consistent(s, answers) && answers != []
    requires forall i, c :: 0 <= i < |answers| && c in answers[i].active && Multiplier(c) != 0 ==>
      LinearAt(c, s.tracked + s.disaggregated, answers[i].xhat) && Sat(c.row, x)
    ensures Fits(s, answers[0]) && Consistent(s, answers[1..])
    ensures forall c :: c in answers[0].active && Multiplier(c) != 0 ==>
      LinearAt(c, s.tracked + s.disaggregated, answers[0].xhat) && Sat(c.row, x)
    ensures forall i, c :: 0 <= i < |answers[1..]| && c in answers[1..][i].active && Multiplier(c) != 0 ==>
      LinearAt(c, s.tracked + s.disaggregated, answers[1..][i].xhat) && Sat(c.row, x)
  {
    ConsistentTail(s, answers);
    assert forall i :: 0 <= i < |answers| - 1 ==> answers[1..][i] == answers[i + 1];
  }

  lemma AppendSat(earlier: seq<Cut>, added: seq<Cut>, y: Point)
    requires forall k :: k in earlier ==> CutSat(k, y)
    requires forall k :: k in added ==> CutSat(k, y)
    ensures forall k :: k in earlier + added ==> CutSat(k, y)
  {
    assert forall k :: k in earlier + added ==> k in earlier || k in added;
  }

  /** The loop's first pass, taken apart. */
  lemma RunFirst(s: Setup, eps: real, prev: Option<real>, answers: seq<Answer>, bigM: seq<Cut>, rBigM: seq<Cut>)
    requires Consistent(s, answers) && answers != []
    ensures Fits(s, answers[0]) && Consistent(s, answers[1..])
    ensures var p := Step(s, eps, prev, answers[0]);
      && (p.Continue? ==> Run(s, eps, prev, answers, bigM, rBigM)
                          == Run(s, eps, Some(answers[0].objective), answers[1..], bigM + p.bigM, rBigM + p.rBigM))
      && (p.Halt? ==> Run(s, eps, prev, answers, bigM, rBigM) == Outcome(bigM, rBigM + p.rBigM, p.stop))
  {
    ConsistentTail(s, answers);
  }

  /** Whatever cuts a pass adds are the ones `_create_cuts` returned for its answer. */
  lemma StepCuts(s: Setup, eps: real, prev: Option<real>, a: Answer)
    requires Fits(s, a)
    ensures var p, created := Step(s, eps, prev, a), CreatedCuts(a.active, s.nv, s.tracked, s.disaggregated, s.varMap, a.xhat);
      p.rBigM != [] || p.Continue? ==>
        && created.Ok? && created.value.Some?
        && p.rBigM == created.value.value.rBigM
        && (p.Continue? ==> p.bigM == created.value.value.bigM)
  {
  }

  /** The cuts one pass adds hold at `y` and `z`. */
  lemma StepValid(s: Setup, eps: real, prev: Option<real>, a: Answer, x: Point, y: Point, z: Point)
    requires Fits(s, a)
    requires Distinct(s.tracked + s.disaggregated)
    requires forall c :: c in a.active && Multiplier(c) != 0 ==>
      LinearAt(c, s.tracked + s.disaggregated, a.xhat) && Sat(c.row, x)
    requires Agrees(s.varMap, x, y, z)
    ensures Step(s, eps, prev, a).Continue? ==> forall k :: k in Step(s, eps, prev, a).bigM ==> CutSat(k, y)
    ensures forall k :: k in Step(s, eps, prev, a).rBigM ==> CutSat(k, z)
  {
    StepCuts(s, eps, prev, a);
    var p := Step(s, eps, prev, a);
    if p.rBigM != [] || p.Continue? {
      CreatedCutsValid(a.active, s.nv, s.tracked, s.disaggregated, s.varMap, a.xhat, x, y, z);
    }
  }

  // ---------------------------------------------------------------------------
  // The loop itself

  /**
   * `_generate_cuttingplanes` over a finite list of solver answers: the cuts it
   * adds to the two blocks, and why it stops, are those of `Generate`.
   */
  method GenerateCuttingPlanes(s: Setup, eps: real, hasObjective: bool, answers: seq<Answer>,
                               bigMCuts: CutBlock, rBigMCuts: CutBlock) returns (stop: Result<Stop>)
    requires Consistent(s, answers)
    requires bigMCuts != rBigMCuts && bigMCuts.Valid() && rBigMCuts.Valid()
    modifies bigMCuts, rBigMCuts
    ensures bigMCuts.Valid() && rBigMCuts.Valid()
    ensures var o := Generate(s, eps, hasObjective, answers, old(bigMCuts.Listed()), old(rBigMCuts.Listed()));
      bigMCuts.Listed() == o.bigM && rBigMCuts.Listed() == o.rBigM && stop == o.stop
  {
    if !hasObjective {
      return Err(GdpError);
    }
    var improving := true;
    var prevObj: Option<real> := None;
    var i := 0;
    ghost var goal := Run(s, eps, None, answers, bigMCuts.Listed(), rBigMCuts.Listed());
    while improving
      invariant 0 <= i <= |answers|
      invariant bigMCuts.Valid() && rBigMCuts.Valid()
      invariant Consistent(s, answers[i..])
      invariant improving ==> goal == Run(s, eps, prevObj, answers[i..], bigMCuts.Listed(), rBigMCuts.Listed())
      invariant !improving ==> goal == Outcome(bigMCuts.Listed(), rBigMCuts.Listed(), Ok(NotImproving))
      decreases |answers| - i
    {
      if i == |answers| {
        return Ok(AnswersExhausted);
      }
      var answer := answers[i];
      ConsistentTail(s, answers[i..]);
      assert answers[i..][1..] == answers[i + 1..];
      i := i + 1;
      if !answer.normal {
        return Ok(SolveFailed);
      }
      var rBigMObjVal := answer.objective;
      var improvingTest := ImprovingAsWritten(prevObj, rBigMObjVal, eps);
      if improvingTest.Err? {
        return Err(improvingTest.error);
      }
      improving := improvingTest.value;
      if Abs(answer.separationObjective) < eps {
        return Ok(SeparationSmall);
      }
      var cuts := CreateCuts(answer.active, s.nv, s.tracked, s.disaggregated, s.varMap, answer.xhat);
      if cuts.Err? {
        return Err(cuts.error);
      }
      if cuts.value.None? {
        return Ok(NoCuts);
      }
      var c := cuts.value.value;
      AddCuts(rBigMCuts, c.rBigM);
      if improving {
        AddCuts(bigMCuts, c.bigM);
      }
      prevObj := Some(rBigMObjVal);
    }
    return Ok(NotImproving);
  }

  /** `for cut in cuts: block.cuts.add(len(block.cuts), cut)`. */
  method AddCuts(block: CutBlock, cuts: seq<Cut>)
    requires block.Valid()
    modifies block
    ensures block.Valid() && block.Listed() == old(block.Listed()) + cuts
  {
    ghost var before := block.Listed();
    for k := 0 to |cuts|
      invariant block.Valid() && block.Listed() == before + cuts[..k]
    {
      ghost var m := block.cuts;
      AddNext(m, cuts[k]);
      block.Add(|block.cuts|, cuts[k]);
      assert block.cuts == m[|m| := cuts[k]];
      assert cuts[..k + 1] == cuts[..k] + [cuts[k]];
    }
    assert cuts[..|cuts|] == cuts;
  }
}
