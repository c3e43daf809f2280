# Cutting planes for GDP: the linear-inequality engine and its loop

This project models the core of Pyomo's `gdp.cuttingplane` transformation
(`pyomo/gdp/plugins/cuttingplane.py`). The transformation strengthens the BigM
reformulation of a generalized disjunctive program with cuts taken from the
hull (convex hull) relaxation. Each round does four things:

1. It solves the relaxed BigM model.
2. It finds the point x̂ of the hull relaxation closest to that solution.
3. It builds the hyperplane through x̂ whose normal is the sum of the oriented
   gradients of the constraints active at x̂.
4. It projects the disaggregated variables out of that hyperplane and the
   active constraints by Fourier–Motzkin elimination, then translates the
   projected rows to the BigM and relaxed BigM models.

The project has six modules, one per concern:

- `Wrappers` (`wrappers.dfy`): `Option`, `Result`, and the Python exceptions the
  core can raise (`GDP_Error`, `RuntimeError`, `ZeroDivisionError`, `KeyError`).
- `LinearBody` (`linear_body.dfy`): the `var -> coef` dictionary of a linear
  expression. It is an ordered list of entries, so iteration order is explicit.
  It includes its evaluation at a point and the coefficient-wise sum and scaling.
- `LinearRows` (`linear_rows.dfy`): the `{'lower', 'upper', 'body'}` rows,
  meaning `lower <= Σ coef·x + constant <= upper`. Also
  `scalar_multiply_linear_constraint` and `add_linear_constraints`.
- `FourierMotzkin` (`fourier_motzkin.dfy`): `fourier_motzkin_elimination`
  (splitting two-sided rows) and the recursive `fm_elimination`. Each step
  normalises, buckets, pair-sums and passes the other rows through.
- `CutGeneration` (`cut_generation.dfy`): `constraint_tight`, the composite
  normal, the extended-space cut, the projection, and `get_constraint_exprs`.
  Together they form `_create_cuts`.
- `CuttingPlaneLoop` (`cutting_plane_loop.dfy`): the policy loop of
  `_generate_cuttingplanes` and the `Constraint(Any)` cut containers it
  appends to.

Each imperative procedure of the source is a method: in-place updates, list
pops and appends, and while loops. Each method is proved equal to a
specification function. The properties the source relies on are proved as
lemmas about those functions:

- scaling by a non-zero factor keeps exactly the satisfying points;
- a sum of satisfied rows is satisfied;
- splitting two-sided rows keeps the solution set;
- elimination removes every eliminated variable and keeps every solution;
- the composite-normal cut is valid for the tight constraints;
- translated cuts hold at corresponding BigM points;
- the loop only appends cuts, and none of them cuts off a point of the hull
  relaxation.

Variables are identified by their position in the hull model's
deterministic variable list. A point gives every variable a real value.
Arithmetic is exact (`real`).

## Model

| member | source | states |
|---|---|---|
| LinearBody.SumBodyCoef | pyomo/gdp/plugins/cuttingplane.py:759-775 | each coefficient of the summed body is the sum of the two coefficients, a missing entry counting as 0 |
| LinearBody.SumBodyWellFormed | pyomo/gdp/plugins/cuttingplane.py:759-775 | the summed body is a dictionary again and its keys are exactly the keys of either body |
| LinearBody.SumBodyEval | pyomo/gdp/plugins/cuttingplane.py:759-775 | the summed body evaluates to the sum of the two bodies' values at every point |
| LinearBody.ScaleBodyCoef | pyomo/gdp/plugins/cuttingplane.py:801-802 | scaling the body multiplies every coefficient, present or not, by the factor |
| LinearBody.ScaleBodyEval | pyomo/gdp/plugins/cuttingplane.py:801-802 | the scaled body evaluates to the factor times the body's value |
| LinearRows.ScaledCoefficients | pyomo/gdp/plugins/cuttingplane.py:800-802 | scaling multiplies every coefficient and the constant by the factor and keeps the variables |
| LinearRows.ScaledValue | pyomo/gdp/plugins/cuttingplane.py:800-802 | the scaled row's value is the factor times the row's value |
| LinearRows.BoundScaled | pyomo/gdp/plugins/cuttingplane.py:804-822 | a present bound becomes the factor times the bound, an absent one stays absent, and the comparison with a value keeps (positive factor) or reverses (negative factor) its direction |
| LinearRows.ScaledSolutions | pyomo/gdp/plugins/cuttingplane.py:800-824 | for a non-zero factor, a point satisfies the scaled row exactly when it satisfies the original (bounds swap sides for a negative factor) |
| LinearRows.Scaled | pyomo/gdp/plugins/cuttingplane.py:800-824 | a non-negative factor keeps which bounds are present, and a negative one swaps the lower and upper bounds |
| LinearRows.ScalarMultiply | pyomo/gdp/plugins/cuttingplane.py:800-824 | the in-place update loop and the bound rewriting produce exactly the scaled row |
| LinearRows.SumCoefficients | pyomo/gdp/plugins/cuttingplane.py:758-776 | each coefficient of the sum is the sum of the coefficients and the constants add |
| LinearRows.SumBounds | pyomo/gdp/plugins/cuttingplane.py:777-796 | the sum has a lower bound iff both rows do (equal to their sum), likewise the upper bound, and it raises RuntimeError iff the rows share no bounded side |
| LinearRows.SumSatisfied | pyomo/gdp/plugins/cuttingplane.py:758-798 | a point satisfying both rows satisfies their sum |
| LinearRows.SumWellFormed | pyomo/gdp/plugins/cuttingplane.py:758-798 | the sum of two dictionary bodies is a dictionary |
| LinearRows.Sum | pyomo/gdp/plugins/cuttingplane.py:758-798 | two rows can be added iff they share a bounded side, and otherwise raise RuntimeError; the sum is bounded on exactly the sides both rows are bounded on |
| LinearRows.AddLinearConstraints | pyomo/gdp/plugins/cuttingplane.py:758-798 | the two collection loops and the bound checks compute the row sum, or RuntimeError when no side is shared |
| FourierMotzkin.UpperCopiesFacts | pyomo/gdp/plugins/cuttingplane.py:577-587 | one upper-only copy with the same body is appended per two-sided row, and nothing else |
| FourierMotzkin.UpperCopiesComplete | pyomo/gdp/plugins/cuttingplane.py:577-587 | every two-sided row has its upper-only copy appended |
| FourierMotzkin.SplitShape | pyomo/gdp/plugins/cuttingplane.py:576-587 | after splitting no row has both bounds, the count is the input count plus the number of two-sided rows, and boundedness and well-formedness are kept |
| FourierMotzkin.SplitSolutions | pyomo/gdp/plugins/cuttingplane.py:576-587 | splitting keeps the set of satisfying points exactly |
| FourierMotzkin.SplitRows | pyomo/gdp/plugins/cuttingplane.py:576-587 | the loop that clears `upper` and appends copies produces the split system |
| FourierMotzkin.SplitTwoSided | pyomo/gdp/plugins/cuttingplane.py:576-587 | the split system starts with the input rows in order, each keeping its lower bound, body and constant, and has at least as many rows |
| FourierMotzkin.FourierMotzkinElimination | pyomo/gdp/plugins/cuttingplane.py:573-598 | returns the elimination of the split system |
| FourierMotzkin.Normalize | pyomo/gdp/plugins/cuttingplane.py:627-657 | a row with coefficient 0 (or none) on the variable waits; one with a non-zero coefficient and a bound is scaled by a non-zero factor to a lower-bounded row with coefficient -1 (leq) or +1 (geq); one with no bound is dropped |
| FourierMotzkin.NormalizeBy | pyomo/gdp/plugins/cuttingplane.py:633-657 | scaling by ±1/coef gives coefficient ±1 and the lower bound comes from the lower (positive factor) or upper (negative factor) bound |
| FourierMotzkin.Classify | pyomo/gdp/plugins/cuttingplane.py:618-657 | the leq bucket holds lower-bounded rows with coefficient -1, the geq bucket those with +1, the waiting list original rows with coefficient 0, and no more rows than came in |
| FourierMotzkin.ClassifyWaiting | pyomo/gdp/plugins/cuttingplane.py:627-631 | the waiting list holds exactly the input rows with coefficient 0 on the variable |
| FourierMotzkin.ClassifyOrigins | pyomo/gdp/plugins/cuttingplane.py:633-657 | every bucketed row is a non-zero multiple of an input row |
| FourierMotzkin.ClassifyComplete | pyomo/gdp/plugins/cuttingplane.py:633-657 | every bounded row with a non-zero coefficient on the variable lands, normalised, in the leq or the geq bucket |
| FourierMotzkin.SortRows | pyomo/gdp/plugins/cuttingplane.py:609-657 | the popping while loop fills the three lists exactly as the classification says |
| FourierMotzkin.RowSums | pyomo/gdp/plugins/cuttingplane.py:675-676 | one sum per geq row |
| FourierMotzkin.RowSumsMembers | pyomo/gdp/plugins/cuttingplane.py:675-676 | each sum is the leq row plus some geq row |
| FourierMotzkin.PairSumsMembers | pyomo/gdp/plugins/cuttingplane.py:674-676 | there are as many sums as pairs of a leq row and a geq row, and each sum is a leq row plus a geq row |
| FourierMotzkin.PairSumsAll | pyomo/gdp/plugins/cuttingplane.py:674-676 | every leq row is summed with every geq row |
| FourierMotzkin.AddPairs | pyomo/gdp/plugins/cuttingplane.py:674-676 | the nested loops produce every leq+geq sum, leq-major |
| FourierMotzkin.StepEliminates | pyomo/gdp/plugins/cuttingplane.py:618-681 | after one step every row has coefficient 0 on the variable, the row count is the product of the two bucket sizes plus the waiting count, and rows without the variable are carried through unchanged |
| FourierMotzkin.StepKeepsZero | pyomo/gdp/plugins/cuttingplane.py:618-681 | a variable absent from every row stays absent after a step |
| FourierMotzkin.BucketsSound | pyomo/gdp/plugins/cuttingplane.py:633-657 | bucketed rows are dictionaries satisfied by every point satisfying the input |
| FourierMotzkin.StepSound | pyomo/gdp/plugins/cuttingplane.py:618-681 | a step keeps dictionaries and bounds, and every point satisfying the input satisfies the output |
| FourierMotzkin.EliminateStep | pyomo/gdp/plugins/cuttingplane.py:618-681 | one step leaves the sum of every leq row with every geq row, and its row count is the product of the bucket sizes plus the waiting count |
| FourierMotzkin.Eliminate | pyomo/gdp/plugins/cuttingplane.py:600-690 | an input row with coefficient 0 on every eliminated variable survives the elimination |
| FourierMotzkin.EliminateRemoves | pyomo/gdp/plugins/cuttingplane.py:600-690 | after elimination every eliminated variable has coefficient 0 in every row |
| FourierMotzkin.EliminateKeepsZero | pyomo/gdp/plugins/cuttingplane.py:600-690 | a variable absent from the input stays absent after elimination |
| FourierMotzkin.EliminateSound | pyomo/gdp/plugins/cuttingplane.py:600-690 | the projection is valid: every point satisfying the input satisfies every output row |
| FourierMotzkin.FmElimination | pyomo/gdp/plugins/cuttingplane.py:600-690 | the recursion (one variable popped per step, input returned when none is left) computes the elimination |
| CutGeneration.ConstraintTight | pyomo/gdp/plugins/cuttingplane.py:731-745 | the multiplier is in {-1, 0, 1}; it is -1 iff only the lower bound is reached or passed, +1 iff only the upper one is, and 0 for a satisfied equality |
| CutGeneration.TightSupports | pyomo/gdp/plugins/cuttingplane.py:731-745 | the multiplier points away from the feasible side: m·(w - val) <= 0 for every w within the bounds |
| CutGeneration.Normal | pyomo/gdp/plugins/cuttingplane.py:419-420 | a normal vector has the gradient's length |
| CutGeneration.NormalVectors | pyomo/gdp/plugins/cuttingplane.py:401-420 | one normal per tight constraint, each as long as some gradient |
| CutGeneration.CollectTight | pyomo/gdp/plugins/cuttingplane.py:401-420 | the loop over the active constraints collects the tight rows and their normals |
| CutGeneration.CompositeNormal | pyomo/gdp/plugins/cuttingplane.py:430-433 | the composite normal has one entry per hull variable |
| CutGeneration.DotNormal | pyomo/gdp/plugins/cuttingplane.py:419-420 | the weighted sum with a normal is the multiplier times that with the gradient |
| CutGeneration.CompositeSnoc | pyomo/gdp/plugins/cuttingplane.py:430-431 | adding a normal adds its weighted sum to the composite's |
| CutGeneration.DotLinear | pyomo/gdp/plugins/cuttingplane.py:417-420 | for a linear constraint the gradient-weighted sum at a point is the body's value |
| CutGeneration.CutRowValue | pyomo/gdp/plugins/cuttingplane.py:446-486 | the cut row's value is Σ n[v]·(x_v - x̂_v) over the original and disaggregated variables, and its body is a dictionary over exactly those variables |
| CutGeneration.CompositeSupports | pyomo/gdp/plugins/cuttingplane.py:401-433 | every point satisfying the tight linear constraints lies on the non-positive side of the composite normal through x̂ |
| CutGeneration.NormalSupports | pyomo/gdp/plugins/cuttingplane.py:407-420 | the oriented gradient of one tight linear constraint supports its satisfying points |
| CutGeneration.GradientGap | pyomo/gdp/plugins/cuttingplane.py:416-420 | between two points the gradient measures the change of a linear body |
| CutGeneration.CutValid | pyomo/gdp/plugins/cuttingplane.py:430-487 | the extended-space cut holds at every point satisfying the tight constraints |
| CutGeneration.Insert | pyomo/gdp/plugins/cuttingplane.py:474-478 | `ComponentSet.add` keeps the set free of duplicates |
| CutGeneration.Dedup | pyomo/gdp/plugins/cuttingplane.py:474-478 | `vars_to_eliminate` holds no duplicate |
| CutGeneration.DedupMembers | pyomo/gdp/plugins/cuttingplane.py:474-478 | `vars_to_eliminate` holds exactly the disaggregated variables |
| CutGeneration.CutOverTracked | pyomo/gdp/plugins/cuttingplane.py:452-457 | the first loop builds the cut's terms and constant over the original variables |
| CutGeneration.CutOverDisaggregated | pyomo/gdp/plugins/cuttingplane.py:474-486 | the second loop completes the cut row and collects the variables to eliminate |
| CutGeneration.BuildCut | pyomo/gdp/plugins/cuttingplane.py:446-486 | the two loops produce `cut_cons` (`Σ n[v]·(x_v - x̂_v) <= 0`) and `vars_to_eliminate` |
| CutGeneration.Translate | pyomo/gdp/plugins/cuttingplane.py:548-559 | the translation succeeds iff every variable with a non-zero coefficient has counterparts; otherwise it raises KeyError naming such a variable; the two bodies have equal length and are empty iff the row is trivial |
| CutGeneration.TranslateEval | pyomo/gdp/plugins/cuttingplane.py:548-559 | translated bodies take the original body's value at corresponding BigM and relaxed BigM points |
| CutGeneration.TranslateTerms | pyomo/gdp/plugins/cuttingplane.py:548-559 | the translated bodies hold exactly the terms with a non-zero coefficient, in order, each over the variable's BigM or relaxed BigM counterpart with the same coefficient |
| CutGeneration.TranslateBody | pyomo/gdp/plugins/cuttingplane.py:542-559 | the inner loop builds both bodies or raises KeyError, and its flag is set iff no coefficient is non-zero |
| CutGeneration.ExprsShape | pyomo/gdp/plugins/cuttingplane.py:530-568 | translation succeeds iff every non-zero coefficient is mapped, errors are KeyErrors, and the two cut lists have equal length: one cut per non-trivial bounded row |
| CutGeneration.ExprsSound | pyomo/gdp/plugins/cuttingplane.py:560-567 | each cut (`lower <= body`, else `upper >= body`) holds at the BigM and relaxed BigM points corresponding to a point satisfying its row |
| CutGeneration.ExprsForm | pyomo/gdp/plugins/cuttingplane.py:530-568 | the k-th cut on each model belongs to the k-th row with a non-trivial body and a bound: it is over that row's translated body and constant, and it is `lower <= body` when the row has a lower bound and `upper >= body` otherwise |
| CutGeneration.ExprsLast | pyomo/gdp/plugins/cuttingplane.py:542-567 | the last row appends its cut to both lists when it has a non-trivial body and a bound, and leaves both unchanged otherwise |
| CutGeneration.ExprsErrPersists | pyomo/gdp/plugins/cuttingplane.py:556-557 | the first KeyError ends the translation |
| CutGeneration.ConstraintExprs | pyomo/gdp/plugins/cuttingplane.py:530-568 | a successful translation yields as many BigM cuts as relaxed BigM cuts, at most one per row; ExprsForm gives each cut's form |
| CutGeneration.GetConstraintExprs | pyomo/gdp/plugins/cuttingplane.py:530-568 | the outer loop computes the translated cut lists or the KeyError |
| CutGeneration.CreatedCuts | pyomo/gdp/plugins/cuttingplane.py:378-528 | `_create_cuts` returns None iff the list of tight rows is empty, and any error is a KeyError |
| CutGeneration.TightRowsMembers | pyomo/gdp/plugins/cuttingplane.py:408-410 | every tight row is the row of a constraint with a non-zero multiplier |
| CutGeneration.TightRowsComplete | pyomo/gdp/plugins/cuttingplane.py:408-410 | the row of every constraint with a non-zero multiplier is a tight row, so the tight rows are empty iff no constraint is tight |
| CutGeneration.Projected | pyomo/gdp/plugins/cuttingplane.py:474-493 | the cut through x̂ is appended to the tight rows, the system is split and the disaggregated variables are eliminated; no disaggregated variable is left in the projected rows |
| CutGeneration.ProjectedValid | pyomo/gdp/plugins/cuttingplane.py:487-493 | the projected rows hold at every point satisfying the tight linear constraints |
| CutGeneration.CreatedCutsValid | pyomo/gdp/plugins/cuttingplane.py:378-528 | every created BigM and relaxed BigM cut holds at the points corresponding to a point of the hull relaxation |
| CutGeneration.CreateCuts | pyomo/gdp/plugins/cuttingplane.py:378-528 | the procedure (collect, compose, build, eliminate, translate) returns what `CreatedCuts` specifies |
| CuttingPlaneLoop.ImprovingAsWritten | pyomo/gdp/plugins/cuttingplane.py:305-308 | true on the first pass and false when the objective repeats; raises ZeroDivisionError exactly when the previous objective is 0 and the new one is at least 1 in magnitude |
| CuttingPlaneLoop.ZeroThenTwoRaises | pyomo/gdp/plugins/cuttingplane.py:305-308 | objectives 0 then 2 make the test as written raise |
| CuttingPlaneLoop.Improving | pyomo/gdp/plugins/cuttingplane.py:305-308 | the guarded test: true on the first pass, false when the objective repeats; absolute change above EPS while the previous objective is below magnitude 1, and otherwise change above EPS relative to the previous objective, never dividing by 0 |
| CuttingPlaneLoop.ImprovingAgrees | pyomo/gdp/plugins/cuttingplane.py:305-308 | wherever the guard on the new objective and the guard on the previous one pick the same branch, the test as written does not raise and agrees with the guarded test |
| CuttingPlaneLoop.CutBlock.constructor | pyomo/gdp/plugins/cuttingplane.py:131-132 | a new cut container is empty and numbered consecutively |
| CuttingPlaneLoop.CutBlock.Add | pyomo/gdp/plugins/cuttingplane.py:339-350 | adding a cut under a fresh index changes that one entry only |
| CuttingPlaneLoop.CutBlock.Listed | pyomo/gdp/plugins/cuttingplane.py:339-350 | the cuts in index order, as many as the container holds |
| CuttingPlaneLoop.InOrderAt | pyomo/gdp/plugins/cuttingplane.py:339-350 | the cut under index i is the i-th listed |
| CuttingPlaneLoop.AddNext | pyomo/gdp/plugins/cuttingplane.py:339-350 | adding under index `len(cuts)` keeps the indices 0..N-1 consecutive and appends the cut |
| CuttingPlaneLoop.AddCuts | pyomo/gdp/plugins/cuttingplane.py:339-350 | adding each cut at `len(cuts)` appends the cuts in order and keeps the numbering consecutive |
| CuttingPlaneLoop.Step | pyomo/gdp/plugins/cuttingplane.py:282-352 | a pass runs the improvement test as written; it continues only after a normal solve whose test returned true, adding equally many cuts to both models; a halting pass adds relaxed BigM cuts only when the test returned false; errors are KeyError or the ZeroDivisionError of the test, raised before any cut is added |
| CuttingPlaneLoop.StepPolicy | pyomo/gdp/plugins/cuttingplane.py:282-352 | a failed solve, a raising test, a separation objective below EPS, an error of `_create_cuts` and a None from it each stop the loop with nothing added; otherwise the created relaxed BigM cuts are added, and the BigM cuts are added and the loop continues exactly when the test is true |
| CuttingPlaneLoop.StepCuts | pyomo/gdp/plugins/cuttingplane.py:330-350 | any cut a pass adds, to either model, is one `_create_cuts` returned for that pass |
| CuttingPlaneLoop.RunAppends | pyomo/gdp/plugins/cuttingplane.py:280-352 | cuts are only appended, and at least as many relaxed BigM cuts as BigM cuts are added |
| CuttingPlaneLoop.RunOnePass | pyomo/gdp/plugins/cuttingplane.py:280-352 | after a pass that creates cuts, its relaxed BigM cuts follow the earlier ones in the final relaxed BigM model; when the test is true its BigM cuts follow the earlier ones in the final BigM model, and otherwise the loop ends right there with reason NotImproving |
| CuttingPlaneLoop.RepeatedObjectiveStops | pyomo/gdp/plugins/cuttingplane.py:305-352 | a pass with a repeated objective adds no BigM cut and ends the loop |
| CuttingPlaneLoop.StepValid | pyomo/gdp/plugins/cuttingplane.py:330-350 | the cuts of one pass hold at the points corresponding to a point of the hull relaxation |
| CuttingPlaneLoop.RunValid | pyomo/gdp/plugins/cuttingplane.py:280-352 | no cut the loop adds, to either model, removes a point of the hull relaxation |
| CuttingPlaneLoop.Run | pyomo/gdp/plugins/cuttingplane.py:280-352 | the passes stop with an error only for a KeyError or the ZeroDivisionError of the improvement test |
| CuttingPlaneLoop.Generate | pyomo/gdp/plugins/cuttingplane.py:247-271 | GDP_Error is raised exactly when there is no active objective, and then no cut is added |
| CuttingPlaneLoop.GenerateCuttingPlanes | pyomo/gdp/plugins/cuttingplane.py:247-352 | no active objective raises GDP_Error; otherwise the loop, running the improvement test as written, leaves in the two containers exactly the cuts of the loop specification, numbered consecutively, and stops for its reason or with the ZeroDivisionError or KeyError raised |

## Left out

- Solvers (`SolverFactory`, `opt.solve`, `verify_successful_solve`) are not modelled. Each pass's answers are an input list: solve status, relaxed objective, separation objective, and the hull constraints at x̂. A run that uses up the list stops with its own reason.
- `generate_standard_repn`, `differentiate` and `value` are foreign code. Linear representations, gradients and body values are inputs. The validity lemmas assume the tight constraints are linear over the cut's variables (`LinearAt`), as the cut's validity needs.
- Model construction is not modelled: `_setup_subproblems`, `_add_relaxation_block`, the variable maps, the separation objective and the configuration. The variable lists, the counterpart map and the variable count are inputs.
- `_project_cuts_to_bigM_space` is not modelled. Its only call is commented out.
- Debug printing and logging are not modelled.
- Floating point is replaced by exact reals, so `coef·(-1/coef)` is exactly -1. The initial `float("inf")` objective is `None`.
- In-place mutation of row dictionaries is modelled by returning the updated row. No caller reads the old dictionary.
- The order of the keys `add_linear_constraints` appends from the second row is not modelled. It takes the second row's order; the source iterates a `ComponentSet` difference.
- The pop order of `vars_to_eliminate` is not modelled. The model pops in insertion order; the source pops an unordered set.
- Zero coefficients that standard representations might drop are not modelled. Bodies are taken as given.
- CutGeneration.CreateCuts requires every gradient to span all hull variables, and the original and disaggregated variables to be hull variables. With those, the `composite_normal_map` lookups and the `zip` over normal vectors always succeed, so their failure paths are not modelled.
- Python 2 specifics (`print` statements, list-returning `items()`) have no counterpart.

## Findings

| source | as written | input that shows it | evidently intended | confidence | as-written member | corrected member |
|---|---|---|---|---|---|---|
| pyomo/gdp/plugins/cuttingplane.py:305-308 | the relative improvement is `abs(obj_diff/prev_obj)`, but the guard `abs(rBigM_objVal) < 1` bounds the new objective rather than the divisor | a relaxed objective of 0 on one pass and 2 on the next (cuts raise a minimisation objective): `prev_obj` is 0, the guard selects the relative branch, and the division raises ZeroDivisionError before any cut of the pass is added | the relative change against `prev_obj`, as designed, with the branch guard on the divisor `abs(prev_obj) < 1`, so the test never raises; the loop itself (Step, GenerateCuttingPlanes) runs the test as written | medium, not executed | CuttingPlaneLoop.ZeroThenTwoRaises | CuttingPlaneLoop.Improving |
