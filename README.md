# A verified model of the Python-Fuzzylogic engine

This project models the fuzzy-logic engine of the `fuzzylogic` Python package in Dafny and proves properties of that model. It also covers the engine's older `fuzzy` package.

- **Membership functions.** A membership function maps a crisp value to a degree of membership in [0, 1]. The constructors (`inv`, `alpha`, `normalize`, `moderate`, `singleton`, `linear`, `bounded_linear`, `R`, `S`, `rectangular`, `triangular`, `trapezoid`) are Dafny functions. Each one returns a closure of type `real -> real`, and the source's `assert`s become `requires` clauses (`functions.dfy`).
- **Combinators.** The combinators join memberships point by point: MIN, MAX, product, the bounded sum, the Łukasiewicz, Einstein and Hamacher pairs, `lambda_op` and the n-ary XOR `simple_disjoint_sum` (`combinators.dfy`). A Python exception (an empty `min`, a zero denominator) is an `Err` value of the `Result` type (`wrappers.dfy`).
- **Domains, sets and rules** (`classes.dfy`).
  - A `Domain` is a class holding a mutable registry from names to sets. Assigning to it rebinds the set's `domain` and `name` fields. The domain samples points on a numpy-`arange` grid.
  - A `Set` is a class with a write-once centre-of-gravity cache. Its operators build new sets, and it compares with other sets through its sampled array.
  - A `Rule` is a value: a map from antecedent sets to consequent sets. Rules have union, indexing, equality and centre-of-gravity inference.
- **Defuzzification** (`defuzz.dfy`): the weighted `cog`, the area-scanning `bisector` (a method with a loop, as in the source) and `mom`/`som`/`lom` over the tolerance-based maximal points.
- **Tools** (`tools.dfy`): `round_partial` with Python's round-half-to-even, `rescale` and `weighted_sum`. `src/fuzzylogic/rules.py` is an older copy of these three functions; it differs only in spelling and behaves the same, so the same members model it.
- **Hedges and truth qualifiers**: `very`, `plus` and `minus` on bare functions and on sets (`hedges.dfy`), and the truth qualifiers (`truth.dfy`).
- **The legacy `fuzzy` package.** Most of its constructors raise `ValueError`; `alpha` and `singleton` assert. Both kinds of failure are `Err` values (`legacy_functions.dfy`). It has binary combinators (`legacy_combinators.dfy`) and `scale` (`legacy_rules.dfy`).
  - Its `inv`, `noop`, `constant` and `linear`, and its `bounded_sum`, Łukasiewicz, Einstein, Hamacher and `lambda_op` combinators (fuzzy/combinators.py:38-105), compute the same formulas as the current package. The current package's members model them.
- **Scenarios** (`scenarios.dfy`): the library's examples, built through the same operations a user calls. They are the temperature domain whose `warm` is `~cold & ~hot`, the eleven-point domain `0..10`, and the restaurant rating built from `Domain.min` and `weighted_sum`.

Support modules: `reals.dfy` holds real-number helpers: min/max, sequence sums and extrema. `sums.dfy` holds sums over maps and the proof that a weighted mean stays within bounds.

Python's `float` is modelled as Dafny's exact `real`. Python's `math.sqrt` and `**` with a real exponent are passed in as function parameters, with the hypotheses the proofs need (`Truth.IsSqrt`, `Hedges.PowerLaw`).

## Model

| member | source | states |
|---|---|---|
| Functions.Inv | src/fuzzylogic/functions.py:37-44 | `inv(g)` is `1 - g` at every point, and lies in [0, 1] exactly when `g` does |
| Functions.Noop | src/fuzzylogic/functions.py:47-53 | `noop()` returns its argument unchanged |
| Functions.Constant | src/fuzzylogic/functions.py:56-66 | `constant(c)` takes one value at every point, and that value is `c` |
| Functions.Alpha | src/fuzzylogic/functions.py:69-93 | values strictly between floor and ceiling pass unchanged; without explicit clips every value lies in [floor, ceiling]; with clips in [0, 1] every value lies in [0, 1] |
| Functions.Normalize | src/fuzzylogic/functions.py:95-101 | every value times the height gives back the original membership, and a membership within [0, height] becomes one in [0, 1] |
| Functions.Moderate | src/fuzzylogic/functions.py:103-110 | a membership in [0, 1] moves towards 1/2 without crossing it, from below and from above |
| Functions.ModerateTowardsHalf | src/fuzzylogic/functions.py:108-109 | the cubic `1/2 + 4 (m - 1/2)^3` moves a single value of [0, 1] towards 1/2 without crossing it |
| Functions.Singleton | src/fuzzylogic/functions.py:116-129 | the value is `c_m` exactly at `p`, and every value lies in [0, 1] |
| Functions.Linear | src/fuzzylogic/functions.py:132-160 | at every point `linear(m, b)` is `m x + b` clipped into [0, 1] |
| Functions.BoundedLinear | src/fuzzylogic/functions.py:163-222 | every value lies in [0, 1]; with heights in [0, 1] it is `no_m` at `low` and `c_m` at `high`, the two swapped by `inverse`; it is non-decreasing, or non-increasing when `inverse` |
| Functions.R | src/fuzzylogic/functions.py:225-240 | `R(low, high)` is 0 up to `low`, the line `(x - low) / (high - low)` between, 1 beyond `high`, and in [0, 1] everywhere |
| Functions.S | src/fuzzylogic/functions.py:242-258 | `S(low, high)` is 1 up to `low`, the falling line `(high - x) / (high - low)` between, 0 from `high` on, and in [0, 1] everywhere |
| Functions.Rectangular | src/fuzzylogic/functions.py:261-276 | `c_m` on the closed interval [low, high], `no_m` outside it, and in [0, 1] when both values are |
| Functions.Triangular | src/fuzzylogic/functions.py:279-297 | every value lies in [0, 1]; with a unit peak height the triangle is 1 at the peak and 0 at and beyond both ends |
| Functions.Trapezoid | src/fuzzylogic/functions.py:300-325 | `no_m` outside [low, high], `c_m` on [c_low, c_high], and between `no_m` and `c_m` everywhere |
| Functions.Clip01 | src/fuzzylogic/functions.py:215-221 | the clipped value always lies in [0, 1], and a value already in [0, 1] is kept |
| Functions.InvInvolutive | src/fuzzylogic/functions.py:37-44 | complementing twice gives the original membership back, and a membership is in [0, 1] exactly when its complement is |
| Functions.NoopConstantValues | src/fuzzylogic/functions.py:47-66 | `noop` returns its argument and `constant(c)` returns `c` everywhere, e.g. `constant(1)(0) == 1` |
| Functions.AlphaIsClamp | src/fuzzylogic/functions.py:69-93 | with the default clips, `alpha` clamps into [floor, ceiling] and leaves values strictly between them unchanged |
| Functions.AlphaIdempotent | src/fuzzylogic/functions.py:69-93 | clipping an already clipped function changes nothing |
| Functions.AlphaClipsInUnit | src/fuzzylogic/functions.py:80-92 | with explicit clips in [0, 1] the result is the ceiling clip at or above the ceiling, the floor clip at or below the floor, else the value, and stays in [0, 1] |
| Functions.NormalizeScales | src/fuzzylogic/functions.py:95-101 | normalizing multiplies by 1/height: a membership in [0, height] lands in [0, 1], and one equal to the height becomes 1 |
| Functions.NormalizeIdempotent | src/fuzzylogic/functions.py:95-101 | dividing by a height of 1 changes nothing, so normalizing an already normalized function is the identity |
| Functions.ModerateRange | src/fuzzylogic/functions.py:103-110 | `moderate` keeps [0, 1], fixes 0, 1/2 and 1, and moves every membership towards 1/2 |
| Functions.SingletonSpike | src/fuzzylogic/functions.py:116-129 | the spike has height `c_m` exactly at `p`, `no_m` everywhere else, and stays in [0, 1] |
| Functions.LinearIsClippedLine | src/fuzzylogic/functions.py:132-160 | `linear(m, b)` is `m x + b` clipped into [0, 1], and equal to it where it lies strictly inside |
| Functions.LinearExamples | src/fuzzylogic/functions.py:138-150 | the doctest values of `linear(1, -1)` at -2, 0, 1, 1.5, 2 and 3 |
| Functions.RampMonotone | src/fuzzylogic/functions.py:215-221 | a clipped line rises with a non-negative slope and falls with a non-positive one |
| Functions.BoundedLinearGradientSign | src/fuzzylogic/functions.py:190-193 | the gradient is positive, or negative once `inverse` swaps the two values |
| Functions.BoundedLinearInterpolates | src/fuzzylogic/functions.py:163-222 | between the anchors the bounded line is the two-point line formula, in both orientations |
| Functions.BoundedLinearEndpoints | src/fuzzylogic/functions.py:163-222 | `f(low) == no_m` and `f(high) == c_m` for values in [0, 1], and `inverse` swaps the two |
| Functions.BoundedLinearBetween | src/fuzzylogic/functions.py:163-222 | between its anchors the bounded line stays between `no_m` and `c_m` |
| Functions.BoundedLinearInUnit | src/fuzzylogic/functions.py:215-221 | every value of the bounded line lies in [0, 1] |
| Functions.BoundedLinearMonotone | src/fuzzylogic/functions.py:163-222 | the bounded line is non-decreasing, or non-increasing when `inverse` |
| Functions.BoundedLinearExamples | src/fuzzylogic/functions.py:175-185 | the doctest values of `bounded_linear(2, 3)` at 1, 2, 2.5, 3 and 4 |
| Functions.RIsBoundedLinear | src/fuzzylogic/functions.py:225-240 | `R` is the default bounded line: 0 at `low`, 1 at `high`, always in [0, 1] |
| Functions.SIsInvR | src/fuzzylogic/functions.py:242-258 | `S` is the complement of `R` and the inverse default bounded line, so it stays in [0, 1] |
| Functions.RectangularValues | src/fuzzylogic/functions.py:261-276 | `c_m` on the closed interval and `no_m` outside, in [0, 1] when both values are |
| Functions.TriangularShape | src/fuzzylogic/functions.py:279-297 | with a unit peak the triangle is 0 at and beyond both ends, 1 at the peak, and in [0, 1] |
| Functions.TriangularInUnit | src/fuzzylogic/functions.py:279-297 | for every admissible peak height, all values stay in [0, 1] |
| Functions.TriangularOvershootsPeak | src/fuzzylogic/functions.py:292-296 | as written, a peak height of 1/2 on [0, 2] gives 1/2 at the peak but 3/4 at 3/2, and 1/2 at the upper end |
| Functions.TriangularPeakedShape | src/fuzzylogic/functions.py:279-297 | the corrected triangle is `c_m` at the peak, 0 at and beyond both ends, and never above `c_m` |
| Functions.TriangularPeakedAgrees | src/fuzzylogic/functions.py:292-296 | with a unit peak the corrected triangle is the one `triangular` builds |
| Functions.TrapezoidShape | src/fuzzylogic/functions.py:300-325 | the trapezoid is `no_m` outside its support, `c_m` on its core, and between the two everywhere |
| Combinators.MIN | src/fuzzylogic/combinators.py:23-27 | at every point MIN fails exactly without operands; otherwise its value is below every operand and equal to one of them |
| Combinators.MAX | src/fuzzylogic/combinators.py:30-34 | at every point MAX fails exactly without operands; otherwise its value is above every operand and equal to one of them |
| Combinators.Product | src/fuzzylogic/combinators.py:37-41 | fails exactly without operands; with operand values in [0, 1] the product lies in [0, 1] and below every operand |
| Combinators.BoundedSum | src/fuzzylogic/combinators.py:44-50 | with operands in [0, 1] the bounded sum lies in [0, 1] and at or above MAX |
| Combinators.LukasiewiczAND | src/fuzzylogic/combinators.py:52-58 | with operands in [0, 1] the value lies in [0, 1] and at or above MAX, as the code computes `min(1, x + y)` |
| Combinators.LukasiewiczOR | src/fuzzylogic/combinators.py:60-66 | with operands in [0, 1] the value lies in [0, 1] and at or below MIN, as the code computes `max(0, x + y - 1)` |
| Combinators.EinsteinProduct | src/fuzzylogic/combinators.py:68-74 | with operands in [0, 1] the Einstein product never divides by zero and lies in [0, 1] |
| Combinators.EinsteinSum | src/fuzzylogic/combinators.py:76-82 | with operands in [0, 1] the Einstein sum never divides by zero and lies in [0, 1] |
| Combinators.HamacherProduct | src/fuzzylogic/combinators.py:84-94 | with operands in [0, 1] the Hamacher product never divides by zero, lies in [0, 1] and at or below MIN |
| Combinators.HamacherSum | src/fuzzylogic/combinators.py:96-106 | with operands in [0, 1] the Hamacher sum never divides by zero, lies in [0, 1] and at or above MAX |
| Combinators.Lambda | src/fuzzylogic/combinators.py:109-123 | AssertionError exactly when `l` lies outside [0, 1] (combinators.py:116); otherwise the closure is `lambda_op`'s weighted formula, and with operands in [0, 1] it lies in [0, 1], between the product and the bounded sum |
| Combinators.SimpleDisjointSum | src/fuzzylogic/combinators.py:147-196 | the XOR fails exactly without operands; with operand values in [0, 1] it lies in [0, 1] |
| Combinators.MINIsLowerBound | src/fuzzylogic/combinators.py:23-27 | MIN fails exactly without operands; otherwise it is below every operand, equal to one of them, and in [0, 1] when they are |
| Combinators.MAXIsUpperBound | src/fuzzylogic/combinators.py:30-34 | MAX fails exactly without operands; otherwise it is above every operand, equal to one of them, and in [0, 1] when they are |
| Combinators.SeqProductInUnit | src/fuzzylogic/combinators.py:39-40 | a left-folded product of unit values stays in [0, 1] and below every factor |
| Combinators.ProductFacts | src/fuzzylogic/combinators.py:37-41 | `product` fails exactly without operands (`reduce` has no initial value), and otherwise stays in [0, 1] and below every operand |
| Combinators.BoundedSumFacts | src/fuzzylogic/combinators.py:44-50 | the bounded sum is commutative, equals `1 - (1 - x)(1 - y)`, stays in [0, 1] and dominates MAX |
| Combinators.LukasiewiczFacts | src/fuzzylogic/combinators.py:52-66 | both Łukasiewicz operators stay in [0, 1], are commutative and dual to each other, with the OR below MIN and the AND above MAX |
| Combinators.LukasiewiczAndExceedsMin | src/fuzzylogic/combinators.py:52-58 | as written, `lukasiewicz_AND(1/2, 1/2)` is 1, above MIN, so it is not a conjunction |
| Combinators.LukasiewiczCorrected | src/fuzzylogic/combinators.py:52-66 | the corrected t-norm lies below MIN with 1 as its unit, and the corrected t-conorm above MAX with 0 as its unit |
| Combinators.EinsteinFacts | src/fuzzylogic/combinators.py:68-82 | on [0, 1] neither Einstein denominator vanishes, both results are memberships, and both are commutative |
| Combinators.EinsteinProductCanRaise | src/fuzzylogic/combinators.py:71-73 | off [0, 1] the Einstein product can divide by zero and raise |
| Combinators.HamacherProductFacts | src/fuzzylogic/combinators.py:84-94 | on [0, 1] the Hamacher product never divides by zero, is 0 on a zero operand, and stays in [0, 1] below MIN |
| Combinators.HamacherSumFacts | src/fuzzylogic/combinators.py:96-106 | on [0, 1] the Hamacher sum never divides by zero, stays in [0, 1] above MAX, and is 1 exactly when an operand is 1 |
| Combinators.LambdaOpFacts | src/fuzzylogic/combinators.py:109-123 | `lambda_op(l)` lies between the product and the bounded sum, in [0, 1], and is one of them at l = 1 and l = 0 |
| Combinators.DisjointSumOfTwo | src/fuzzylogic/combinators.py:180-195 | for two operands the XOR is `max(min(x, 1 - y), min(1 - x, y))`, also when the values coincide |
| Combinators.DisjointSumExamples | src/fuzzylogic/combinators.py:154-160 | the doctest: `simple_disjoint_sum(noop(), noop())` gives 0 at 0, 0 at 1 and 0.5 at 0.5 |
| Combinators.DisjointSumOnlySet | src/fuzzylogic/combinators.py:185-195 | the XOR depends only on the set of operand values: duplicated operands collapse |
| Combinators.DisjointSumInUnit | src/fuzzylogic/combinators.py:147-196 | with operands in [0, 1] the XOR is defined and stays in [0, 1] |
| LegacyCombinators.MIN | fuzzy/combinators.py:17-21 | at every point the binary MIN is below both operands and equal to one of them |
| LegacyCombinators.MAX | fuzzy/combinators.py:24-28 | at every point the binary MAX is above both operands and equal to one of them |
| LegacyCombinators.Product | fuzzy/combinators.py:31-35 | with operands in [0, 1] the binary product lies in [0, 1] and below both operands |
| LegacyCombinators.MINFacts | fuzzy/combinators.py:17-21 | the binary MIN is one of the operands, below both, and in [0, 1] when they are |
| LegacyCombinators.MINAgrees | fuzzy/combinators.py:17-21 | the binary MIN equals the current n-ary MIN on the two operands |
| LegacyCombinators.MAXFacts | fuzzy/combinators.py:24-28 | the binary MAX is one of the operands, above both, and in [0, 1] when they are |
| LegacyCombinators.MAXAgrees | fuzzy/combinators.py:24-28 | the binary MAX equals the current n-ary MAX on the two operands |
| LegacyCombinators.ProductFacts | fuzzy/combinators.py:31-35 | the binary product stays in [0, 1] and below both operands |
| LegacyCombinators.ProductAgrees | fuzzy/combinators.py:31-35 | the binary product equals the current n-ary product on the two operands |
| LegacyFunctions.Alpha | fuzzy/functions.py:68-84 | AssertionError exactly when `floor <= ceiling`, `0 <= floor` or `ceiling <= 1` fails (fuzzy/functions.py:73-75); otherwise every value lies in [floor, ceiling], and values strictly between pass unchanged |
| LegacyFunctions.Singleton | fuzzy/functions.py:90-109 | AssertionError exactly when `p_m` or `non_p_m` lies outside [0, 1] (fuzzy/functions.py:103-104); otherwise `p_m` at `p`, `non_p_m` everywhere else, and in [0, 1] |
| LegacyFunctions.BoundedLinear | fuzzy/functions.py:142-192 | raises exactly when `high <= low`; otherwise every value lies in [0, 1], and with heights in [0, 1] the line is `unsupported_m` at `low` and `core_m` at `high` |
| LegacyFunctions.R | fuzzy/functions.py:195-211 | raises exactly when `left >= right`; otherwise every value lies in [0, 1], with 0 at `left` and 1 at `right` |
| LegacyFunctions.S | fuzzy/functions.py:214-229 | raises exactly when `left >= right`; otherwise it is the current falling ramp at every point, in [0, 1] |
| LegacyFunctions.SAtAgrees | fuzzy/functions.py:222-228 | the old formula `(right - x) / (right - left)` and the current `S` agree at every point |
| LegacyFunctions.Rectangular | fuzzy/functions.py:232-261 | raises exactly when `left > right`; otherwise `core_m` on [left, right] and `unsupported_m` outside |
| LegacyFunctions.Triangular | fuzzy/functions.py:264-296 | raises exactly unless the peak lies strictly between `left` and `right`; otherwise every value lies in [0, 1] |
| LegacyFunctions.TrapezoidAsWritten | fuzzy/functions.py:299-344 | as written: raises on exactly the rejected parameters; otherwise `unsupported_m` outside the support, `c_m` on the core, and in [0, 1] |
| LegacyFunctions.Trapezoid | fuzzy/functions.py:299-344 | the corrected trapezoid raises on the same parameters; otherwise `unsupported_m` outside the support, `c_m` on the core, and in [0, 1] |
| LegacyFunctions.AlphaClamps | fuzzy/functions.py:68-84 | the old `alpha` fails exactly on bad bounds; otherwise it tests the ceiling first, returns the floor at or below it, and passes values strictly between unchanged |
| LegacyFunctions.SingletonSpike | fuzzy/functions.py:90-109 | the old spike fails exactly on values outside [0, 1]; otherwise it is `p_m` at `p` and `non_p_m` elsewhere, in [0, 1] |
| LegacyFunctions.BoundedLinearFacts | fuzzy/functions.py:142-192 | the old bounded line raises exactly when `high <= low`, passes through both anchors and stays in [0, 1] |
| LegacyFunctions.BoundedLinearAgrees | fuzzy/functions.py:142-192 | with `core_m > unsupported_m` the old bounded line is the current one |
| LegacyFunctions.BoundedLinearExamples | fuzzy/functions.py:168-178 | the doctest values of the old `bounded_linear(2, 3)` |
| LegacyFunctions.RFacts | fuzzy/functions.py:195-211 | the old `R` raises exactly when `left >= right`, and otherwise is the current rising ramp |
| LegacyFunctions.SFacts | fuzzy/functions.py:214-229 | the old `S` raises exactly when `left >= right`, and otherwise is the current falling ramp, in [0, 1] |
| LegacyFunctions.RectangularFacts | fuzzy/functions.py:232-261 | the old rectangle raises only when `left > right`, so a single point is allowed; core value inside, the other outside |
| LegacyFunctions.TriangularFacts | fuzzy/functions.py:264-296 | the old triangle raises exactly unless the peak lies strictly inside, and then follows the rising line up to the peak |
| LegacyFunctions.TriangularAgrees | fuzzy/functions.py:264-296 | with a positive peak height the old triangle is the current one |
| LegacyFunctions.TrapezoidRightSlopeJumps | fuzzy/functions.py:328-341 | as written, `trapezoid(0, 1, 2, 3, c_m=1/2)` is 3/4 at 5/2, above its core 1/2, where the falling line gives 1/4 |
| LegacyFunctions.TrapezoidErrors | fuzzy/functions.py:319-326 | the as-written and corrected trapezoids raise on exactly the same parameters |
| LegacyFunctions.TrapezoidVariantsAgree | fuzzy/functions.py:328-341 | both right slopes agree at every point when the two heights add up to 1, as the defaults 1 and 0 do |
| LegacyFunctions.TrapezoidVariantsAgreeAtRight | fuzzy/functions.py:328-341 | at `right` the as-written and corrected trapezoids agree exactly when the two heights add up to 1, so they differ somewhere for every other pair of heights |
| LegacyFunctions.TrapezoidFacts | fuzzy/functions.py:299-344 | the corrected trapezoid is `unsupported_m` outside the support and `c_m` on the core, and with `c_m > unsupported_m` it is the current `trapezoid` |
| LegacyRules.Scale | fuzzy/rules.py:2-3 | there is no guard: the result fails with a division by zero exactly when the two input bounds are equal |
| LegacyRules.ScaleEndpoints | fuzzy/rules.py:2-3 | `IN_min` maps to `OUT_min` and `IN_max` to `OUT_max`, in either orientation of the inputs |
| LegacyRules.ScaleAffine | fuzzy/rules.py:2-3 | `scale` is affine: differences of results are the fixed slope times differences of inputs |
| LegacyRules.ScaleDefaults | fuzzy/rules.py:2-3 | with the default inputs 0..1, `scale(x) == (OUT_max - OUT_min) x + OUT_min` |
| LegacyRules.ScaleIsRescale | fuzzy/rules.py:2-3 | for increasing input bounds, `scale` equals the current package's factorised `rescale` |
| Tools.RoundHalfEven | src/fuzzylogic/tools.py:31 | Python's `round`: the result is within 1/2 of its argument, and an exact tie goes to the even integer |
| Tools.RoundHalfEvenUnique | src/fuzzylogic/tools.py:31 | those two properties determine the rounded integer uniquely |
| Tools.RoundHalfEvenNearest | src/fuzzylogic/tools.py:31 | no integer is closer to the argument than its rounding |
| Tools.RoundPartial | src/fuzzylogic/tools.py:9-31 | a zero resolution returns the value unchanged |
| Tools.RoundPartialMultiple | src/fuzzylogic/tools.py:31 | with a non-zero resolution, the result is a whole multiple of the resolution |
| Tools.RoundPartialHalfStep | src/fuzzylogic/tools.py:31 | with a non-zero resolution, the result is within half a step of the value |
| Tools.RoundPartialExamples | src/fuzzylogic/tools.py:13-28 | all eight doctests, e.g. 1.38 rounds to 1.5 at 0.25 and 987654321 to 987654300 at 100 |
| Tools.RescaleAt | src/fuzzylogic/tools.py:34-65 | the factorised formula of `rescale` equals the two-point formula `(out_max - out_min)(x - in_min) / (in_max - in_min) + out_min` |
| Tools.Rescale | src/fuzzylogic/tools.py:34-65 | `in_min` maps to `out_min` and `in_max` to `out_max`, and for `out_min <= out_max` the input interval maps into the output interval |
| Tools.RescaleEndpoints | src/fuzzylogic/tools.py:51-65 | `in_min` maps to `out_min` and `in_max` to `out_max` |
| Tools.RescaleInterval | src/fuzzylogic/tools.py:62-63 | an increasing rescaling maps the input interval into the output interval |
| Tools.WeightedTerms | src/fuzzylogic/tools.py:84 | one product `r * weights[n]` for each membership name that `weights` knows |
| Tools.WeightedSum | src/fuzzylogic/tools.py:68-87 | the rating fails with KeyError exactly when a membership name is missing from `weights` |
| Tools.WeightedSumWithin | src/fuzzylogic/tools.py:68-87 | with non-negative weights and memberships in [0, 1], the rating is defined and in the target interval up to half a resolution step |
| Tools.WeightedSumRating | tests/test_functionality.py:57-70 | the weights 0.3, 0.2, 0.2 and 0.3 sum to 1, and applied to the normalised ratings 8/9, 4/9, 3/9 and 7/9 on the domain [1, 10] with step 0.1 they give the rating 6.9 |
| Hedges.Very | src/fuzzylogic/hedges.py:19-22 | on a bare function `very` squares the membership, and keeps one of [0, 1] in [0, 1] and never raises it |
| Hedges.Plus | src/fuzzylogic/hedges.py:33-36 | for a power law, `plus` keeps a membership of [0, 1] in [0, 1] and never raises it |
| Hedges.Minus | src/fuzzylogic/hedges.py:47-50 | for a power law, `minus` keeps a membership of [0, 1] in [0, 1] and never lowers it |
| Hedges.VeryNarrows | src/fuzzylogic/hedges.py:19-22 | on a bare function, `very` keeps a membership in [0, 1] and never raises it |
| Hedges.VeryFixesEnds | src/fuzzylogic/hedges.py:11-22 | `very` leaves a membership unchanged exactly when it is 0 or 1 |
| Hedges.PlusNarrows | src/fuzzylogic/hedges.py:33-36 | `plus` keeps a membership in [0, 1] and never raises it |
| Hedges.MinusWidens | src/fuzzylogic/hedges.py:47-50 | `minus` keeps a membership in [0, 1] and never lowers it |
| Hedges.HedgeOrder | src/fuzzylogic/hedges.py:11-50 | the hedges are ordered: `very(g) <= g`, `plus(g) <= g <= minus(g)` |
| Hedges.VerySet | src/fuzzylogic/hedges.py:13-18 | on a set, `very` gives a fresh set on the same domain named "very_" + name, with the squared membership |
| Hedges.PlusSet | src/fuzzylogic/hedges.py:27-32 | on a set, `plus` gives a fresh set on the same domain named "plus_" + name, with membership to the power 1.25 |
| Hedges.MinusSet | src/fuzzylogic/hedges.py:41-46 | on a set, `minus` gives a fresh set on the same domain named "minus_" + name, with membership to the power 0.75 |
| Truth.True | src/fuzzylogic/truth.py:11-13 | `true(m)` is `m` itself, so it is a membership exactly when `m` is |
| Truth.False | src/fuzzylogic/truth.py:16-18 | `false(m)` is what `true(m)` lacks to reach 1 |
| Truth.TrueFalseComplement | src/fuzzylogic/truth.py:11-18 | `true(m) + false(m) == 1` for every m |
| Truth.Root | src/fuzzylogic/truth.py:8 | `math.sqrt` raises ValueError exactly on a negative argument |
| Truth.SquareAboveOne | src/fuzzylogic/truth.py:23 | `1 - m**2` is negative exactly when m lies outside [-1, 1] |
| Truth.FairlyFalse | src/fuzzylogic/truth.py:21-23 | `fairly_false` raises exactly outside [-1, 1] |
| Truth.FairlyTrue | src/fuzzylogic/truth.py:26-28 | `fairly_true` raises exactly outside [0, 2] |
| Truth.VeryFalse | src/fuzzylogic/truth.py:31-33 | `very_false` raises exactly outside [0, 2] |
| Truth.VeryTrue | src/fuzzylogic/truth.py:36-38 | `very_true` raises exactly outside [-1, 1] |
| Truth.VeryFalseFairlyTrue | src/fuzzylogic/truth.py:26-33 | on [0, 1] both are defined and `very_false(m) + fairly_true(m) == 0` |
| Truth.FairlyFalseVeryTrue | src/fuzzylogic/truth.py:21-38 | on [0, 1] both are defined and `fairly_false(m) + very_true(m) == 0` |
| Truth.QualifierSigns | src/fuzzylogic/truth.py:21-38 | on [0, 1] the `fairly_*` qualifiers are non-negative and the `very_*` ones non-positive |
| Truth.QualifiersOnCircles | src/fuzzylogic/truth.py:21-38 | the pairs (m, q(m)) lie on the unit circles centred at (0, 0) and (1, 0), one quadrant each |
| Defuzz.Cog | src/fuzzylogic/defuzz.py:9-28 | ValueError exactly when the weights sum to zero; otherwise the result times the total weight is the total moment |
| Defuzz.MomentsBracketed | src/fuzzylogic/defuzz.py:24-27 | with non-negative weights and centres in [lo, hi], the total moment lies between lo and hi times the total weight |
| Defuzz.CogWithin | src/fuzzylogic/defuzz.py:9-28 | the centre of gravity is a weighted mean: with non-negative weights of positive total it lies between the smallest and largest centre |
| Defuzz.CogOfEqualCentres | src/fuzzylogic/defuzz.py:24-28 | targets sharing one centre have that centre as their centre of gravity |
| Defuzz.CogSingle | src/fuzzylogic/defuzz.py:24-28 | a single target of non-zero weight yields its own centre |
| Defuzz.Bisector | src/fuzzylogic/defuzz.py:31-49 | IndexError exactly on no points; otherwise the result is the point at the first index whose running area reaches half the total, or the last point |
| Defuzz.BisectsAtUnique | src/fuzzylogic/defuzz.py:45-49 | the stopping index is unique, so the bisector's result is determined |
| Defuzz.AreaNonNeg | src/fuzzylogic/defuzz.py:42 | with non-negative memberships and step, the area is non-negative |
| Defuzz.BisectorReachesHalf | src/fuzzylogic/defuzz.py:42-49 | for a non-negative curve, the running area at the stopping point is at least half the total, even at the last point |
| Defuzz.NearMax | src/fuzzylogic/defuzz.py:78 | the filtered points are exactly the input points whose membership is within the tolerance of the top |
| Defuzz.NearMaxAppend | src/fuzzylogic/defuzz.py:78 | filtering keeps input order: it distributes over concatenation |
| Defuzz.NearMaxAll | src/fuzzylogic/defuzz.py:78 | when every point is maximal, filtering keeps all of them, in order |
| Defuzz.GetMaxPoints | src/fuzzylogic/defuzz.py:74-78 | ValueError exactly on no points; otherwise a non-empty list of exactly the points within 1e-6 of the largest membership |
| Defuzz.Mom | src/fuzzylogic/defuzz.py:52-57 | `mom` fails exactly on no points, and is otherwise the mean of the maximal points |
| Defuzz.Som | src/fuzzylogic/defuzz.py:60-64 | `som` fails exactly on no points, and is otherwise the smallest maximal point |
| Defuzz.Lom | src/fuzzylogic/defuzz.py:67-71 | `lom` fails exactly on no points, and is otherwise the largest maximal point |
| Defuzz.Mean | src/fuzzylogic/defuzz.py:57 | the mean of a non-empty sequence lies between its minimum and its maximum |
| Defuzz.MeanBetween | src/fuzzylogic/defuzz.py:57 | a mean lies between the minimum and the maximum of its sequence |
| Defuzz.SomMomLomOrdered | src/fuzzylogic/defuzz.py:52-71 | on non-empty points all three are defined and `som <= mom <= lom` |
| Defuzz.SomLomExtremes | src/fuzzylogic/defuzz.py:60-71 | `som` and `lom` are sample points, below and above every maximal point respectively |
| Defuzz.MomOfConstant | tests/test_defuzz.py:155-161 | a constant membership makes every point maximal, so `mom` is the mean of the points |
| Defuzz.PlateauExtremes | tests/test_defuzz.py:164-171 | over a plateau whose ends are sample points, `som` is its left end and `lom` its right end |
| Defuzz.SinglePeakExample | tests/test_defuzz.py:174-178 | over 0..4 with the top membership only at 2, the maximal points are `[2]` |
| Classes.Ceil | src/fuzzylogic/classes.py:139 | the least integer at or above its argument |
| Classes.Arange | src/fuzzylogic/classes.py:139 | numpy's `arange`: `ceil((stop - start) / step)` points `start + i * step` |
| Classes.ArangeStopsAtStop | src/fuzzylogic/classes.py:139 | every `arange` point is below `stop`, and the first point left out is not |
| Classes.Memberships | src/fuzzylogic/classes.py:148-152 | the memberships of `x` in the registered sets, empty exactly when the registry is |
| Classes.Domain.constructor | src/fuzzylogic/classes.py:56-64 | a domain needs `low < high` and a positive resolution, and stores its name, bounds, resolution and sets |
| Classes.Domain.Call | src/fuzzylogic/classes.py:67-79 | calling a domain maps every registered set object to its membership of `x`, and nothing else |
| Classes.Domain.Min | src/fuzzylogic/classes.py:141-148 | ValueError exactly on an empty registry; otherwise the smallest membership over the registered sets |
| Classes.Domain.Max | src/fuzzylogic/classes.py:150-152 | ValueError exactly on an empty registry; otherwise the largest membership over the registered sets |
| Classes.Domain.GetAttr | src/fuzzylogic/classes.py:100-105 | `__getattr__` returns the set registered under the name, or AttributeError exactly when there is none; `d.<name>` reaches it only for names that are not attributes of `Domain` |
| Classes.Domain.Assign | src/fuzzylogic/classes.py:107-121 | assigning a set under an identifier registers it, rebinds its domain and name, and leaves every other name unchanged |
| Classes.Domain.AssignFunction | src/fuzzylogic/classes.py:115-121 | a bare function is first wrapped in a fresh set, then registered the same way |
| Classes.Domain.Delete | src/fuzzylogic/classes.py:123-128 | deleting removes exactly that name when registered; otherwise it raises and changes nothing |
| Classes.Domain.Range | src/fuzzylogic/classes.py:130-139 | the grid point at index i is `low + i * res` |
| Classes.RangeFacts | src/fuzzylogic/classes.py:130-139 | the grid has `ceil((high - low) / res) + 1` points, starts at `low`, reaches `high`, and stays below `high + res` |
| Classes.RangeExact | src/fuzzylogic/classes.py:137-139 | when `res` divides `high - low` n times, the grid has n + 1 points and ends exactly at `high` |
| Classes.Domain.Equals | src/fuzzylogic/classes.py:89-95 | a domain equals itself, and equal domains have the same grid and the same set names |
| Classes.DomainEqualsFacts | src/fuzzylogic/classes.py:89-95 | domain equality is reflexive and symmetric |
| Classes.IndexCog | src/fuzzylogic/classes.py:341 | numpy's `average` of the positions 0..n-1: ZeroDivisionError exactly when the weights sum to 0, otherwise the result times the total is the index-weighted sum |
| Classes.Set.constructor | src/fuzzylogic/classes.py:177-181 | a new set stores its function, name and domain, with an empty cache |
| Classes.Set.Array | src/fuzzylogic/classes.py:328-332 | FuzzyWarning exactly without a domain; otherwise one membership per grid point, in grid order |
| Classes.Set.Invert | src/fuzzylogic/classes.py:186-188 | `~s` is a fresh unnamed set on the same domain with membership `1 - f` |
| Classes.Set.Neg | src/fuzzylogic/classes.py:190-192 | `-s` is the same complement as `~s` |
| Classes.Set.And | src/fuzzylogic/classes.py:194-197 | `s & t` needs equal domains and is a fresh unnamed set on the left domain with the MIN of the two memberships |
| Classes.Set.Or | src/fuzzylogic/classes.py:199-202 | `s \| t` is likewise the MAX of the two memberships |
| Classes.Set.Mul | src/fuzzylogic/classes.py:204-207 | `s * t` is likewise the product of the two memberships |
| Classes.Set.Add | src/fuzzylogic/classes.py:209-212 | `s + t` is likewise the bounded sum of the two memberships |
| Classes.Set.Xor | src/fuzzylogic/classes.py:214-217 | `s ^ t` is likewise the simple disjoint sum of the two memberships |
| Classes.Set.Pow | src/fuzzylogic/classes.py:219-222 | `s ** p` is a fresh unnamed set on the same domain with membership `pow(f(x), p)` |
| Classes.Set.Equal | src/fuzzylogic/classes.py:224-235 | FuzzyWarning exactly when either set has no domain; otherwise true exactly when both arrays have the same length and values |
| Classes.Set.Compare | src/fuzzylogic/classes.py:237-263 | needs equal domains; FuzzyWarning exactly without a domain; otherwise true exactly when the comparison holds at every grid point |
| Classes.Set.Len | src/fuzzylogic/classes.py:265-269 | FuzzyWarning exactly without a domain; otherwise the number of grid points |
| Classes.Set.Cardinality | src/fuzzylogic/classes.py:271-276 | FuzzyWarning exactly without a domain; otherwise the sum of the memberships in the array over the grid |
| Classes.Set.RelativeCardinality | src/fuzzylogic/classes.py:278-286 | as written it never yields a number: FuzzyWarning without a domain or grid, and otherwise TypeError |
| Classes.Set.RelativeCardinalityIntended | src/fuzzylogic/classes.py:278-286 | the intended value fails exactly without a domain or grid, and otherwise times the grid size is the cardinality |
| Classes.Set.Concentrated | src/fuzzylogic/classes.py:288-295 | a fresh unnamed set on the same domain with the squared membership |
| Classes.Set.Intensified | src/fuzzylogic/classes.py:297-309 | a fresh unnamed set on the same domain choosing its branch by the crisp value `x < 0.5`, as written |
| Classes.Set.Dilated | src/fuzzylogic/classes.py:311-314 | a fresh unnamed set on the same domain with half the membership, because `**` binds tighter than `/` |
| Classes.Set.Height | src/fuzzylogic/classes.py:378 | `max(array)`: fails without a domain or grid; otherwise above every sampled membership and equal to one of them |
| Classes.Set.Normalized | src/fuzzylogic/classes.py:374-378 | fails exactly when the height does or lies outside (0, 1], with the height's error or AssertionError (functions.py:97) respectively; for a height in (0, 1] a fresh set on the same domain divided by the height, whose height is 1 |
| Classes.Set.Cog | src/fuzzylogic/classes.py:334-343 | the reported centre of gravity: the cached value when there is one, otherwise the index-weighted average of the array |
| Classes.Set.CenterOfGravity | src/fuzzylogic/classes.py:334-343 | reading returns the reported value, fills an empty cache on success, and never changes a filled cache |
| Classes.NormalizedHeightIsOne | src/fuzzylogic/classes.py:374-378 | dividing a set by its height gives a set of height 1 on the same grid |
| Classes.DividedMaxIsOne | src/fuzzylogic/classes.py:378 | dividing every element by the maximum makes the new maximum 1 |
| Classes.DisjointPairAgrees | src/fuzzylogic/classes.py:214-217 | the two-operand XOR equals the n-ary `simple_disjoint_sum` on the two operands |
| Classes.SameDomainSameGrid | src/fuzzylogic/classes.py:89-95 | equal domains sample the same grid, and the equality is symmetric |
| Classes.CompareFacts | src/fuzzylogic/classes.py:237-263 | the comparisons are the subset order: `<` implies `<=`, `>=` and `>` swap the sides, and `<=` both ways gives `==` |
| Classes.CardinalityBounds | src/fuzzylogic/classes.py:265-276 | with memberships in [0, 1], the cardinality lies between 0 and the number of grid points |
| Classes.RelativeCardinalityFails | src/fuzzylogic/classes.py:286 | on any valid domain the relative cardinality as written raises TypeError |
| Classes.RelativeCardinalityIntendedInUnit | src/fuzzylogic/classes.py:278-286 | the intended relative cardinality is the mean membership, in [0, 1] when every membership is |
| Classes.ConcentratedFacts | src/fuzzylogic/classes.py:288-295 | squaring keeps a membership in [0, 1] and never raises it |
| Classes.IntensifiedLeavesUnit | src/fuzzylogic/classes.py:304-308 | as written, `intensified` gives 2 for membership 1 at x = 0 and -1 for membership 0 at x = 1 |
| Classes.IntensifiedIntendedFacts | src/fuzzylogic/classes.py:297-309 | the intended operator keeps [0, 1], fixes 0, 1/2 and 1, lowers memberships below 1/2 and raises those above |
| Classes.DilatedHalves | src/fuzzylogic/classes.py:314 | as written, full membership drops to 1/2 and every positive membership decreases |
| Classes.DilatedIntendedFacts | src/fuzzylogic/classes.py:311-314 | the square root of a membership stays in [0, 1] and never lowers it |
| Classes.IndexMomentBounds | src/fuzzylogic/classes.py:341 | with non-negative weights, the index-weighted sum lies between 0 and (n - 1) times the total |
| Classes.IndexCogBounds | src/fuzzylogic/classes.py:340-341 | with non-negative weights of positive total, the centre of gravity is a position between 0 and n - 1 |
| Classes.IndexCogSpike | src/fuzzylogic/classes.py:340-341 | weights that vanish except at one index put the centre of gravity on that index: a position, not a coordinate |
| Classes.CoordinateMomentOnGrid | src/fuzzylogic/classes.py:341 | on the grid `low + i * res`, the coordinate moment is `low` times the total plus `res` times the index moment, so index and coordinate agree only for low = 0 and res = 1 |
| Classes.MaxSize | src/fuzzylogic/classes.py:417 | the largest antecedent size, attained by some antecedent |
| Classes.AntecedentValues | src/fuzzylogic/classes.py:419-420 | the memberships of an antecedent's sets at their domains' inputs, non-empty for a non-empty antecedent |
| Classes.StrengthIsMinimum | src/fuzzylogic/classes.py:419-420 | the firing strength is at most every membership of the antecedent and equal to one of them |
| Classes.Rule.Union | src/fuzzylogic/classes.py:391-404 | `+` and `\|` merge the antecedents of both rules; on a shared antecedent the right operand's consequent wins |
| Classes.Rule.RAdd | src/fuzzylogic/classes.py:395-400 | an integer on the left leaves the rule unchanged; a rule on the left is merged with the left rule's consequents winning |
| Classes.Rule.Equal | src/fuzzylogic/classes.py:406-407 | different antecedents give false; the result is true exactly when the antecedents agree and each consequent is the same set or has the same array of values |
| Classes.Rule.GetItem | src/fuzzylogic/classes.py:409-410 | the consequent of a present antecedent, or KeyError exactly when it is absent |
| Classes.Rule.Firing | src/fuzzylogic/classes.py:419-420 | exactly the antecedents with positive strength, each with its strength |
| Classes.Rule.Infer | src/fuzzylogic/classes.py:412-423 | an empty rule fails (`max` of nothing), and a method other than "cog" returns None |
| Classes.Rule.InferCog | src/fuzzylogic/classes.py:418-420 | KeyError when an antecedent set has no input value; ValueError for an empty antecedent |
| Classes.Rule.ApplicableWhenCovered | src/fuzzylogic/classes.py:418-420 | inputs that cover every antecedent and no empty antecedent make the rule applicable |
| Classes.Rule.Aggregate | src/fuzzylogic/classes.py:421-423 | None exactly when nothing fires |
| Classes.NotUncovered | src/fuzzylogic/classes.py:418-420 | applicable inputs cover every antecedent and leave none empty |
| Classes.InferIsAggregate | src/fuzzylogic/classes.py:412-423 | on applicable inputs of the right arity, "cog" inference is the aggregation of the firing antecedents |
| Classes.FiringEmptyIff | src/fuzzylogic/classes.py:419-420 | nothing fires exactly when every strength is at most 0 |
| Classes.InferNoneIffNothingFires | src/fuzzylogic/classes.py:412-423 | inference returns None exactly when no antecedent has positive strength |
| Classes.AggregateNoneIff | src/fuzzylogic/classes.py:421-422 | aggregation returns None exactly when the firing map is empty |
| Classes.InferWithinConsequents | src/fuzzylogic/classes.py:412-423 | when every consequent's centre of gravity lies in [lo, hi], inference succeeds and any result lies in [lo, hi] |
| Classes.AggregateWithin | src/fuzzylogic/classes.py:423 | the strength-weighted mean of consequent centres in [lo, hi] lies in [lo, hi] |
| Classes.InferSingleRule | src/fuzzylogic/classes.py:412-423 | a one-entry rule that fires returns exactly its consequent's centre of gravity |
| Classes.Plus | src/fuzzylogic/classes.py:391-400 | one step of `sum`: an integer accumulator yields the rule itself, a rule accumulator the merge of both |
| Classes.PySum | src/fuzzylogic/classes.py:395-400 | Python's `sum(rules, start)`: the start value for no rules, otherwise a rule |
| Classes.SumRules | src/fuzzylogic/classes.py:391-393 | the left-to-right merge, absent exactly for no rules |
| Classes.SumRulesContents | src/fuzzylogic/classes.py:391-393 | an antecedent is in the merge exactly when some rule has it, with the consequent of the last rule that has it |
| Classes.PySumIsSumRules | src/fuzzylogic/classes.py:395-400 | `sum(rules)` from an integer start is the start for no rules and the left-to-right merge otherwise |
| Classes.RuleEqualFacts | src/fuzzylogic/classes.py:406-407 | rule equality is reflexive and symmetric |
| Scenarios.TemperatureScenario | tests/test_functionality.py:15-39 | cold = S(0, 15), hot = R(10, 30) and warm = ~cold & ~hot give cold 0.6, hot 0 and warm 0.4 at 6 degrees |
| Scenarios.CallOfThree | src/fuzzylogic/classes.py:79 | a domain with three distinct registered sets reports exactly their three memberships |
| Scenarios.SimpleScenario | tests/test_functionality.py:23-35 | on 0..10 with step 1, S(0, 1) and R(8, 10) sample to the eleven-point arrays of the example |
| Scenarios.RatingScenario | tests/test_functionality.py:42-70 | on the rating domain [1, 10] with `norm = bounded_linear(1, 10)`, `min` at 9, 5, 4 and 8 is 8/9, 4/9, 3/9 and 7/9, and weighting those by 0.3, 0.2, 0.2 and 0.3 gives 6.9 |
| Scenarios.MinOfOne | src/fuzzylogic/classes.py:141-148 | on a domain with one registered set, `min` is that set's membership |

## Left out

- Exponential and logistic constructors (`sigmoid`, `bounded_sigmoid`, `bounded_exponential`, `simple_sigmoid`, `triangular_sigmoid`, `gauss`, in both packages): they need `exp`/`log` and float overflow handling, which the real-number model does not have.
- `gamma_op` (both packages): it raises values to real powers.
- `bounded_linear`'s `g_0`/`g_inf` branches and `R`'s `isinf(high - low)` test: over the reals, with the asserted parameters, a zero or infinite gradient or an infinite width cannot occur.
- `round_partial`'s infinite-resolution case: there is no infinite real.
- Floating point: every computation is exact. The examples (0.6 and 0.4 at 6 degrees, the 6.9 rating) hold exactly in the model, whereas the source gets them through float rounding.
- `math.sqrt` and `**` with a real exponent are parameters, constrained by `Truth.IsSqrt` and `Hedges.PowerLaw`. No numeric value of `x ** 1.25` or `x ** 0.75` is proved.
- The numpy-array branch of `Domain.__call__` and its `warn` on out-of-range values: numpy vectorisation and logging are side effects only.
- Classes.Domain.GetAttr: Python calls `__getattr__` only after ordinary attribute lookup fails (src/fuzzylogic/classes.py:101). A set registered under a name that `Domain` itself defines (`min`, `max`, `range`, or a dunder name such as `__call__`) is stored by `__setattr__`, but `d.min` still returns the bound method. The model does not model ordinary attribute lookup, so `Classes.Domain.GetAttr` and `Classes.Domain.Assign` state that the registered set is found under every name.
- Source assertions taken as caller obligations: the source says that most checks are assertions that may be optimised away and must not be relied on (src/fuzzylogic/classes.py:166). `Classes.Set.Normalized`, `Combinators.Lambda`, `LegacyFunctions.Alpha` and `LegacyFunctions.Singleton` return AssertionError when their assertions fail. The constructors of `functions.dfy` take their assertions as `requires`, as stated above. Apart from these, the following members take the asserted condition as a `requires` and do not model the AssertionError path:
  - `Classes.Domain.constructor`: `low < high` and `res > 0` (classes.py:58-59).
  - `Classes.Set.And`, `Or`, `Mul`, `Add`, `Xor` and `Compare`: equal domains (classes.py:196-260). When exactly one operand has no domain, the source raises AttributeError from `None._name` inside `Domain.__eq__` (classes.py:91) rather than AssertionError; that path is not modelled either.
  - `Classes.Rule.Infer`: the number of inputs equals the largest antecedent size (classes.py:416).
  - `Tools.Rescale`: `in_min < in_max` (tools.py:51).
  - `Tools.WeightedSum`: the weights sum to 1 (tools.py:79).
- The slot branch of `Domain.__setattr__`: the five slot attributes are written only by the constructor. `Classes.Domain.Assign` requires a non-slot identifier.
- Classes.Domain.Assign: the identifier test `Classes.IsIdentifier` accepts only ASCII letters, digits and `_`, not starting with a digit. Python's `str.isidentifier` (src/fuzzylogic/classes.py:114) also accepts Unicode identifiers, which the model rejects. The same holds for `Classes.Domain.AssignFunction`.
- `Domain(sets=d)` shares the caller's dictionary `d`. The model copies it, so later changes through `d` are not seen.
- Classes.Domain.Equals: `Domain.__eq__` compares the two set dictionaries, and so two distinct registered sets through `Set.__eq__`, which raises FuzzyWarning when either has no domain. Such a set can be registered: `Domain(..., sets=d)` (src/fuzzylogic/classes.py:64) stores the sets of `d` as they are, with whatever domain they carry. The model's `SameSetValues` reads that case as unequal, so `Classes.Domain.Equals` gives false where the source raises.
- `__str__`, `__repr__`, `plot` and `__hash__` of both classes: text, matplotlib and identity hashing. Dafny object identity plays the role of `id`.
- `Set.multiplied`: it passes the set itself as the new set's domain (`domain=self`), which a typed model cannot express.
- `Set.__call__` is `s.func(x)`; the model calls `func` directly.
- `Rule(conditions, func)`: the unused `func` attribute and the `frozenset` conversion. Antecedents are Dafny sets already.
- Classes.Rule.Infer: inference reads each consequent's reported centre of gravity without filling its cache. When several consequents raise, it picks one of their errors rather than the first in dictionary order. It does not model the order in which `actual_values` raises KeyError.
- Classes.Rule.Equal: Python's dict comparison (src/fuzzylogic/classes.py:407) returns False at once for tables of different sizes, and otherwise walks the left table in insertion order, stopping at the first missing antecedent or differing consequent. When one consequent pair differs and another raises, the model reports the error, while the source may return False first. Conversely, for two tables of the same size with different antecedent sets, the model gives false, while the source raises FuzzyWarning if a shared antecedent earlier in the order has a consequent without a domain (src/fuzzylogic/classes.py:226-231).
- `defuzz.cog` takes its consequents as (centre, weight) pairs, which is the interface `center_of_gravity()` provides when called as a method. With this version's `Set`, `center_of_gravity` is a property, so calling it would raise TypeError.
- Legacy `fuzzy/classes.py`, `fuzzy/hedges.py` and `fuzzy/truth.py`: they cannot run as written (shared registry, missing `__call__` body, wrong constructor arity, missing `sqrt` import).
- `estimate.py`, `neural_network.py` and the GUI: randomised search, numpy example generation, an HTTP server and a browser UI.

## Findings

| source | as written | input that shows it | evidently intended | confidence | as-written member | corrected member |
|---|---|---|---|---|---|---|
| src/fuzzylogic/functions.py:292-296 | the right side is the complement of a line rising from 0 to `c_m`, so it falls from 1 to `1 - c_m` (likewise fuzzy/functions.py:290-294) | `triangular(0, 2, c=1, c_m=0.5)` is 0.5 at the peak but 0.75 at 1.5 | a right side falling from `c_m` at the peak to 0 at `high` | high, not executed | Functions.TriangularOvershootsPeak | Functions.TriangularPeakedShape |
| fuzzy/functions.py:331-341 | the right slope is the complement of the rising line from `unsupported_m` to `c_m` | `trapezoid(0, 1, 2, 3, c_m=0.5)` is 0.75 at 2.5, above its core height 0.5 | the falling line from `c_m` at `c_right` to `unsupported_m` at `right` | high, not executed | LegacyFunctions.TrapezoidRightSlopeJumps | LegacyFunctions.TrapezoidFacts |
| src/fuzzylogic/combinators.py:52-66 | `lukasiewicz_AND` is `min(1, x + y)` and `lukasiewicz_OR` is `max(0, x + y - 1)` (likewise fuzzy/combinators.py:45-55) | `lukasiewicz_AND` of 0.5 and 0.5 is 1, above both operands | the AND is `max(0, x + y - 1)` and the OR is `min(1, x + y)` | high, not executed | Combinators.LukasiewiczAndExceedsMin | Combinators.LukasiewiczCorrected |
| src/fuzzylogic/classes.py:304-308 | the branch tests the crisp value `x < 0.5`, and the upper branch is `1 - 2 (1 - m^2)` | membership 1 at x = 0 gives 2; membership 0 at x = 1 gives -1 | `2 m^2` for memberships below 0.5, `1 - 2 (1 - m)^2` above | medium, not executed | Classes.IntensifiedLeavesUnit | Classes.IntensifiedIntendedFacts |
| src/fuzzylogic/classes.py:314 | `self.func(x) ** 1./2.` parses as `(m ** 1.0) / 2.0` | full membership 1 becomes 0.5 | the square root `m ** 0.5` | high, not executed | Classes.DilatedHalves | Classes.DilatedIntendedFacts |
| src/fuzzylogic/classes.py:286 | `self.cardinality()` calls the float that the `cardinality` property returns | any set on a valid domain raises TypeError | `self.cardinality / len(self)` | high, not executed | Classes.RelativeCardinalityFails | Classes.RelativeCardinalityIntendedInUnit |

`Set.intensified` and `Set.dilated` keep the code's behaviour in `Classes.Set.Intensified` and `Classes.Set.Dilated`. `Classes.Set.RelativeCardinality` keeps it too. The corrected operators are separate definitions next to them, with their intended properties proved.
