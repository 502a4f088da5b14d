/** Raw scores made comparable (src/legacy_judge.rs), over the reals. The logarithm is any function that
    increases strictly on the positive numbers and is zero at one. */
module Rescale {
  import opened Wrappers

  ghost predicate Logarithm(ln: real -> real) {
    ln(1.0) == 0.0 && forall x, y :: 0.0 < x < y ==> ln(x) < ln(y)
  }

  datatype Kind =
    | Linear | MinLinear | MinLinearPositive | MinInverseAnchor | CompressionRatioCroppedGuarded
    | LogAnchor | LogMax | LogMin | Log1pMax | PiecewiseMax | PiecewiseMin | PiecewiseLogMin
    | OtherKind

  /** The numbers of a rescale specification; a field that is missing or not a number is `None`. */
  datatype Spec = Spec(
    kind: Kind, lower: Option<real>, upper: Option<real>, baseline: Option<real>, expert: Option<real>,
    anchorRaw: Option<real>, anchorScore: Option<real>,
    rank30: Option<real>, rank1: Option<real>, superAnchor: Option<real>)

  datatype Raw = Finite(x: real) | NotFinite

  datatype RescaleError = MissingField | UnsupportedKind

  function Clamp(x: real, low: real, high: real): (y: real)
    requires low <= high
    ensures low <= y <= high
    ensures low <= x <= high ==> y == x
  {
    if x < low then low else if x > high then high else x
  }

  /** A product by name, so that proofs can pass it on as it is. */
  function Product(x: real, y: real): real {
    x * y
  }

  function Scale(numerator: real, denominator: real): real {
    if denominator == 0.0 then 0.0 else numerator / denominator
  }

  function Field(value: Option<real>): Result<real, RescaleError> {
    if value.Some? then Ok(value.value) else Err(MissingField)
  }

  // ------------------------------------------------------------------------------ piecewise

  /** The four anchors, from the raw score worth nothing to the one worth everything. */
  datatype Anchors = Anchors(baseline: real, rank30: real, rank1: real, super: real)

  predicate Ascending(a: Anchors) {
    a.baseline < a.rank30 < a.rank1 < a.super
  }

  predicate Descending(a: Anchors) {
    a.baseline > a.rank30 > a.rank1 > a.super
  }

  predicate AllPositive(a: Anchors) {
    a.baseline > 0.0 && a.rank30 > 0.0 && a.rank1 > 0.0 && a.super > 0.0
  }

  function Transformed(ln: real -> real, logarithmic: bool, x: real): real {
    if logarithmic then ln(x) else x
  }

  /** How far `raw` has come from one anchor to the next. */
  function Fraction(ln: real -> real, logarithmic: bool, raw: real, from: real, to: real): real {
    Scale(Transformed(ln, logarithmic, raw) - Transformed(ln, logarithmic, from),
          Transformed(ln, logarithmic, to) - Transformed(ln, logarithmic, from))
  }

  function Interpolated(fraction: real, low: real, high: real): (r: real)
    requires low <= high
    ensures low <= r <= high
  {
    Clamp(low + Product(fraction, high - low), low, high)
  }

  /** The score of `raw` between two anchors with scores `low` and `high`. */
  function Between(ln: real -> real, logarithmic: bool, raw: real, from: real, to: real, low: real, high: real): (r: real)
    requires low <= high
    ensures low <= r <= high
  {
    Interpolated(Fraction(ln, logarithmic, raw, from, to), low, high)
  }

  function Piecewise(ln: real -> real, raw: real, a: Anchors, minimize: bool, logarithmic: bool): real {
    var ordered := if minimize then Descending(a) else Ascending(a);
    if !ordered || (logarithmic && !AllPositive(a)) then 0.0
    else if minimize && raw <= 0.0 then 0.0
    else if logarithmic && raw <= 0.0 then 0.0
    else if if minimize then raw >= a.baseline else raw <= a.baseline then 0.0
    else if if minimize then raw <= a.super else raw >= a.super then 100.0
    else if if minimize then a.rank30 <= raw <= a.baseline else a.baseline <= raw <= a.rank30 then
      Between(ln, logarithmic, raw, a.baseline, a.rank30, 0.0, 20.0)
    else if if minimize then a.rank1 <= raw <= a.rank30 else a.rank30 <= raw <= a.rank1 then
      Between(ln, logarithmic, raw, a.rank30, a.rank1, 20.0, 80.0)
    else if if minimize then a.super <= raw <= a.rank1 else a.rank1 <= raw <= a.super then
      Between(ln, logarithmic, raw, a.rank1, a.super, 80.0, 100.0)
    else 0.0
  }

  // ----------------------------------------------------------------------- all twelve kinds

  function AnchorsOf(spec: Spec): Result<Anchors, RescaleError> {
    var baseline :- Field(spec.baseline);
    var rank30 :- Field(spec.rank30);
    var rank1 :- Field(spec.rank1);
    var super :- Field(spec.superAnchor);
    Ok(Anchors(baseline, rank30, rank1, super))
  }

  function PiecewiseOf(ln: real -> real, raw: real, spec: Spec, minimize: bool, logarithmic: bool)
    : Result<real, RescaleError>
  {
    var a :- AnchorsOf(spec);
    Ok(Piecewise(ln, raw, a, minimize, logarithmic))
  }

  function TowardsExpert(raw: real, spec: Spec): Result<real, RescaleError> {
    var baseline :- Field(spec.baseline);
    var expert :- Field(spec.expert);
    Ok(Scale(100.0 * (baseline - raw), baseline - expert))
  }

  /** The fields that a kind reads for this raw score are there. */
  predicate Answered(spec: Spec, raw: real) {
    match spec.kind
    case Linear => spec.lower.Some? && spec.upper.Some?
    case MinLinearPositive => raw <= 0.0 || (spec.baseline.Some? && spec.expert.Some?)
    case CompressionRatioCroppedGuarded => raw < 0.05 || (spec.baseline.Some? && spec.expert.Some?)
    case MinInverseAnchor =>
      spec.anchorRaw.Some? && (raw <= 0.0 || spec.anchorRaw.value <= 0.0 || spec.anchorScore.Some?)
    case LogAnchor =>
      spec.anchorRaw.Some? && (raw <= 1.0 || spec.anchorRaw.value <= 1.0 || spec.anchorScore.Some?)
    case Log1pMax => spec.baseline.Some? && spec.upper.Some?
    case OtherKind => false
    case MinLinear => spec.baseline.Some? && spec.expert.Some?
    case LogMax => spec.baseline.Some? && spec.expert.Some?
    case LogMin => spec.baseline.Some? && spec.expert.Some?
    case _ => spec.baseline.Some? && spec.rank30.Some? && spec.rank1.Some? && spec.superAnchor.Some?
  }

  /** The score in percent, before it is clamped. */
  function Percent(ln: real -> real, spec: Spec, raw: real): (r: Result<real, RescaleError>)
    ensures r.Err? <==> !Answered(spec, raw)
    ensures r == Err(UnsupportedKind) <==> spec.kind == OtherKind
  {
    match spec.kind
    case Linear =>
      var lower :- Field(spec.lower);
      var upper :- Field(spec.upper);
      Ok(Scale(100.0 * (raw - lower), upper - lower))
    case MinLinear => TowardsExpert(raw, spec)
    case MinLinearPositive => if raw <= 0.0 then Ok(0.0) else TowardsExpert(raw, spec)
    case MinInverseAnchor =>
      var anchorRaw :- Field(spec.anchorRaw);
      if raw <= 0.0 || anchorRaw <= 0.0 then Ok(0.0)
      else
        var anchorScore :- Field(spec.anchorScore);
        Ok(Product(anchorScore, anchorRaw) / raw)
    case CompressionRatioCroppedGuarded => if raw < 0.05 then Ok(0.0) else TowardsExpert(raw, spec)
    case LogAnchor =>
      var anchorRaw :- Field(spec.anchorRaw);
      if raw <= 1.0 || anchorRaw <= 1.0 then Ok(0.0)
      else
        var anchorScore :- Field(spec.anchorScore);
        Ok(Scale(Product(anchorScore, ln(raw)), ln(anchorRaw)))
    case LogMax =>
      var baseline :- Field(spec.baseline);
      var expert :- Field(spec.expert);
      if raw <= 0.0 || baseline <= 0.0 || expert <= 0.0 || baseline == expert then Ok(0.0)
      else Ok(Scale(100.0 * ln(raw / baseline), ln(expert / baseline)))
    case LogMin =>
      var baseline :- Field(spec.baseline);
      var expert :- Field(spec.expert);
      if raw <= 0.0 || baseline <= 0.0 || expert <= 0.0 || baseline == expert then Ok(0.0)
      else Ok(Scale(100.0 * ln(baseline / raw), ln(baseline / expert)))
    case Log1pMax =>
      var baseline :- Field(spec.baseline);
      var upper :- Field(spec.upper);
      if raw <= 0.0 || baseline <= 0.0 || upper <= 0.0 then Ok(0.0)
      else Ok(Scale(100.0 * ln(1.0 + raw / baseline), ln(1.0 + upper / baseline)))
    case PiecewiseMax => PiecewiseOf(ln, raw, spec, false, false)
    case PiecewiseMin => PiecewiseOf(ln, raw, spec, true, false)
    case PiecewiseLogMin => PiecewiseOf(ln, raw, spec, true, true)
    case OtherKind => Err(UnsupportedKind)
  }

  function Worth(percent: real): (w: real)
    ensures 0.0 <= w <= 1.0
  {
    Clamp(percent, 0.0, 100.0) / 100.0
  }

  function NormalizeRaw(ln: real -> real, spec: Option<Spec>, raw: Raw): (r: Result<real, RescaleError>)
    ensures r.Ok? ==> 0.0 <= r.value <= 1.0
    ensures r.Err? <==> raw.Finite? && spec.Some? && !Answered(spec.value, raw.x)
    ensures r == Err(UnsupportedKind) <==> raw.Finite? && spec.Some? && spec.value.kind == OtherKind
    ensures raw.NotFinite? ==> r == Ok(0.0)
    ensures raw.Finite? && spec.None? ==>
      r == Ok(if raw.x <= 0.0 then 0.0 else if raw.x >= 100.0 then 1.0 else raw.x / 100.0)
    ensures raw.Finite? && spec.Some? && r.Ok? ==>
      var percent := Percent(ln, spec.value, raw.x).value;
      r.value == if percent <= 0.0 then 0.0 else if percent >= 100.0 then 1.0 else percent / 100.0
  {
    if raw.NotFinite? then Ok(0.0)
    else if spec.None? then Ok(Worth(raw.x))
    else
      var percent :- Percent(ln, spec.value, raw.x);
      Ok(Worth(percent))
  }

  // ------------------------------------------------------------------------------- fractions

  /** A larger part of a positive whole, and a smaller part of a negative one, is a larger fraction. */
  lemma FractionsCompare(m: real, n: real, whole: real)
    requires if whole > 0.0 then m <= n else whole < 0.0 && m >= n
    ensures m / whole <= n / whole
  {
    var difference := (n - m) / whole;
    assert n / whole - m / whole == difference;
  }

  lemma FractionsStrict(m: real, n: real, whole: real)
    requires if whole > 0.0 then m < n else whole < 0.0 && m > n
    ensures m / whole < n / whole
  {
    FractionsCompare(m, n, whole);
    assert m == m / whole * whole && n == n / whole * whole;
  }

  lemma WholeOfItself(whole: real)
    requires whole != 0.0
    ensures whole / whole == 1.0 && 0.0 / whole == 0.0
  {
  }

  lemma ProductsAdd(m: real, n: real, span: real)
    ensures Product(m, span) + Product(n, span) == Product(m + n, span)
  {
  }

  lemma ProductIsPositive(fraction: real, span: real)
    requires fraction >= 0.0 && span >= 0.0
    ensures Product(fraction, span) >= 0.0
    ensures fraction > 0.0 && span > 0.0 ==> Product(fraction, span) > 0.0
  {
  }

  lemma WholeProduct(span: real)
    ensures Product(1.0, span) == span && Product(0.0, span) == 0.0
  {
  }

  lemma InterpolationRises(m: real, n: real, low: real, high: real)
    requires m <= n && low <= high
    ensures Interpolated(m, low, high) <= Interpolated(n, low, high)
  {
    ProductsAdd(m, n - m, high - low);
    ProductIsPositive(n - m, high - low);
    hide Product;
  }

  lemma InterpolationMeetsTheEnds(fraction: real, low: real, high: real)
    requires low < high
    ensures fraction == 0.0 ==> Interpolated(fraction, low, high) == low
    ensures fraction == 1.0 ==> Interpolated(fraction, low, high) == high
    ensures 0.0 < fraction < 1.0 ==> low < Interpolated(fraction, low, high) < high
  {
    WholeProduct(high - low);
    ProductsAdd(fraction, 1.0 - fraction, high - low);
    if 0.0 < fraction < 1.0 {
      ProductIsPositive(fraction, high - low);
      ProductIsPositive(1.0 - fraction, high - low);
    }
    hide Product;
  }

  // ------------------------------------------------------------ one segment between two anchors

  /** The transformed scale runs from `from` to `to` and passes `x` no later than `y`. */
  predicate Passes(ln: real -> real, logarithmic: bool, from: real, to: real, x: real, y: real) {
    var (f, t) := (Transformed(ln, logarithmic, from), Transformed(ln, logarithmic, to));
    var (u, v) := (Transformed(ln, logarithmic, x), Transformed(ln, logarithmic, y));
    if f < t then u <= v else f > t && u >= v
  }

  lemma BetweenIsMonotone(
    ln: real -> real, logarithmic: bool, from: real, to: real, x: real, y: real, low: real, high: real)
    requires low <= high && Passes(ln, logarithmic, from, to, x, y)
    ensures Between(ln, logarithmic, x, from, to, low, high) <= Between(ln, logarithmic, y, from, to, low, high)
  {
    var whole := Transformed(ln, logarithmic, to) - Transformed(ln, logarithmic, from);
    var m := Transformed(ln, logarithmic, x) - Transformed(ln, logarithmic, from);
    var n := Transformed(ln, logarithmic, y) - Transformed(ln, logarithmic, from);
    FractionsCompare(m, n, whole);
    InterpolationRises(
      Fraction(ln, logarithmic, x, from, to), Fraction(ln, logarithmic, y, from, to), low, high);
    hide Interpolated, Transformed;
  }

  lemma BetweenAtTheEnds(ln: real -> real, logarithmic: bool, from: real, to: real, low: real, high: real)
    requires low < high && Transformed(ln, logarithmic, from) != Transformed(ln, logarithmic, to)
    ensures Between(ln, logarithmic, from, from, to, low, high) == low
    ensures Between(ln, logarithmic, to, from, to, low, high) == high
  {
    var whole := Transformed(ln, logarithmic, to) - Transformed(ln, logarithmic, from);
    WholeOfItself(whole);
    InterpolationMeetsTheEnds(0.0, low, high);
    InterpolationMeetsTheEnds(1.0, low, high);
    hide Interpolated, Transformed;
  }

  /** Strictly between the anchors the score is strictly between theirs. */
  lemma BetweenIsStrict(ln: real -> real, logarithmic: bool, from: real, to: real, x: real, low: real, high: real)
    requires low < high
    requires
      var (f, t, u) := (Transformed(ln, logarithmic, from), Transformed(ln, logarithmic, to),
                        Transformed(ln, logarithmic, x));
      f < u < t || f > u > t
    ensures low < Between(ln, logarithmic, x, from, to, low, high) < high
  {
    var whole := Transformed(ln, logarithmic, to) - Transformed(ln, logarithmic, from);
    var part := Transformed(ln, logarithmic, x) - Transformed(ln, logarithmic, from);
    FractionsStrict(0.0, part, whole);
    FractionsStrict(part, whole, whole);
    WholeOfItself(whole);
    InterpolationMeetsTheEnds(part / whole, low, high);
    hide Interpolated, Transformed;
  }

  // --------------------------------------------------------------------- the piecewise kinds

  /** The three ways in which the piecewise score is used. */
  predicate Supported(minimize: bool, logarithmic: bool) {
    logarithmic ==> minimize
  }

  predicate WellOrdered(a: Anchors, minimize: bool, logarithmic: bool) {
    && (if minimize then Descending(a) else Ascending(a))
    && (logarithmic ==> AllPositive(a))
  }

  lemma PiecewiseIsBounded(ln: real -> real, raw: real, a: Anchors, minimize: bool, logarithmic: bool)
    ensures 0.0 <= Piecewise(ln, raw, a, minimize, logarithmic) <= 100.0
  {
    hide Between;
  }

  /** What is worth everything: for a maximising kind reaching the last anchor, for a minimising kind the
      same from above, among positive raw scores. */
  predicate Full(raw: real, a: Anchors, minimize: bool) {
    if minimize then 0.0 < raw <= a.super else raw >= a.super
  }

  predicate Worthless(raw: real, a: Anchors, minimize: bool) {
    if minimize then raw <= 0.0 || raw >= a.baseline else raw <= a.baseline
  }

  /** Full marks and no marks are given exactly where the anchors say, and nowhere in between. */
  lemma MarksAtTheEnds(ln: real -> real, raw: real, a: Anchors, minimize: bool, logarithmic: bool)
    requires Logarithm(ln) && Supported(minimize, logarithmic) && WellOrdered(a, minimize, logarithmic)
    ensures Piecewise(ln, raw, a, minimize, logarithmic) == 100.0 <==> Full(raw, a, minimize)
    ensures Piecewise(ln, raw, a, minimize, logarithmic) == 0.0 <==> Worthless(raw, a, minimize)
  {
    if minimize && a.super < raw < a.baseline && raw > 0.0 {
      Inside(ln, logarithmic, raw, a.baseline, a.rank30, 0.0, 20.0);
      Inside(ln, logarithmic, raw, a.rank1, a.super, 80.0, 100.0);
    } else if !minimize && a.baseline < raw < a.super {
      Inside(ln, logarithmic, raw, a.baseline, a.rank30, 0.0, 20.0);
      Inside(ln, logarithmic, raw, a.rank1, a.super, 80.0, 100.0);
    }
    hide Between, Logarithm;
  }

  /** Away from an end of a segment the score of that end is not reached. */
  lemma Inside(ln: real -> real, logarithmic: bool, raw: real, from: real, to: real, low: real, high: real)
    requires Logarithm(ln) && low < high && from != to
    requires logarithmic ==> raw > 0.0 && from > 0.0 && to > 0.0
    ensures (from < raw <= to || from > raw >= to) ==> Between(ln, logarithmic, raw, from, to, low, high) > low
    ensures (from <= raw < to || from >= raw > to) ==> Between(ln, logarithmic, raw, from, to, low, high) < high
  {
    BetweenAtTheEnds(ln, logarithmic, from, to, low, high);
    if from < raw < to || from > raw > to {
      BetweenIsStrict(ln, logarithmic, from, to, raw, low, high);
    }
    hide Between;
  }

  /** The inner anchors have their scores; at the outer ones the score is 0 and 100. For the minimising
      kinds the anchors have to be positive. */
  lemma AnchorsHaveTheirScores(ln: real -> real, a: Anchors, minimize: bool, logarithmic: bool)
    requires Logarithm(ln) && Supported(minimize, logarithmic) && WellOrdered(a, minimize, logarithmic)
    requires minimize ==> AllPositive(a)
    ensures Piecewise(ln, a.baseline, a, minimize, logarithmic) == 0.0
    ensures Piecewise(ln, a.rank30, a, minimize, logarithmic) == 20.0
    ensures Piecewise(ln, a.rank1, a, minimize, logarithmic) == 80.0
    ensures Piecewise(ln, a.super, a, minimize, logarithmic) == 100.0
  {
    hide Between, Interpolated, Fraction, Scale;
    assert Transformed(ln, logarithmic, a.baseline) != Transformed(ln, logarithmic, a.rank30);
    assert Transformed(ln, logarithmic, a.rank30) != Transformed(ln, logarithmic, a.rank1);
    hide Transformed, Logarithm;
    BetweenAtTheEnds(ln, logarithmic, a.baseline, a.rank30, 0.0, 20.0);
    BetweenAtTheEnds(ln, logarithmic, a.rank30, a.rank1, 20.0, 80.0);
  }

  /** Maximising: a greater raw score never gets a lower score. */
  lemma MaximisingRises(ln: real -> real, a: Anchors, x: real, y: real)
    requires x <= y
    ensures Piecewise(ln, x, a, false, false) <= Piecewise(ln, y, a, false, false)
  {
    if Ascending(a) {
      BetweenIsMonotone(ln, false, a.baseline, a.rank30, x, y, 0.0, 20.0);
      BetweenIsMonotone(ln, false, a.rank30, a.rank1, x, y, 20.0, 80.0);
      BetweenIsMonotone(ln, false, a.rank1, a.super, x, y, 80.0, 100.0);
    }
    hide Between;
  }

  /** Minimising: among positive raw scores, a smaller one never gets a lower score. */
  lemma MinimisingFalls(ln: real -> real, a: Anchors, x: real, y: real, logarithmic: bool)
    requires Logarithm(ln) && 0.0 < x <= y
    ensures Piecewise(ln, x, a, true, logarithmic) >= Piecewise(ln, y, a, true, logarithmic)
  {
    if WellOrdered(a, true, logarithmic) {
      assert logarithmic ==> ln(a.super) < ln(a.rank1) < ln(a.rank30) < ln(a.baseline);
      assert logarithmic ==> ln(x) <= ln(y);
      BetweenIsMonotone(ln, logarithmic, a.baseline, a.rank30, y, x, 0.0, 20.0);
      BetweenIsMonotone(ln, logarithmic, a.rank30, a.rank1, y, x, 20.0, 80.0);
      BetweenIsMonotone(ln, logarithmic, a.rank1, a.super, y, x, 80.0, 100.0);
    }
    hide Between;
  }

  /** Exactly when a smaller raw score does not get a lower score from a minimising kind: it is positive, or
      the greater one is worth nothing anyway. At and below zero the scale drops to nothing. */
  lemma MinimisingFallsExactlyWhen(ln: real -> real, a: Anchors, x: real, y: real, logarithmic: bool)
    requires Logarithm(ln) && WellOrdered(a, true, logarithmic) && x <= y
    ensures Piecewise(ln, x, a, true, logarithmic) >= Piecewise(ln, y, a, true, logarithmic)
            <==> x > 0.0 || Worthless(y, a, true)
  {
    MarksAtTheEnds(ln, x, a, true, logarithmic);
    MarksAtTheEnds(ln, y, a, true, logarithmic);
    PiecewiseIsBounded(ln, y, a, true, logarithmic);
    if x > 0.0 {
      MinimisingFalls(ln, a, x, y, logarithmic);
    }
    hide Piecewise, Logarithm;
  }

  // ------------------------------------------------------------------------- the other kinds

  predicate Maximising(kind: Kind) {
    kind in {Linear, LogAnchor, LogMax, Log1pMax, PiecewiseMax}
  }

  /** The specification is complete and its anchors lie in the direction of its kind. */
  predicate Sensible(spec: Spec) {
    match spec.kind
    case Linear => spec.lower.Some? && spec.upper.Some? && spec.lower.value < spec.upper.value
    case MinInverseAnchor => spec.anchorRaw.Some? && spec.anchorScore.Some? && spec.anchorScore.value >= 0.0
    case LogAnchor => spec.anchorRaw.Some? && spec.anchorScore.Some? && spec.anchorScore.value >= 0.0
    case LogMax => spec.baseline.Some? && spec.expert.Some? && spec.baseline.value < spec.expert.value
    case Log1pMax => spec.baseline.Some? && spec.upper.Some?
    case PiecewiseMax => AnchorsOf(spec).Ok?
    case PiecewiseMin => AnchorsOf(spec).Ok?
    case PiecewiseLogMin => AnchorsOf(spec).Ok?
    case OtherKind => false
    case _ => spec.baseline.Some? && spec.expert.Some? && spec.expert.value < spec.baseline.value
  }

  /** Raw scores that a minimising kind compares; below them it gives nothing. */
  predicate Comparable(kind: Kind, raw: real) {
    match kind
    case MinLinear => true
    case CompressionRatioCroppedGuarded => raw >= 0.05
    case _ => raw > 0.0
  }

  function Normalized(ln: real -> real, spec: Spec, raw: real): real {
    var r := NormalizeRaw(ln, Some(spec), Finite(raw));
    if r.Ok? then r.value else 0.0
  }

  lemma ReciprocalFalls(c: real, x: real, y: real)
    requires c >= 0.0 && 0.0 < x <= y
    ensures c / y <= c / x
  {
    var q := c / x;
    QuotientTimesDivisor(c, x);
    FractionsCompare(0.0, c, x);
    WholeOfItself(x);
    ProductRises(q, x, y);
    FractionsCompare(c, Product(q, y), y);
    ProductOverDivisor(q, y);
  }

  lemma QuotientTimesDivisor(c: real, x: real)
    requires x != 0.0
    ensures Product(c / x, x) == c
  {
  }

  lemma ProductOverDivisor(q: real, y: real)
    requires y != 0.0
    ensures Product(q, y) / y == q
  {
  }

  lemma AboveOne(x: real, base: real)
    requires 0.0 < base < x
    ensures x / base > 1.0
  {
    FractionsStrict(base, x, base);
    WholeOfItself(base);
  }

  lemma QuotientIsPositive(x: real, y: real)
    requires x > 0.0 && y > 0.0
    ensures x / y > 0.0
  {
    FractionsStrict(0.0, x, y);
    WholeOfItself(y);
  }

  lemma TowardsExpertFalls(spec: Spec, x: real, y: real)
    requires spec.baseline.Some? && spec.expert.Some? && spec.expert.value < spec.baseline.value
    requires x <= y
    ensures TowardsExpert(y, spec).value <= TowardsExpert(x, spec).value
  {
    FractionsCompare(100.0 * (spec.baseline.value - y), 100.0 * (spec.baseline.value - x),
                     spec.baseline.value - spec.expert.value);
  }

  lemma LinearRises(spec: Spec, x: real, y: real)
    requires spec.kind == Linear && Sensible(spec) && x <= y
    ensures
      Scale(100.0 * (x - spec.lower.value), spec.upper.value - spec.lower.value)
      <= Scale(100.0 * (y - spec.lower.value), spec.upper.value - spec.lower.value)
  {
    FractionsCompare(100.0 * (x - spec.lower.value), 100.0 * (y - spec.lower.value),
                     spec.upper.value - spec.lower.value);
  }

  lemma LogAnchorRises(ln: real -> real, score: real, anchor: real, x: real, y: real)
    requires Logarithm(ln) && score >= 0.0 && anchor > 1.0 && 1.0 < x <= y
    ensures 0.0 <= Scale(Product(score, ln(x)), ln(anchor)) <= Scale(Product(score, ln(y)), ln(anchor))
  {
    var u, v, whole := ln(x), ln(y), ln(anchor);
    assert whole > 0.0 && 0.0 < u <= v;
    hide Product, Logarithm;
    ProductRises(score, u, v);
    WholeOfItself(whole);
    FractionsCompare(0.0, Product(score, u), whole);
    FractionsCompare(Product(score, u), Product(score, v), whole);
  }

  lemma ProductRises(x: real, u: real, v: real)
    requires x >= 0.0 && 0.0 <= u <= v
    ensures 0.0 <= Product(x, u) <= Product(x, v)
  {
    assert x * (v - u) >= 0.0;
    assert x * v == x * u + x * (v - u);
  }

  /** A ratio on the logarithmic scale, in percent of the best ratio. */
  lemma LogRatioRises(ln: real -> real, u: real, v: real, best: real)
    requires Logarithm(ln) && 0.0 < u <= v && best > 1.0
    ensures Scale(100.0 * ln(u), ln(best)) <= Scale(100.0 * ln(v), ln(best))
    ensures u >= 1.0 ==> Scale(100.0 * ln(u), ln(best)) >= 0.0
  {
    assert ln(best) > 0.0 && ln(u) <= ln(v);
    FractionsCompare(100.0 * ln(u), 100.0 * ln(v), ln(best));
    if u >= 1.0 {
      assert ln(u) >= 0.0;
      FractionsCompare(0.0, 100.0 * ln(u), ln(best));
    }
  }

  lemma WorthRises(p: real, q: real)
    requires p <= q
    ensures Worth(p) <= Worth(q)
  {
  }

  lemma LogAnchorKind(ln: real -> real, spec: Spec, x: real, y: real)
    requires Logarithm(ln) && Sensible(spec) && spec.kind == LogAnchor && x <= y
    ensures Percent(ln, spec, x).value <= Percent(ln, spec, y).value
  {
    if y > 1.0 && spec.anchorRaw.value > 1.0 {
      LogAnchorRises(ln, spec.anchorScore.value, spec.anchorRaw.value, y, y);
      if x > 1.0 {
        LogAnchorRises(ln, spec.anchorScore.value, spec.anchorRaw.value, x, y);
      }
    }
    hide Scale, Logarithm;
  }

  /** Below the baseline the percentage is negative, which is worth as little as zero. */
  lemma LogMaxKind(ln: real -> real, spec: Spec, x: real, y: real)
    requires Logarithm(ln) && Sensible(spec) && spec.kind == LogMax && x <= y
    ensures Normalized(ln, spec, x) <= Normalized(ln, spec, y)
  {
    var base := spec.baseline.value;
    if x > 0.0 && base > 0.0 {
      QuotientIsPositive(x, base);
      FractionsCompare(x, y, base);
      AboveOne(spec.expert.value, base);
      LogRatioRises(ln, x / base, y / base, spec.expert.value / base);
      hide Scale, Logarithm, Worth;
      WorthRises(Percent(ln, spec, x).value, Percent(ln, spec, y).value);
    }
  }

  lemma Log1pMaxKind(ln: real -> real, spec: Spec, x: real, y: real)
    requires Logarithm(ln) && Sensible(spec) && spec.kind == Log1pMax && x <= y
    ensures Normalized(ln, spec, x) <= Normalized(ln, spec, y)
  {
    var base := spec.baseline.value;
    if x > 0.0 && base > 0.0 && spec.upper.value > 0.0 {
      QuotientIsPositive(x, base);
      QuotientIsPositive(spec.upper.value, base);
      FractionsCompare(x, y, base);
      LogRatioRises(ln, 1.0 + x / base, 1.0 + y / base, 1.0 + spec.upper.value / base);
      hide Scale, Logarithm, Worth;
      WorthRises(Percent(ln, spec, x).value, Percent(ln, spec, y).value);
    }
  }

  lemma MinInverseKind(ln: real -> real, spec: Spec, x: real, y: real)
    requires Sensible(spec) && spec.kind == MinInverseAnchor && 0.0 < x <= y
    ensures Percent(ln, spec, x).value >= Percent(ln, spec, y).value
  {
    if spec.anchorRaw.value > 0.0 {
      var c := Product(spec.anchorScore.value, spec.anchorRaw.value);
      ProductIsPositive(spec.anchorScore.value, spec.anchorRaw.value);
      hide Product;
      ReciprocalFalls(c, x, y);
    }
  }

  lemma LogMinKind(ln: real -> real, spec: Spec, x: real, y: real)
    requires Logarithm(ln) && Sensible(spec) && spec.kind == LogMin && 0.0 < x <= y
    ensures Percent(ln, spec, x).value >= Percent(ln, spec, y).value
  {
    var base := spec.baseline.value;
    if base > 0.0 && spec.expert.value > 0.0 {
      QuotientIsPositive(base, y);
      ReciprocalFalls(base, x, y);
      AboveOne(base, spec.expert.value);
      LogRatioRises(ln, base / y, base / x, base / spec.expert.value);
      hide Scale, Logarithm;
    }
  }

  lemma NormalizedIs(ln: real -> real, spec: Spec, raw: real)
    requires Percent(ln, spec, raw).Ok?
    ensures Normalized(ln, spec, raw) == Worth(Percent(ln, spec, raw).value)
  {
  }

  lemma SensibleIsAnswered(ln: real -> real, spec: Spec, raw: real)
    requires Sensible(spec)
    ensures Percent(ln, spec, raw).Ok?
  {
    hide Scale, Piecewise;
  }

  /** For every maximising kind a greater raw score never gets a lower score. */
  lemma GreaterIsNeverWorse(ln: real -> real, spec: Spec, x: real, y: real)
    requires Logarithm(ln) && Sensible(spec) && Maximising(spec.kind) && x <= y
    ensures Normalized(ln, spec, x) <= Normalized(ln, spec, y)
  {
    SensibleIsAnswered(ln, spec, x);
    SensibleIsAnswered(ln, spec, y);
    NormalizedIs(ln, spec, x);
    NormalizedIs(ln, spec, y);
    hide Normalized, Scale, Logarithm, Piecewise, Worth;
    if spec.kind == LogMax {
      LogMaxKind(ln, spec, x, y);
    } else if spec.kind == Log1pMax {
      Log1pMaxKind(ln, spec, x, y);
    } else {
      if spec.kind == Linear {
        LinearRises(spec, x, y);
      } else if spec.kind == LogAnchor {
        LogAnchorKind(ln, spec, x, y);
      } else {
        MaximisingRises(ln, AnchorsOf(spec).value, x, y);
      }
      WorthRises(Percent(ln, spec, x).value, Percent(ln, spec, y).value);
    }
  }

  /** For every minimising kind a smaller raw score, of those it compares, never gets a lower score. */
  lemma SmallerIsNeverWorse(ln: real -> real, spec: Spec, x: real, y: real)
    requires Logarithm(ln) && Sensible(spec) && !Maximising(spec.kind) && x <= y
    requires Comparable(spec.kind, x)
    ensures Normalized(ln, spec, x) >= Normalized(ln, spec, y)
  {
    SensibleIsAnswered(ln, spec, x);
    SensibleIsAnswered(ln, spec, y);
    NormalizedIs(ln, spec, x);
    NormalizedIs(ln, spec, y);
    hide Normalized, Scale, Logarithm, Piecewise, Worth, TowardsExpert;
    if spec.kind == MinInverseAnchor {
      MinInverseKind(ln, spec, x, y);
    } else if spec.kind == LogMin {
      LogMinKind(ln, spec, x, y);
    } else if spec.kind == PiecewiseMin || spec.kind == PiecewiseLogMin {
      MinimisingFalls(ln, AnchorsOf(spec).value, x, y, spec.kind == PiecewiseLogMin);
    } else {
      TowardsExpertFalls(spec, x, y);
    }
    WorthRises(Percent(ln, spec, y).value, Percent(ln, spec, x).value);
  }

  // --------------------------------------------------- where the minimising kinds stop comparing

  /** The raw scores that a minimising kind takes for worthless. */
  predicate Nothing(spec: Spec, raw: real)
    requires Sensible(spec) && !Maximising(spec.kind)
  {
    match spec.kind
    case MinLinear => raw >= spec.baseline.value
    case MinLinearPositive => raw <= 0.0 || raw >= spec.baseline.value
    case CompressionRatioCroppedGuarded => raw < 0.05 || raw >= spec.baseline.value
    case MinInverseAnchor => raw <= 0.0 || spec.anchorRaw.value <= 0.0 || spec.anchorScore.value == 0.0
    case LogMin => raw <= 0.0 || raw >= spec.baseline.value || spec.expert.value <= 0.0
    case PiecewiseMin => Unranked(AnchorsOf(spec).value, raw, false)
    case PiecewiseLogMin => Unranked(AnchorsOf(spec).value, raw, true)
    case _ => false
  }

  predicate Unranked(a: Anchors, raw: real, logarithmic: bool) {
    !WellOrdered(a, true, logarithmic) || Worthless(raw, a, true)
  }

  lemma WorthNothing(percent: real)
    ensures Worth(percent) == 0.0 <==> percent <= 0.0
  {
  }

  lemma SignOfQuotient(m: real, whole: real)
    requires whole > 0.0
    ensures m / whole <= 0.0 <==> m <= 0.0
  {
    WholeOfItself(whole);
    if m <= 0.0 {
      FractionsCompare(m, 0.0, whole);
    } else {
      FractionsStrict(0.0, m, whole);
    }
  }

  lemma InverseIsNothing(ln: real -> real, spec: Spec, raw: real)
    requires Sensible(spec) && spec.kind == MinInverseAnchor
    ensures Percent(ln, spec, raw).value <= 0.0 <==> Nothing(spec, raw)
  {
    var score, anchor := spec.anchorScore.value, spec.anchorRaw.value;
    if raw > 0.0 && anchor > 0.0 {
      ProductIsPositive(score, anchor);
      assert score == 0.0 ==> Product(score, anchor) == 0.0;
      SignOfQuotient(Product(score, anchor), raw);
      hide Product;
    }
  }

  lemma LogMinIsNothing(ln: real -> real, spec: Spec, raw: real)
    requires Logarithm(ln) && Sensible(spec) && spec.kind == LogMin
    ensures Percent(ln, spec, raw).value <= 0.0 <==> Nothing(spec, raw)
  {
    var base, expert := spec.baseline.value, spec.expert.value;
    if raw > 0.0 && base > 0.0 && expert > 0.0 {
      AboveOne(base, expert);
      QuotientIsPositive(base, raw);
      WholeOfItself(raw);
      if raw < base {
        AboveOne(base, raw);
      } else {
        FractionsCompare(base, raw, raw);
      }
      assert ln(base / raw) <= 0.0 <==> raw >= base;
      SignOfQuotient(100.0 * ln(base / raw), ln(base / expert));
      hide Logarithm;
    }
  }

  lemma TowardsExpertIsNothing(spec: Spec, raw: real)
    requires spec.baseline.Some? && spec.expert.Some? && spec.expert.value < spec.baseline.value
    ensures TowardsExpert(raw, spec).value <= 0.0 <==> raw >= spec.baseline.value
  {
    SignOfQuotient(100.0 * (spec.baseline.value - raw), spec.baseline.value - spec.expert.value);
  }

  lemma PiecewiseIsNothing(ln: real -> real, spec: Spec, raw: real)
    requires Logarithm(ln) && Sensible(spec) && spec.kind in {PiecewiseMin, PiecewiseLogMin}
    ensures Percent(ln, spec, raw).value <= 0.0 <==> Nothing(spec, raw)
  {
    var a, logarithmic := AnchorsOf(spec).value, spec.kind == PiecewiseLogMin;
    PiecewiseIsBounded(ln, raw, a, true, logarithmic);
    if WellOrdered(a, true, logarithmic) {
      MarksAtTheEnds(ln, raw, a, true, logarithmic);
    }
    hide Between, Logarithm;
  }

  /** A minimising kind gives nothing exactly to the raw scores it takes for worthless. */
  lemma NothingExactly(ln: real -> real, spec: Spec, raw: real)
    requires Logarithm(ln) && Sensible(spec) && !Maximising(spec.kind)
    ensures Normalized(ln, spec, raw) == 0.0 <==> Nothing(spec, raw)
  {
    SensibleIsAnswered(ln, spec, raw);
    NormalizedIs(ln, spec, raw);
    WorthNothing(Percent(ln, spec, raw).value);
    hide Normalized, Worth, Scale, Logarithm, Piecewise;
    if spec.kind == MinInverseAnchor {
      InverseIsNothing(ln, spec, raw);
    } else if spec.kind == LogMin {
      LogMinIsNothing(ln, spec, raw);
    } else if spec.kind in {PiecewiseMin, PiecewiseLogMin} {
      PiecewiseIsNothing(ln, spec, raw);
    } else {
      TowardsExpertIsNothing(spec, raw);
      hide TowardsExpert;
    }
  }

  /** For every minimising kind and any two raw scores, the smaller one is not worse exactly if the kind
      compares it or the greater one is worth nothing. */
  lemma SmallerIsNotWorseExactlyWhen(ln: real -> real, spec: Spec, x: real, y: real)
    requires Logarithm(ln) && Sensible(spec) && !Maximising(spec.kind) && x <= y
    ensures Normalized(ln, spec, x) >= Normalized(ln, spec, y) <==> Comparable(spec.kind, x) || Nothing(spec, y)
  {
    NothingExactly(ln, spec, x);
    NothingExactly(ln, spec, y);
    NormalizedIsShare(ln, spec, y);
    if Comparable(spec.kind, x) {
      SmallerIsNeverWorse(ln, spec, x, y);
    }
    hide Normalized, Logarithm, AnchorsOf, WellOrdered;
  }

  lemma NormalizedIsShare(ln: real -> real, spec: Spec, raw: real)
    ensures 0.0 <= Normalized(ln, spec, raw) <= 1.0
  {
    hide Percent;
  }

  // ---------------------------------------------------------- the scores of the anchors, in percent

  /** The linear kinds give nothing at their first anchor and everything at their last. */
  lemma LinearEnds(ln: real -> real, spec: Spec)
    requires Sensible(spec)
    ensures spec.kind == Linear ==>
      Percent(ln, spec, spec.lower.value) == Ok(0.0) && Percent(ln, spec, spec.upper.value) == Ok(100.0)
    ensures spec.kind == MinLinear || (spec.kind == MinLinearPositive && spec.expert.value > 0.0)
            || (spec.kind == CompressionRatioCroppedGuarded && spec.expert.value >= 0.05) ==>
      Percent(ln, spec, spec.baseline.value) == Ok(0.0) && Percent(ln, spec, spec.expert.value) == Ok(100.0)
  {
    if spec.kind == Linear {
      PartOfWhole(100.0, spec.upper.value - spec.lower.value);
    } else if spec.kind in {MinLinear, MinLinearPositive, CompressionRatioCroppedGuarded} {
      PartOfWhole(100.0, spec.baseline.value - spec.expert.value);
    }
  }

  /** So do the logarithmic kinds that have two anchors, which have to be positive. */
  lemma LogEnds(ln: real -> real, spec: Spec)
    requires Logarithm(ln) && Sensible(spec) && spec.kind in {LogMax, LogMin}
    requires spec.baseline.value > 0.0 && spec.expert.value > 0.0
    ensures Percent(ln, spec, spec.baseline.value) == Ok(0.0)
    ensures Percent(ln, spec, spec.expert.value) == Ok(100.0)
  {
    var base, expert := spec.baseline.value, spec.expert.value;
    WholeOfItself(base);
    if spec.kind == LogMax {
      AboveOne(expert, base);
      PartOfWhole(100.0, ln(expert / base));
    } else {
      AboveOne(base, expert);
      PartOfWhole(100.0, ln(base / expert));
    }
    hide Logarithm;
  }

  /** The kinds with one anchor give its score there. */
  lemma AnchorScores(ln: real -> real, spec: Spec)
    requires Logarithm(ln) && Sensible(spec)
    ensures spec.kind == LogAnchor && spec.anchorRaw.value > 1.0 ==>
      Percent(ln, spec, spec.anchorRaw.value) == Ok(spec.anchorScore.value)
    ensures spec.kind == MinInverseAnchor && spec.anchorRaw.value > 0.0 ==>
      Percent(ln, spec, spec.anchorRaw.value) == Ok(spec.anchorScore.value)
    ensures spec.kind == Log1pMax && spec.baseline.value > 0.0 && spec.upper.value > 0.0 ==>
      Percent(ln, spec, spec.upper.value) == Ok(100.0)
  {
    if spec.kind == LogAnchor && spec.anchorRaw.value > 1.0 {
      ProductOverDivisor(spec.anchorScore.value, ln(spec.anchorRaw.value));
    } else if spec.kind == MinInverseAnchor && spec.anchorRaw.value > 0.0 {
      ProductOverDivisor(spec.anchorScore.value, spec.anchorRaw.value);
    } else if spec.kind == Log1pMax && spec.baseline.value > 0.0 && spec.upper.value > 0.0 {
      QuotientIsPositive(spec.upper.value, spec.baseline.value);
      PartOfWhole(100.0, ln(1.0 + spec.upper.value / spec.baseline.value));
    }
    hide Product;
  }

  lemma PartOfWhole(c: real, whole: real)
    requires whole != 0.0
    ensures Scale(c * whole, whole) == c && Scale(c * 0.0, whole) == 0.0
  {
    ProductOverDivisor(c, whole);
    WholeOfItself(whole);
  }

  // ------------------------------------------------------------- the answers in full, kind by kind

  /** The answer is the share, kept between nothing and everything. */
  predicate IsShare(answer: Result<real, RescaleError>, share: real) {
    answer == Ok(if share <= 0.0 then 0.0 else if share >= 1.0 then 1.0 else share)
  }

  lemma HundredTimes(m: real, whole: real)
    requires whole != 0.0
    ensures 100.0 * m / whole == 100.0 * (m / whole)
  {
  }

  lemma PercentIsShare(ln: real -> real, spec: Spec, raw: real, share: real)
    requires Percent(ln, spec, raw) == Ok(100.0 * share)
    ensures IsShare(NormalizeRaw(ln, Some(spec), Finite(raw)), share)
  {
    hide Percent;
  }

  /** Linear: the part of the way from the lower to the upper bound. */
  lemma LinearAnswer(ln: real -> real, spec: Spec, raw: real, lower: real, upper: real)
    requires spec.kind == Linear && spec.lower == Some(lower) && spec.upper == Some(upper) && lower != upper
    ensures IsShare(NormalizeRaw(ln, Some(spec), Finite(raw)), (raw - lower) / (upper - lower))
  {
    HundredTimes(raw - lower, upper - lower);
    PercentIsShare(ln, spec, raw, (raw - lower) / (upper - lower));
    hide NormalizeRaw;
  }

  /** The linear minimising kinds: the part of the way from the baseline to the expert, above the cut-off. */
  lemma TowardsExpertAnswer(ln: real -> real, spec: Spec, raw: real, baseline: real, expert: real)
    requires spec.kind in {MinLinear, MinLinearPositive, CompressionRatioCroppedGuarded}
    requires spec.baseline == Some(baseline) && spec.expert == Some(expert) && baseline != expert
    ensures
      var answer := NormalizeRaw(ln, Some(spec), Finite(raw));
      if (spec.kind == MinLinearPositive && raw <= 0.0) || (spec.kind == CompressionRatioCroppedGuarded && raw < 0.05)
      then answer == Ok(0.0)
      else IsShare(answer, (baseline - raw) / (baseline - expert))
  {
    HundredTimes(baseline - raw, baseline - expert);
    var answer := Percent(ln, spec, raw);
    if answer == Ok(100.0 * ((baseline - raw) / (baseline - expert))) {
      PercentIsShare(ln, spec, raw, (baseline - raw) / (baseline - expert));
    }
    hide NormalizeRaw;
  }

  /** The answer is the part of the whole that has been reached. */
  predicate IsPart(answer: Result<real, RescaleError>, part: real, whole: real) {
    whole != 0.0 && IsShare(answer, part / whole)
  }

  lemma PartIsShare(ln: real -> real, spec: Spec, raw: real, part: real, whole: real)
    requires whole != 0.0 && Percent(ln, spec, raw) == Ok(Scale(100.0 * part, whole))
    ensures IsPart(NormalizeRaw(ln, Some(spec), Finite(raw)), part, whole)
  {
    HundredTimes(part, whole);
    PercentIsShare(ln, spec, raw, part / whole);
    hide Percent, NormalizeRaw, IsShare;
  }

  lemma NothingIsNothing(ln: real -> real, spec: Spec, raw: real)
    requires Percent(ln, spec, raw) == Ok(0.0)
    ensures NormalizeRaw(ln, Some(spec), Finite(raw)) == Ok(0.0)
  {
    hide Percent;
  }

  /** The inverse kind: the anchor's score, more for less in proportion. */
  lemma InverseAnswer(ln: real -> real, spec: Spec, raw: real, anchor: real, score: real)
    requires spec.kind == MinInverseAnchor && spec.anchorRaw == Some(anchor) && spec.anchorScore == Some(score)
    ensures
      var answer := NormalizeRaw(ln, Some(spec), Finite(raw));
      if raw <= 0.0 || anchor <= 0.0 then answer == Ok(0.0) else IsPart(answer, score * anchor / 100.0, raw)
  {
    if raw <= 0.0 || anchor <= 0.0 {
      NothingIsNothing(ln, spec, raw);
    } else {
      var product := score * anchor;
      assert Product(score, anchor) == product && 100.0 * (product / 100.0) == product;
      PartIsShare(ln, spec, raw, product / 100.0, raw);
    }
    hide *;
  }

  /** The logarithmic kind with one anchor: the anchor's score in proportion to the logarithm. */
  lemma LogAnchorAnswer(ln: real -> real, spec: Spec, raw: real, anchor: real, score: real)
    requires Logarithm(ln) && spec.kind == LogAnchor
    requires spec.anchorRaw == Some(anchor) && spec.anchorScore == Some(score)
    ensures
      var answer := NormalizeRaw(ln, Some(spec), Finite(raw));
      if raw <= 1.0 || anchor <= 1.0 then answer == Ok(0.0)
      else IsPart(answer, score * ln(raw) / 100.0, ln(anchor))
  {
    if raw <= 1.0 || anchor <= 1.0 {
      NothingIsNothing(ln, spec, raw);
    } else {
      assert ln(1.0) < ln(anchor);
      var product := score * ln(raw);
      assert Product(score, ln(raw)) == product && 100.0 * (product / 100.0) == product;
      PartIsShare(ln, spec, raw, product / 100.0, ln(anchor));
    }
    hide *;
  }

  /** The kinds with two positive anchors: the ratio of the logarithms. */
  lemma LogMaxAnswer(ln: real -> real, spec: Spec, raw: real, baseline: real, expert: real)
    requires Logarithm(ln) && spec.kind == LogMax && spec.baseline == Some(baseline) && spec.expert == Some(expert)
    ensures
      var answer := NormalizeRaw(ln, Some(spec), Finite(raw));
      if raw <= 0.0 || baseline <= 0.0 || expert <= 0.0 || baseline == expert then answer == Ok(0.0)
      else IsPart(answer, ln(raw / baseline), ln(expert / baseline))
  {
    if raw <= 0.0 || baseline <= 0.0 || expert <= 0.0 || baseline == expert {
      NothingIsNothing(ln, spec, raw);
    } else {
      RatioIsNotOne(expert, baseline);
      LogarithmIsNotZero(ln, expert / baseline);
      var part, whole := ln(raw / baseline), ln(expert / baseline);
      assert Percent(ln, spec, raw) == Ok(Scale(100.0 * part, whole));
      hide *;
      PartIsShare(ln, spec, raw, part, whole);
    }
    hide *;
  }

  lemma LogMinAnswer(ln: real -> real, spec: Spec, raw: real, baseline: real, expert: real)
    requires Logarithm(ln) && spec.kind == LogMin && spec.baseline == Some(baseline) && spec.expert == Some(expert)
    ensures
      var answer := NormalizeRaw(ln, Some(spec), Finite(raw));
      if raw <= 0.0 || baseline <= 0.0 || expert <= 0.0 || baseline == expert then answer == Ok(0.0)
      else IsPart(answer, ln(baseline / raw), ln(baseline / expert))
  {
    if raw <= 0.0 || baseline <= 0.0 || expert <= 0.0 || baseline == expert {
      NothingIsNothing(ln, spec, raw);
    } else {
      RatioIsNotOne(baseline, expert);
      LogarithmIsNotZero(ln, baseline / expert);
      var part, whole := ln(baseline / raw), ln(baseline / expert);
      assert Percent(ln, spec, raw) == Ok(Scale(100.0 * part, whole));
      hide *;
      PartIsShare(ln, spec, raw, part, whole);
    }
    hide *;
  }

  lemma Log1pMaxAnswer(ln: real -> real, spec: Spec, raw: real, baseline: real, upper: real)
    requires Logarithm(ln) && spec.kind == Log1pMax && spec.baseline == Some(baseline) && spec.upper == Some(upper)
    ensures
      var answer := NormalizeRaw(ln, Some(spec), Finite(raw));
      if raw <= 0.0 || baseline <= 0.0 || upper <= 0.0 then answer == Ok(0.0)
      else IsPart(answer, ln(1.0 + raw / baseline), ln(1.0 + upper / baseline))
  {
    if raw <= 0.0 || baseline <= 0.0 || upper <= 0.0 {
      NothingIsNothing(ln, spec, raw);
    } else {
      QuotientIsPositive(upper, baseline);
      LogarithmIsNotZero(ln, 1.0 + upper / baseline);
      var part, whole := ln(1.0 + raw / baseline), ln(1.0 + upper / baseline);
      assert Percent(ln, spec, raw) == Ok(Scale(100.0 * part, whole));
      hide *;
      PartIsShare(ln, spec, raw, part, whole);
    }
    hide *;
  }

  lemma RatioIsNotOne(x: real, y: real)
    requires x > 0.0 && y > 0.0 && x != y
    ensures x / y > 0.0 && x / y != 1.0
  {
    QuotientIsPositive(x, y);
    WholeOfItself(y);
    if x > y {
      FractionsStrict(y, x, y);
    } else {
      FractionsStrict(x, y, y);
    }
  }

  lemma LogarithmIsNotZero(ln: real -> real, x: real)
    requires Logarithm(ln) && x > 0.0 && x != 1.0
    ensures ln(x) != 0.0
  {
    assert x > 1.0 ==> ln(1.0) < ln(x);
    assert x < 1.0 ==> ln(x) < ln(1.0);
  }

  /** The value lies between two scores as the part lies within the whole. */
  predicate InProportion(value: real, low: real, high: real, part: real, whole: real) {
    whole != 0.0 && value == low + part / whole * (high - low)
  }

  /** Inside a segment the clamp changes nothing. */
  lemma BetweenIsInProportion(
    ln: real -> real, logarithmic: bool, raw: real, from: real, to: real, low: real, high: real)
    requires Logarithm(ln) && low < high && from != to && (from <= raw <= to || from >= raw >= to)
    requires logarithmic ==> raw > 0.0 && from > 0.0 && to > 0.0
    ensures
      var between := Between(ln, logarithmic, raw, from, to, low, high);
      if logarithmic then InProportion(between, low, high, ln(raw) - ln(from), ln(to) - ln(from))
      else InProportion(between, low, high, raw - from, to - from)
  {
    var u, f, w := if logarithmic then ln(raw) else raw, if logarithmic then ln(from) else from,
                   if logarithmic then ln(to) else to;
    assert Fraction(ln, logarithmic, raw, from, to) == Scale(u - f, w - f);
    assert f < w <==> from < to;
    hide Fraction, Logarithm;
    FractionIsPart(u - f, w - f);
    InterpolatedIs((u - f) / (w - f), low, high);
  }

  lemma FractionIsPart(part: real, whole: real)
    requires if whole > 0.0 then 0.0 <= part <= whole else whole < 0.0 && 0.0 >= part >= whole
    ensures 0.0 <= part / whole <= 1.0
  {
    FractionsCompare(0.0, part, whole);
    FractionsCompare(part, whole, whole);
    WholeOfItself(whole);
  }

  lemma InterpolatedIs(fraction: real, low: real, high: real)
    requires low < high && 0.0 <= fraction <= 1.0
    ensures Interpolated(fraction, low, high) == low + fraction * (high - low)
  {
    var span := high - low;
    ProductIsPositive(fraction, span);
    ProductIsPositive(1.0 - fraction, span);
    ProductsAdd(fraction, 1.0 - fraction, span);
    WholeProduct(span);
    assert Product(fraction, span) == fraction * span;
    hide Product;
  }

  /** The raw score has come as far as the anchor. */
  predicate Reached(raw: real, anchor: real, minimize: bool) {
    if minimize then raw <= anchor else raw >= anchor
  }

  /** The piecewise score: nothing up to the first anchor, everything from the last, and between two anchors
      their scores in proportion, on the linear or the logarithmic scale. */
  lemma PiecewiseIs(ln: real -> real, raw: real, a: Anchors, minimize: bool, logarithmic: bool)
    requires Logarithm(ln) && Supported(minimize, logarithmic) && WellOrdered(a, minimize, logarithmic)
    ensures
      var score := Piecewise(ln, raw, a, minimize, logarithmic);
      var t := (x: real) => if logarithmic then ln(x) else x;
      if (minimize && raw <= 0.0) || !Reached(raw, a.baseline, minimize) then score == 0.0
      else if Reached(raw, a.super, minimize) then score == 100.0
      else if Reached(raw, a.rank1, minimize) then
        InProportion(score, 80.0, 100.0, t(raw) - t(a.rank1), t(a.super) - t(a.rank1))
      else if Reached(raw, a.rank30, minimize) then
        InProportion(score, 20.0, 80.0, t(raw) - t(a.rank30), t(a.rank1) - t(a.rank30))
      else InProportion(score, 0.0, 20.0, t(raw) - t(a.baseline), t(a.rank30) - t(a.baseline))
  {
    PiecewiseBySegment(ln, raw, a, minimize, logarithmic);
    if (minimize && raw <= 0.0) || !Reached(raw, a.baseline, minimize) || Reached(raw, a.super, minimize) {
    } else if Reached(raw, a.rank1, minimize) {
      BetweenIsInProportion(ln, logarithmic, raw, a.rank1, a.super, 80.0, 100.0);
    } else if Reached(raw, a.rank30, minimize) {
      BetweenIsInProportion(ln, logarithmic, raw, a.rank30, a.rank1, 20.0, 80.0);
    } else {
      BetweenIsInProportion(ln, logarithmic, raw, a.baseline, a.rank30, 0.0, 20.0);
    }
    hide Piecewise, Between, InProportion, Logarithm;
  }

  /** At an inner anchor the two segments meet. */
  lemma PiecewiseBySegment(ln: real -> real, raw: real, a: Anchors, minimize: bool, logarithmic: bool)
    requires Logarithm(ln) && Supported(minimize, logarithmic) && WellOrdered(a, minimize, logarithmic)
    ensures
      var score := Piecewise(ln, raw, a, minimize, logarithmic);
      if (minimize && raw <= 0.0) || !Reached(raw, a.baseline, minimize) then score == 0.0
      else if Reached(raw, a.super, minimize) then score == 100.0
      else if Reached(raw, a.rank1, minimize) then
        score == Between(ln, logarithmic, raw, a.rank1, a.super, 80.0, 100.0)
      else if Reached(raw, a.rank30, minimize) then
        score == Between(ln, logarithmic, raw, a.rank30, a.rank1, 20.0, 80.0)
      else score == Between(ln, logarithmic, raw, a.baseline, a.rank30, 0.0, 20.0)
  {
    if raw == a.rank1 && (minimize ==> raw > 0.0) {
      assert Reached(raw, a.super, minimize) == false;
      if Transformed(ln, logarithmic, a.rank1) != Transformed(ln, logarithmic, a.super) {
        BetweenAtTheEnds(ln, logarithmic, a.rank1, a.super, 80.0, 100.0);
      }
      if Transformed(ln, logarithmic, a.rank30) != Transformed(ln, logarithmic, a.rank1) {
        BetweenAtTheEnds(ln, logarithmic, a.rank30, a.rank1, 20.0, 80.0);
      }
    }
    if raw == a.rank30 && (minimize ==> raw > 0.0) {
      if Transformed(ln, logarithmic, a.rank30) != Transformed(ln, logarithmic, a.rank1) {
        BetweenAtTheEnds(ln, logarithmic, a.rank30, a.rank1, 20.0, 80.0);
      }
      if Transformed(ln, logarithmic, a.baseline) != Transformed(ln, logarithmic, a.rank30) {
        BetweenAtTheEnds(ln, logarithmic, a.baseline, a.rank30, 0.0, 20.0);
      }
    }
    hide Between;
  }

  /** The answer of the piecewise kinds is that score in percent. */
  lemma PiecewiseAnswer(ln: real -> real, spec: Spec, raw: real, a: Anchors)
    requires spec.kind in {PiecewiseMax, PiecewiseMin, PiecewiseLogMin}
    requires spec.baseline == Some(a.baseline) && spec.rank30 == Some(a.rank30)
    requires spec.rank1 == Some(a.rank1) && spec.superAnchor == Some(a.super)
    ensures NormalizeRaw(ln, Some(spec), Finite(raw))
            == Ok(Piecewise(ln, raw, a, spec.kind != PiecewiseMax, spec.kind == PiecewiseLogMin) / 100.0)
  {
    PiecewiseIsBounded(ln, raw, a, spec.kind != PiecewiseMax, spec.kind == PiecewiseLogMin);
    hide Piecewise;
  }
}
