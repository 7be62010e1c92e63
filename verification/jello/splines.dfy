/** The tangent of a clamped spline control point, `ClampedSplineTangent`
    of `ClampedSplines.swift`: the gradient is kept within [-50, 50], and
    the weight is either absent, meaning the default of one third, or
    kept within [0, 1]. A weight within two units in the last place of one
    third is taken for the default and dropped. Numbers are real numbers;
    one third is exact. */
module Splines {
  import opened Results

  /** `Float.ulpOfOne`, 2^-23. */
  const UlpOfOne: real := 1.0 / 8388608.0

  const DefaultWeight: real := 1.0 / 3.0

  datatype Tangent = Tangent(gradient: real, weight: Option<real>)

  datatype ControlPointType = Aligned | Broken | Flat

  datatype SplinePoint = SplinePoint(x: real, y: real)

  /** `ClampedSplineControlPoint`: its initialiser stores its arguments. */
  datatype ControlPoint = ControlPoint(kind: ControlPointType, position: SplinePoint, startTangent: Option<Tangent>, endTangent: Option<Tangent>)

  function Abs(x: real): real {
    if x < 0.0 then -x else x
  }

  /** `max(lo, min(hi, x))`. */
  function Clamp(x: real, lo: real, hi: real): (r: real)
    requires lo <= hi
    ensures lo <= r <= hi
    ensures lo <= x <= hi ==> r == x
  {
    if x < lo then lo else if x > hi then hi else x
  }

  /** Whether a weight is taken for the default. */
  predicate NearDefault(w: real) {
    Abs(w - DefaultWeight) < 2.0 * UlpOfOne
  }

  /** `init(gradient:weight:)`. */
  function MakeTangent(gradient: real, weight: Option<real>): (t: Tangent)
    ensures -50.0 <= t.gradient <= 50.0
    ensures t.weight.Some? ==> 0.0 <= t.weight.value <= 1.0
    ensures t.weight.Some? <==> weight.Some? && !NearDefault(weight.value)
  {
    var w := match weight
      case None => None
      case Some(w) => if NearDefault(w) then None else Some(Clamp(w, 0.0, 1.0));
    Tangent(Clamp(gradient, -50.0, 50.0), w)
  }

  /** `init(gradient:)`: no weight. */
  function TangentOfGradient(gradient: real): (t: Tangent)
    ensures t.weight.None? && -50.0 <= t.gradient <= 50.0
  {
    MakeTangent(gradient, None)
  }

  /** A tangent already in range is stored as given, and building a
      tangent from a stored one changes nothing. */
  lemma MakeTangentNormalises(gradient: real, weight: Option<real>)
    ensures -50.0 <= gradient <= 50.0 ==> MakeTangent(gradient, weight).gradient == gradient
    ensures weight.Some? && 0.0 <= weight.value <= 1.0 && !NearDefault(weight.value) ==>
      MakeTangent(gradient, weight).weight == weight
    ensures var t := MakeTangent(gradient, weight); MakeTangent(t.gradient, t.weight) == t
  {
    var t := MakeTangent(gradient, weight);
    if weight.Some? && !NearDefault(weight.value) {
      var w := weight.value;
      var c := Clamp(w, 0.0, 1.0);
      assert !NearDefault(c) by {
        if w < 0.0 || w > 1.0 {
          assert c == 0.0 || c == 1.0;
        }
      }
    }
  }

  /** The default weight itself, and any weight close enough to it, is
      dropped, like an absent weight. */
  lemma DefaultWeightDropped(gradient: real, w: real)
    requires Abs(w - DefaultWeight) < 2.0 * UlpOfOne
    ensures MakeTangent(gradient, Some(w)) == TangentOfGradient(gradient)
    ensures MakeTangent(gradient, Some(DefaultWeight)) == TangentOfGradient(gradient)
  {
  }
}
