/**
 * The advective flux through one cell face (ad3.c, lines 204-216): first-order
 * upwinding, plus a limited correction toward the downwind value when a
 * limiter is configured and the face is away from the walls.
 */
module Flux {
  import opened Common
  import opened Limiters

  function Min(a: real, b: real): real { if a <= b then a else b }
  function Max(a: real, b: real): real { if a <= b then b else a }

  /** The upwind value: the lower-index cell's for a >= 0, the upper-index cell's for a < 0. */
  function Upwind(a: real, lo: real, hi: real): real
  {
    if a >= 0.0 then lo else hi
  }

  /** The value on the other side of the face from the upwind cell. */
  function Downwind(a: real, lo: real, hi: real): real
  {
    if a >= 0.0 then hi else lo
  }

  /**
   * The second cell upwind of the face: the one below the lower cell for
   * a >= 0, the one above the upper cell for a < 0.
   */
  function FarUpwind(a: real, loFar: real, hiFar: real): real
  {
    if a >= 0.0 then loFar else hiFar
  }

  /** The smoothness ratio theta; it is only ever formed when the two face values differ. */
  function Ratio(up: real, dn: real, far: real): real
    requires dn != up
  {
    (up - far) / (dn - up)
  }

  /**
   * The value carried through the face: the upwind value, moved toward the
   * downwind value by the limiter's weight when the correction applies.
   */
  function FaceValue(lim: Option<Limiter>, deep: bool, a: real,
                     lo: real, hi: real, loFar: real, hiFar: real): (v: real)
    ensures Min(lo, hi) <= v <= Max(lo, hi)
    ensures lim.None? || !deep || lo == hi ==> v == Upwind(a, lo, hi)
  {
    var up := Upwind(a, lo, hi);
    var dn := Downwind(a, lo, hi);
    if lim.Some? && deep && dn != up then
      var w := Weight(lim.value, Ratio(up, dn, FarUpwind(a, loFar, hiFar)));
      BlendBetween(up, dn, w);
      up + w * (dn - up)
    else
      up
  }

  /** Moving from x toward y by a fraction w in [0, 1] stays between x and y. */
  lemma BlendBetween(x: real, y: real, w: real)
    requires 0.0 <= w <= 1.0
    ensures Min(x, y) <= x + w * (y - x) <= Max(x, y)
  {
    var d := if x <= y then y - x else x - y;
    ProductNonNegative(w, d);
    ProductNonNegative(1.0 - w, d);
    assert (1.0 - w) * d == d - w * d;
    if x > y {
      assert w * (y - x) == -(w * d);
    }
  }

  lemma Distribute(a: real, x: real, w: real, d: real)
    ensures a * x + a * w * d == a * (x + w * d)
  {
  }

  /**
   * The face flux as ad3.c forms it: `a * u_up`, then, for a present limiter
   * on a deep face with `u_dn != u_up`, plus `a * limiter(theta) * (u_dn - u_up)`.
   * `lo`/`hi` are the cells below/above the face and `loFar`/`hiFar` the
   * cells one further out on each side.
   */
  function FaceFlux(lim: Option<Limiter>, deep: bool, a: real,
                    lo: real, hi: real, loFar: real, hiFar: real): (flux: real)
    ensures lim.None? || !deep || lo == hi ==> flux == a * Upwind(a, lo, hi)
  {
    var up := Upwind(a, lo, hi);
    var base := a * up;
    if lim.Some? && deep then
      var dn := Downwind(a, lo, hi);
      if dn != up then
        var theta := Ratio(up, dn, FarUpwind(a, loFar, hiFar));
        var w := Weight(lim.value, theta);
        base + a * w * (dn - up)
      else
        base
    else
      base
  }

  /** The flux is the wind times the value carried through the face. */
  lemma FluxCarriesFaceValue(lim: Option<Limiter>, deep: bool, a: real,
                             lo: real, hi: real, loFar: real, hiFar: real)
    ensures FaceFlux(lim, deep, a, lo, hi, loFar, hiFar) == a * FaceValue(lim, deep, a, lo, hi, loFar, hiFar)
  {
    var up := Upwind(a, lo, hi);
    var dn := Downwind(a, lo, hi);
    if lim.Some? && deep && dn != up {
      var w := Weight(lim.value, Ratio(up, dn, FarUpwind(a, loFar, hiFar)));
      assert FaceValue(lim, deep, a, lo, hi, loFar, hiFar) == up + w * (dn - up);
      assert FaceFlux(lim, deep, a, lo, hi, loFar, hiFar) == a * up + a * w * (dn - up);
      Distribute(a, up, w, dn - up);
    }
  }

  // ---------------------------------------------------------------------
  // Properties
  // ---------------------------------------------------------------------

  /** The sign of the wind picks the upwind side, and the downwind side is the other one. */
  lemma UpwindSelection(a: real, lo: real, hi: real)
    ensures a >= 0.0 ==> Upwind(a, lo, hi) == lo && Downwind(a, lo, hi) == hi
    ensures a < 0.0 ==> Upwind(a, lo, hi) == hi && Downwind(a, lo, hi) == lo
  {
  }

  /**
   * When the correction applies, the flux is `a (u_up + w (u_dn - u_up))`
   * with `w` the limiter's weight at theta, i.e. `a` times a convex
   * combination of the upwind and downwind values.
   */
  lemma CorrectedFlux(l: Limiter, a: real, lo: real, hi: real, loFar: real, hiFar: real)
    requires lo != hi
    ensures var up := Upwind(a, lo, hi);
            var dn := Downwind(a, lo, hi);
            var w := Weight(l, Ratio(up, dn, FarUpwind(a, loFar, hiFar)));
            && 0.0 <= w <= 1.0
            && FaceFlux(Some(l), true, a, lo, hi, loFar, hiFar) == a * ((1.0 - w) * up + w * dn)
  {
  }

  /**
   * Switching the limiter off gives the same flux as a limiter whose
   * correction is suppressed: plain first-order upwinding.
   */
  lemma NoLimiterIsUpwind(l: Limiter, deep: bool, a: real, lo: real, hi: real, loFar: real, hiFar: real)
    ensures FaceFlux(None, deep, a, lo, hi, loFar, hiFar) == FaceFlux(Some(l), false, a, lo, hi, loFar, hiFar)
    ensures FaceFlux(None, deep, a, lo, hi, loFar, hiFar) == a * Upwind(a, lo, hi)
  {
  }

  /**
   * With nonnegative data the flux has the sign of the wind: the limited
   * scheme does not create negative transport from nonnegative values.
   */
  lemma FluxFollowsWind(lim: Option<Limiter>, deep: bool, a: real,
                        lo: real, hi: real, loFar: real, hiFar: real)
    requires lo >= 0.0 && hi >= 0.0
    ensures a >= 0.0 ==> FaceFlux(lim, deep, a, lo, hi, loFar, hiFar) >= 0.0
    ensures a <= 0.0 ==> FaceFlux(lim, deep, a, lo, hi, loFar, hiFar) <= 0.0
  {
    var v := FaceValue(lim, deep, a, lo, hi, loFar, hiFar);
    FluxCarriesFaceValue(lim, deep, a, lo, hi, loFar, hiFar);
    assert v >= 0.0;
    if a >= 0.0 {
      assert a * v >= 0.0;
    } else {
      assert (-a) * v >= 0.0;
    }
  }

  /** A face between two equal values carries `a` times that value, whatever the far values. */
  lemma UniformStateFlux(lim: Option<Limiter>, deep: bool, a: real, c: real, loFar: real, hiFar: real)
    ensures FaceFlux(lim, deep, a, c, c, loFar, hiFar) == a * c
  {
  }
}
