/**
 * Flux limiters of the advection scheme of ad3.c: the two blend-weight
 * functions `centered` and `vanleer`, the `LimiterType` enumeration with its
 * option names, and the table `limiterptr` that maps an enumeration value to
 * a limiter function or to "no limiter".
 */
module Limiters {
  import opened Common

  /** The values of the C enumeration `LimiterType`, in declaration order. */
  datatype LimiterType = NoLimiter | CenteredLimiter | VanLeerLimiter

  /** The functions a non-NULL entry of `limiterptr` can point to. */
  datatype Limiter = Centered | VanLeer

  function Abs(x: real): (r: real)
    ensures r >= 0.0
    ensures r == x || r == -x
  {
    if x < 0.0 then -x else x
  }

  /** `centered`: the weight of the second-order centred correction, whatever theta is. */
  function CenteredWeight(theta: real): real
  {
    0.5
  }

  /**
   * `vanleer`: 0.5 (theta + |theta|) / (1 + |theta|).  The denominator is at
   * least 1, so the function is total.  It vanishes on non-positive ratios
   * and equals theta / (1 + theta) on positive ones.
   */
  function VanLeerWeight(theta: real): (w: real)
    ensures theta <= 0.0 ==> w == 0.0
    ensures theta > 0.0 ==> 0.0 < w < 1.0
    ensures theta > 0.0 ==> w < theta
    ensures theta > 0.0 ==> w * (1.0 + theta) == theta
  {
    var abstheta := Abs(theta);
    assert 1.0 + abstheta >= 1.0;
    0.5 * (theta + abstheta) / (1.0 + abstheta)
  }

  /** Calls the limiter function a table entry points to. */
  function Weight(l: Limiter, theta: real): (w: real)
    ensures 0.0 <= w < 1.0
    ensures l == Centered ==> w == 0.5
    ensures l == VanLeer && theta <= 0.0 ==> w == 0.0
    ensures l == VanLeer && theta > 0.0 ==> 0.0 < w < theta
  {
    match l
    case Centered => CenteredWeight(theta)
    case VanLeer => VanLeerWeight(theta)
  }

  /**
   * The table `limiterptr`: NONE has no limiter function, and each of the
   * two functions is the entry of exactly one enumeration value.
   */
  function LimiterPtr(t: LimiterType): (r: Option<Limiter>)
    ensures r.None? <==> t == NoLimiter
    ensures r == Some(Centered) <==> t == CenteredLimiter
    ensures r == Some(VanLeer) <==> t == VanLeerLimiter
  {
    match t
    case NoLimiter => None
    case CenteredLimiter => Some(Centered)
    case VanLeerLimiter => Some(VanLeer)
  }

  /**
   * Ghost-halo width the grid is created with: 1 for first-order upwinding,
   * 2 when a limiter may read the far-upwind neighbour.
   */
  function StencilWidth(lim: Option<Limiter>): (w: nat)
    ensures 1 <= w <= 2
    ensures w == 1 <==> lim.None?
  {
    if lim.None? then 1 else 2
  }

  /** The option names of `LimiterTypes`, indexed by enumeration value. */
  const LimiterNames: seq<string> := ["none", "centered", "vanleer"]

  function Ordinal(t: LimiterType): (n: nat)
    ensures n < |LimiterNames|
  {
    match t
    case NoLimiter => 0
    case CenteredLimiter => 1
    case VanLeerLimiter => 2
  }

  function LimiterName(t: LimiterType): string
  {
    LimiterNames[Ordinal(t)]
  }

  /** ASCII lower-casing: 'A'..'Z' become 'a'..'z', every other character is kept. */
  function ToLower(ch: char): char
  {
    if 'A' <= ch <= 'Z' then (ch as int + 32) as char else ch
  }

  /** The two strings are equal once both are lower-cased, the comparison PETSc uses for option values. */
  predicate SameIgnoringCase(a: string, b: string)
  {
    |a| == |b| && forall n :: 0 <= n < |a| ==> ToLower(a[n]) == ToLower(b[n])
  }

  /** The option value names some entry of the name table, in any letter case. */
  predicate KnownName(s: string)
  {
    exists n :: 0 <= n < |LimiterNames| && SameIgnoringCase(s, LimiterNames[n])
  }

  /**
   * Looks an option value up in the name table, ignoring letter case as
   * PETSc's enumeration options do; unknown names give `None`.
   */
  function ParseLimiter(s: string): (r: Option<LimiterType>)
    ensures r.Some? <==> KnownName(s)
    ensures r.Some? ==> SameIgnoringCase(s, LimiterName(r.value))
  {
    if SameIgnoringCase(s, LimiterNames[0]) then Some(NoLimiter)
    else if SameIgnoringCase(s, LimiterNames[1]) then Some(CenteredLimiter)
    else if SameIgnoringCase(s, LimiterNames[2]) then Some(VanLeerLimiter)
    else None
  }

  // ---------------------------------------------------------------------
  // Properties of the table
  // ---------------------------------------------------------------------

  /** Every limiter name parses back to its enumeration value. */
  lemma ParseName(t: LimiterType)
    ensures ParseLimiter(LimiterName(t)) == Some(t)
  {
  }

  /** Two spellings that differ only in letter case select the same limiter (or are both rejected). */
  lemma ParseIgnoresCase(s: string, t: string)
    requires SameIgnoringCase(s, t)
    ensures ParseLimiter(s) == ParseLimiter(t)
  {
  }

  /** Sample spellings: "VanLeer" and "NONE" are accepted, "van-leer" and "" are not. */
  lemma ParseSamples()
    ensures ParseLimiter("VanLeer") == Some(VanLeerLimiter)
    ensures ParseLimiter("NONE") == Some(NoLimiter)
    ensures ParseLimiter("Centered") == Some(CenteredLimiter)
    ensures ParseLimiter("van-leer") == None
    ensures ParseLimiter("") == None
  {
    assert ToLower("van-leer"[0]) != ToLower("centered"[0]);
  }

  /**
   * The table maps exactly NONE to "no limiter", and the halo width is 1
   * exactly when there is no limiter.
   */
  lemma TableAndWidth(t: LimiterType)
    ensures LimiterPtr(t).None? <==> t == NoLimiter
    ensures t == CenteredLimiter ==> LimiterPtr(t) == Some(Centered)
    ensures t == VanLeerLimiter ==> LimiterPtr(t) == Some(VanLeer)
    ensures StencilWidth(LimiterPtr(t)) == 1 <==> t == NoLimiter
    ensures StencilWidth(LimiterPtr(t)) == 2 <==> t != NoLimiter
  {
  }

  // ---------------------------------------------------------------------
  // Properties of the limiter functions
  // ---------------------------------------------------------------------

  /** `centered` ignores its argument. */
  lemma CenteredIsConstant(theta1: real, theta2: real)
    ensures Weight(Centered, theta1) == Weight(Centered, theta2) == 0.5
  {
  }

  /** The van Leer weight at the sample ratios -5, -1, -1/2, 0, 1/2, 1 and 5. */
  lemma VanLeerSamples()
    ensures VanLeerWeight(-5.0) == 0.0
    ensures VanLeerWeight(-1.0) == 0.0
    ensures VanLeerWeight(-0.5) == 0.0
    ensures VanLeerWeight(0.0) == 0.0
    ensures VanLeerWeight(0.5) == 1.0 / 3.0
    ensures VanLeerWeight(1.0) == 0.5
    ensures VanLeerWeight(5.0) == 5.0 / 6.0
  {
  }

  /** On smooth data (theta = 1) both limiters give the centred weight 1/2. */
  lemma SecondOrderOnSmoothData(l: Limiter)
    ensures Weight(l, 1.0) == 0.5
  {
  }

  /** The van Leer weight never decreases as the ratio grows. */
  lemma VanLeerMonotone(t1: real, t2: real)
    requires t1 <= t2
    ensures VanLeerWeight(t1) <= VanLeerWeight(t2)
  {
    if t1 > 0.0 {
      var w1, w2 := VanLeerWeight(t1), VanLeerWeight(t2);
      // w = t / (1 + t), so w1 <= w2 is t1 (1 + t2) <= t2 (1 + t1).
      assert w1 * (1.0 + t1) == t1 && w2 * (1.0 + t2) == t2;
      assert (w2 - w1) * ((1.0 + t1) * (1.0 + t2)) == t2 - t1;
      assert (1.0 + t1) * (1.0 + t2) > 0.0;
      SignOfQuotient(w2 - w1, (1.0 + t1) * (1.0 + t2), t2 - t1);
    }
  }

  /**
   * Symmetry of the van Leer limiter: for positive ratios the weight of
   * 1/theta is the weight of theta divided by theta, so a profile and its
   * mirror image are limited alike.
   */
  lemma VanLeerSymmetric(theta: real)
    requires theta > 0.0
    ensures VanLeerWeight(1.0 / theta) == VanLeerWeight(theta) / theta
  {
    var w := VanLeerWeight(theta);
    var v := VanLeerWeight(1.0 / theta);
    assert 1.0 / theta > 0.0;
    assert v * (1.0 + 1.0 / theta) == 1.0 / theta;
    assert v * (theta + 1.0) == 1.0;
    assert w * (1.0 + theta) == theta;
  }

  /** The van Leer weight comes arbitrarily close to 1 for large ratios. */
  lemma VanLeerTendsToOne(delta: real)
    requires 0.0 < delta
    ensures VanLeerWeight(1.0 / delta) > 1.0 - delta
  {
    var t := 1.0 / delta;
    var w := VanLeerWeight(t);
    assert t > 0.0 && t * delta == 1.0;
    assert w * (1.0 + t) == t;
    assert w * (delta + 1.0) == 1.0 by {
      assert w * (1.0 + t) * delta == t * delta;
      assert w * (1.0 + t) * delta == w * (delta + t * delta);
    }
    assert (w - (1.0 - delta)) * (1.0 + delta) == delta * delta by {
      assert (w - (1.0 - delta)) * (1.0 + delta) == w * (1.0 + delta) - (1.0 - delta) * (1.0 + delta);
    }
    assert delta * delta > 0.0;
    SignOfQuotient(w - (1.0 - delta), 1.0 + delta, delta * delta);
  }

  /** A real whose product with a positive factor is (strictly) positive is itself (strictly) positive. */
  lemma SignOfQuotient(x: real, p: real, d: real)
    requires p > 0.0 && x * p == d
    ensures d >= 0.0 ==> x >= 0.0
    ensures d > 0.0 ==> x > 0.0
  {
    if x < 0.0 {
      assert (-x) * p > 0.0;
    }
    if x == 0.0 {
      assert x * p == 0.0;
    }
  }

  /**
   * The van Leer weight stays in the second-order total-variation-
   * diminishing region: zero for theta <= 0, and for theta > 0 at least
   * min(theta, 1)/2 and at most both min(theta, 1) and max(1, theta)/2.  The centred weight does not, since it is 1/2 at theta = 0.
   */
  lemma TvdRegion(theta: real)
    ensures theta <= 0.0 ==> Weight(VanLeer, theta) == 0.0
    ensures theta > 0.0 ==> 0.0 <= Weight(VanLeer, theta) <= theta
    ensures Weight(VanLeer, theta) <= 1.0
    ensures theta > 0.0 ==> Weight(VanLeer, theta) >= (if theta <= 1.0 then theta else 1.0) / 2.0
    ensures 0.0 < theta <= 1.0 ==> Weight(VanLeer, theta) <= 0.5
    ensures theta >= 1.0 ==> Weight(VanLeer, theta) <= theta / 2.0
    ensures Weight(Centered, 0.0) > 0.0
  {
    if theta > 0.0 {
      VanLeerLowerBound(theta);
      VanLeerUpperBound(theta);
    }
  }

  /**
   * The upper edge of the second-order TVD region: on positive ratios the van Leer weight is at most 1/2 up to theta = 1
   * and at most theta / 2 from there on.
   */
  lemma VanLeerUpperBound(theta: real)
    requires theta > 0.0
    ensures theta <= 1.0 ==> VanLeerWeight(theta) <= 0.5
    ensures theta >= 1.0 ==> VanLeerWeight(theta) <= theta / 2.0
  {
    var w := VanLeerWeight(theta);
    var t := 1.0 + theta;
    assert w * t == theta;
    if theta <= 1.0 {
      assert (0.5 - w) * t == 0.5 * t - w * t;
      assert (0.5 - w) * t == (1.0 - theta) / 2.0;
      SignOfQuotient(0.5 - w, t, (1.0 - theta) / 2.0);
    }
    if theta >= 1.0 {
      var gap := theta * (theta - 1.0) / 2.0;
      assert (theta / 2.0 - w) * t == theta / 2.0 * t - w * t;
      assert theta / 2.0 * t == theta / 2.0 + theta * theta / 2.0;
      assert (theta / 2.0 - w) * t == gap;
      assert gap >= 0.0 by { ProductNonNegative(theta, theta - 1.0); }
      SignOfQuotient(theta / 2.0 - w, t, gap);
    }
  }

  /**
   * The lower edge of the second-order TVD region: on positive ratios the
   * van Leer weight is at least min(theta, 1) / 2.
   */
  lemma VanLeerLowerBound(theta: real)
    requires theta > 0.0
    ensures VanLeerWeight(theta) >= (if theta <= 1.0 then theta else 1.0) / 2.0
  {
    var w := VanLeerWeight(theta);
    var t := 1.0 + theta;
    assert w * t == theta;
    if theta <= 1.0 {
      var gap := theta * (1.0 - theta) / 2.0;
      assert (w - theta / 2.0) * t == w * t - theta / 2.0 * t;
      assert theta / 2.0 * t == theta / 2.0 + theta * theta / 2.0;
      assert (w - theta / 2.0) * t == gap;
      assert gap >= 0.0 by { ProductNonNegative(theta, 1.0 - theta); }
      SignOfQuotient(w - theta / 2.0, t, gap);
    } else {
      assert (w - 0.5) * t == w * t - 0.5 * t;
      assert (w - 0.5) * t == (theta - 1.0) / 2.0;
      SignOfQuotient(w - 0.5, t, (theta - 1.0) / 2.0);
    }
  }

  /** The product of two non-negative reals is non-negative. */
  lemma ProductNonNegative(x: real, y: real)
    requires 0.0 <= x && 0.0 <= y
    ensures 0.0 <= x * y
  {
  }

}
