/**
 * The option handling at the top of `main` (ad3.c, lines 257-281): the
 * defaults, the rejection of a non-positive diffusivity, the choice of
 * limiter by name, and the grid size and stencil width that follow from
 * the limiter.  Everything `main` does after that (creating the grid,
 * solving, measuring the error, printing) is outside this model.
 */
module Driver {
  import opened Common
  import opened Limiters
  import opened Grid

  datatype SetupError =
    | InvalidEps(eps: real)        // eps <= 0
    | UnknownLimiter(name: string) // not one of the names in LimiterNames, in any letter case

  /** What `main` hands to the grid and to FormFunctionLocal. */
  datatype Config = Config(
    eps: real,
    limiterType: LimiterType,
    limiter: Option<Limiter>,
    extents: Extents,
    stencilWidth: nat)

  const DefaultEps: real := 1.0
  const DefaultLimiter: LimiterType := CenteredLimiter

  /** The grid requested before any refinement: 6 x 6 x mz, with one more z plane without a limiter. */
  function GridSize(limiter: Option<Limiter>): (e: Extents)
    ensures ValidExtents(e)
    ensures e.mx == 6 && e.my == 6
    ensures limiter.None? ==> e.mz == 6
    ensures limiter.Some? ==> e.mz == 5
  {
    Extents(6, 6, if limiter.None? then 6 else 5)
  }

  /**
   * Reads `-ad3_eps` (None when absent) and `-ad3_limiter` (None when
   * absent), in that order.  The eps check comes before the limiter
   * option is read, so a bad eps is reported even when the limiter name
   * is bad too.
   */
  function Setup(epsOption: Option<real>, limiterOption: Option<string>): (r: Result<Config, SetupError>)
    ensures var eps := if epsOption.Some? then epsOption.value else DefaultEps;
            && (r.Err? && r.error.InvalidEps? <==> eps <= 0.0)
            && (r.Ok? <==> eps > 0.0 && (limiterOption.None? || KnownName(limiterOption.value)))
            && (r.Ok? ==> r.value.eps == eps)
    ensures r.Err? && r.error.UnknownLimiter? ==> limiterOption == Some(r.error.name)
    ensures r.Ok? ==>
              && r.value.eps > 0.0
              && r.value.limiter == LimiterPtr(r.value.limiterType)
              && r.value.stencilWidth == StencilWidth(r.value.limiter)
              && r.value.extents == GridSize(r.value.limiter)
              && (limiterOption.None? ==> r.value.limiterType == DefaultLimiter)
              && (limiterOption.Some? ==> SameIgnoringCase(limiterOption.value, LimiterName(r.value.limiterType)))
  {
    var eps := if epsOption.Some? then epsOption.value else DefaultEps;
    if eps <= 0.0 then Err(InvalidEps(eps))
    else
      var parsed := if limiterOption.Some? then ParseLimiter(limiterOption.value) else Some(DefaultLimiter);
      if parsed.None? then Err(UnknownLimiter(limiterOption.value))
      else
        var t := parsed.value;
        var fn := LimiterPtr(t);
        Ok(Config(eps, t, fn, GridSize(fn), StencilWidth(fn)))
  }

  /** With no options: eps = 1, the centered limiter, a 6 x 6 x 5 grid and stencil width 2. */
  lemma SetupDefaults()
    ensures Setup(None, None) == Ok(Config(1.0, CenteredLimiter, Some(Centered), Extents(6, 6, 5), 2))
  {
  }

  /** Every limiter name is accepted and selects its own enumeration value, for every valid eps. */
  lemma SetupSelectsNamedLimiter(eps: real, t: LimiterType)
    requires eps > 0.0
    ensures Setup(Some(eps), Some(LimiterName(t))).Ok?
    ensures Setup(Some(eps), Some(LimiterName(t))).value.limiterType == t
    ensures Setup(Some(eps), Some(LimiterName(t))).value.stencilWidth == (if t == NoLimiter then 1 else 2)
  {
    ParseName(t);
    TableAndWidth(t);
  }

  /** The limiter name is matched without regard to letter case: "VanLeer" selects van Leer. */
  lemma SetupIgnoresCase(eps: real)
    requires eps > 0.0
    ensures Setup(Some(eps), Some("VanLeer")).Ok?
    ensures Setup(Some(eps), Some("VanLeer")).value.limiter == Some(VanLeer)
  {
    ParseSamples();
  }

  /** A non-positive eps is rejected whatever limiter name accompanies it. */
  lemma EpsCheckedFirst(eps: real, name: Option<string>)
    requires eps <= 0.0
    ensures Setup(Some(eps), name) == Err(InvalidEps(eps))
  {
  }
}
