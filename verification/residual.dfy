/**
 * The residual of FormFunctionLocal (ad3.c, lines 145-243) for
 *     - eps Laplacian u + div(a u) = g(x,y,z,u)
 * on [-1,1]^3, with u = b(y,z) on the wall x = 1, u = 0 on the walls
 * x = -1, y = -1 and y = 1, and z periodic.
 *
 * This module defines the pieces one pass of the loop nest is made of (the
 * per-cell terms, the face fluxes, the scatter of a flux to the two cells
 * beside its face) and, cell by cell, the value the pass leaves in the
 * residual array (`ResidualAt`).  The module `Assembly` runs the loop nest
 * itself and proves that it produces `ResidualAt`.
 */
module Residual {
  import opened Common
  import opened Limiters
  import opened Flux
  import opened Grid

  /**
   * The local ghosted input array `au`: u(c) is `au[k][j][i]`.  Values at
   * ghost indices are whatever the caller's halo exchange put there.
   */
  type Field = Cell -> real

  /**
   * The application context: diffusivity, wind a(x,y,z,q) (component q),
   * source g(x,y,z,u), boundary data b(y,z) on x = 1, and the limiter
   * function (None when `limiterptr` gave NULL).
   */
  datatype Problem = Problem(
    eps: real,
    wind: (real, real, real, int) -> real,
    source: (real, real, real, real) -> real,
    bdry: (real, real) -> real,
    limiter: Option<Limiter>)

  /**
   * Which reading of FormFunctionLocal to follow.  `AsWritten` keeps the
   * source's control flow: the z flux sits under `case 3` of a switch on
   * q in {0,1,2}, so it is never scattered; the flux is added to the lower
   * cell under the guards `i > 0` and `j > 0` alone; and the i and j loops
   * start at the first owned index.  `Repaired` scatters the z flux, adds a
   * flux only to owned cells off the walls, and starts the i and j loops one
   * index early (as the k loop already does) so that the face a process
   * shares with its lower neighbour is accounted for.
   */
  datatype Scheme = AsWritten | Repaired

  /** The cell n steps from c along axis q. */
  function Shift(c: Cell, q: int, n: int): Cell
  {
    Cell(c.i + (if q == 0 then n else 0),
         c.j + (if q == 1 then n else 0),
         c.k + (if q == 2 then n else 0))
  }

  // ---------------------------------------------------------------------
  // Per-cell terms
  // ---------------------------------------------------------------------

  /** b(y,z) at the cell's y and z. */
  function BoundaryValue(e: Extents, p: Problem, c: Cell): real
    requires ValidExtents(e)
  {
    p.bdry(YCoord(e, c.j), ZCoord(e, c.k))
  }

  /** g(x,y,z,u) at the cell. */
  function Source(e: Extents, p: Problem, u: Field, c: Cell): real
    requires ValidExtents(e)
  {
    p.source(XCoord(e, c.i), YCoord(e, c.j), ZCoord(e, c.k), u(c))
  }

  /** The unsubstituted 7-point Laplacian: every neighbour is read from the field. */
  function PlainLaplacian(e: Extents, u: Field, c: Cell): real
    requires ValidExtents(e)
  {
    (u(Shift(c, 0, -1)) - 2.0 * u(c) + u(Shift(c, 0, 1))) / (Hx(e) * Hx(e))
      + (u(Shift(c, 1, -1)) - 2.0 * u(c) + u(Shift(c, 1, 1))) / (Hy(e) * Hy(e))
      + (u(Shift(c, 2, -1)) - 2.0 * u(c) + u(Shift(c, 2, 1))) / (Hz(e) * Hz(e))
  }

  /** The field takes the boundary values on the walls that c's stencil reaches. */
  predicate MeetsWallValues(e: Extents, p: Problem, u: Field, c: Cell)
    requires ValidExtents(e)
  {
    && (c.i == e.mx - 2 ==> u(Shift(c, 0, 1)) == BoundaryValue(e, p, c))
    && (c.i == 1 ==> u(Shift(c, 0, -1)) == 0.0)
    && (c.j == e.my - 2 ==> u(Shift(c, 1, 1)) == 0.0)
    && (c.j == 1 ==> u(Shift(c, 1, -1)) == 0.0)
  }

  /**
   * The 7-point Laplacian uxx + uyy + uzz, with the neighbours on the
   * walls replaced by their boundary values: b on x = 1, 0 on x = -1 and
   * on y = +-1.  The z neighbours are read from the (periodic) halo.  For
   * a cell next to the walls this is the plain Laplacian of any field that
   * already holds those wall values.
   */
  function Laplacian(e: Extents, p: Problem, u: Field, c: Cell): (r: real)
    requires ValidExtents(e)
    ensures 1 <= c.i <= e.mx - 2 && 1 <= c.j <= e.my - 2 && MeetsWallValues(e, p, u, c)
            ==> r == PlainLaplacian(e, u, c)
  {
    var uu := u(c);
    var uE := if c.i == e.mx - 2 then BoundaryValue(e, p, c) else u(Shift(c, 0, 1));
    var uW := if c.i == 1 then 0.0 else u(Shift(c, 0, -1));
    var uN := if c.j == e.my - 2 then 0.0 else u(Shift(c, 1, 1));
    var uS := if c.j == 1 then 0.0 else u(Shift(c, 1, -1));
    (uW - 2.0 * uu + uE) / (Hx(e) * Hx(e))
      + (uS - 2.0 * uu + uN) / (Hy(e) * Hy(e))
      + (u(Shift(c, 2, -1)) - 2.0 * uu + u(Shift(c, 2, 1))) / (Hz(e) * Hz(e))
  }

  /** The non-advective part of an interior cell's residual: -(eps Laplacian u + g). */
  function DiffusionReaction(e: Extents, p: Problem, u: Field, c: Cell): real
    requires ValidExtents(e)
  {
    -(p.eps * Laplacian(e, p, u, c) + Source(e, p, u, c))
  }

  /** The residual a wall cell is assigned: u - b on x = 1, u on the three zero walls. */
  function DirichletResidual(e: Extents, p: Problem, u: Field, c: Cell): real
    requires ValidExtents(e)
  {
    if c.i == e.mx - 1 then u(c) - BoundaryValue(e, p, c) else u(c)
  }

  /**
   * The first statement of a loop step on an owned cell, given the array's
   * current value there: wall cells are overwritten, interior cells get
   * the diffusion and reaction terms subtracted.
   */
  function CellUpdate(e: Extents, p: Problem, u: Field, c: Cell, current: real): (r: real)
    requires ValidExtents(e)
    ensures OnWall(e, c) ==> r == DirichletResidual(e, p, u, c)
    ensures !OnWall(e, c) ==> r == current + DiffusionReaction(e, p, u, c)
  {
    if c.i == e.mx - 1 then u(c) - BoundaryValue(e, p, c)
    else if c.i == 0 || c.j == 0 || c.j == e.my - 1 then u(c)
    else current + DiffusionReaction(e, p, u, c)
  }

  // ---------------------------------------------------------------------
  // Face fluxes
  // ---------------------------------------------------------------------

  /** Wind component q at the centre of the upper face of c along q. */
  function FaceWind(e: Extents, p: Problem, q: int, c: Cell): real
    requires ValidExtents(e)
  {
    p.wind(XCoord(e, c.i) + (if q == 0 then Hx(e) / 2.0 else 0.0),
           YCoord(e, c.j) + (if q == 1 then Hy(e) / 2.0 else 0.0),
           ZCoord(e, c.k) + (if q == 2 then Hz(e) / 2.0 else 0.0),
           q)
  }

  /**
   * The flux the loop step at c computes through the face between c and
   * c + e_q: the face wind times the face value, which is the upwind cell's
   * value unless a limiter corrects it at a deep cell.
   */
  function StepFlux(e: Extents, p: Problem, u: Field, q: int, c: Cell): (r: real)
    requires ValidExtents(e)
    ensures r == FaceWind(e, p, q, c)
                 * FaceValue(p.limiter, Deep(e, c), FaceWind(e, p, q, c),
                             u(c), u(Shift(c, q, 1)), u(Shift(c, q, -1)), u(Shift(c, q, 2)))
    ensures p.limiter.None? || !Deep(e, c) ==>
              r == FaceWind(e, p, q, c) * (if FaceWind(e, p, q, c) >= 0.0 then u(c) else u(Shift(c, q, 1)))
  {
    FluxCarriesFaceValue(p.limiter, Deep(e, c), FaceWind(e, p, q, c),
                         u(c), u(Shift(c, q, 1)), u(Shift(c, q, -1)), u(Shift(c, q, 2)));
    FaceFlux(p.limiter, Deep(e, c), FaceWind(e, p, q, c),
             u(c), u(Shift(c, q, 1)), u(Shift(c, q, -1)), u(Shift(c, q, 2)))
  }

  // ---------------------------------------------------------------------
  // The loop nest's index bookkeeping
  // ---------------------------------------------------------------------

  function XStart(s: Scheme, pt: Patch): int
  {
    if s == Repaired && pt.xs > 0 then pt.xs - 1 else pt.xs
  }

  function YStart(s: Scheme, pt: Patch): int
  {
    if s == Repaired && pt.ys > 0 then pt.ys - 1 else pt.ys
  }

  /** The index range the loop nest visits; k always starts at zs - 1. */
  predicate InSweep(s: Scheme, pt: Patch, c: Cell)
  {
    && XStart(s, pt) <= c.i < pt.xs + pt.xm
    && YStart(s, pt) <= c.j < pt.ys + pt.ym
    && pt.zs - 1 <= c.k < pt.zs + pt.zm
  }

  /** False on the cells where the step ends with `continue` before any flux. */
  predicate Scatters(e: Extents, c: Cell)
  {
    c.i != e.mx - 1 && c.j != e.my - 1
  }

  /** Whether the switch has a branch for direction q. */
  predicate Applied(s: Scheme, q: int)
  {
    s == Repaired || q < 2
  }

  /**
   * Whether the step at c computes the flux of direction q at all: the
   * source skips x and y faces on the ghost plane k = zs - 1; the repaired
   * sweep also skips faces whose row lies outside the patch.
   */
  predicate FaceComputed(s: Scheme, pt: Patch, q: int, c: Cell)
  {
    match s
    case AsWritten => !(q < 2 && c.k < pt.zs)
    case Repaired =>
      if q == 0 then c.j >= pt.ys && c.k >= pt.zs
      else if q == 1 then c.i >= pt.xs && c.k >= pt.zs
      else c.i >= pt.xs && c.j >= pt.ys
  }

  /** Guard under which the flux is added to the lower cell c itself. */
  predicate AddsToSelf(s: Scheme, e: Extents, pt: Patch, q: int, c: Cell)
  {
    match s
    case AsWritten => (q == 0 && c.i > 0) || (q == 1 && c.j > 0) || (q == 2 && c.k >= pt.zs)
    case Repaired => Owned(pt, c) && !OnWall(e, c)
  }

  /** Guard under which the flux is subtracted from the upper cell c + e_q. */
  predicate AddsToUpper(e: Extents, pt: Patch, q: int, c: Cell)
  {
    if q == 0 then c.i < e.mx - 1 && c.i + 1 < pt.xs + pt.xm
    else if q == 1 then c.j < e.my - 1 && c.j + 1 < pt.ys + pt.ym
    else c.k + 1 < pt.zs + pt.zm
  }

  /** A residual array: one entry per owned cell. */
  predicate IsLocalArray(pt: Patch, F: map<Cell, real>)
  {
    F.Keys == OwnedCells(pt)
  }

  /**
   * Scatter of the direction-q flux computed at c: +flux/h to c, -flux/h
   * to c + e_q, each under its guard.  Only those two entries change.
   */
  function Scatter(s: Scheme, e: Extents, pt: Patch, p: Problem, u: Field,
                   q: int, c: Cell, F: map<Cell, real>): (r: map<Cell, real>)
    requires ValidExtents(e) && 0 <= q < 3
    requires InSweep(s, pt, c) && IsLocalArray(pt, F)
    ensures r.Keys == F.Keys
    ensures forall d :: d in F && d != c && d != Shift(c, q, 1) ==> r[d] == F[d]
  {
    if !(Applied(s, q) && FaceComputed(s, pt, q, c)) then F
    else
      var flux := StepFlux(e, p, u, q, c) / H(e, q);
      var F1 := if AddsToSelf(s, e, pt, q, c) then F[c := F[c] + flux] else F;
      var upper := Shift(c, q, 1);
      if AddsToUpper(e, pt, q, c) then F1[upper := F1[upper] - flux] else F1
  }

  /**
   * One pass of the innermost loop body at index c: the cell's own
   * residual terms (owned cells only), then, unless c is on the wall
   * i = mx-1 or j = my-1, the three face fluxes in the order x, y, z.
   */
  function Step(s: Scheme, e: Extents, pt: Patch, p: Problem, u: Field,
                c: Cell, F: map<Cell, real>): (r: map<Cell, real>)
    requires ValidExtents(e)
    requires InSweep(s, pt, c) && IsLocalArray(pt, F)
    ensures r.Keys == F.Keys && IsLocalArray(pt, r)
    ensures forall d :: d in F && d != c && d != Shift(c, 0, 1) && d != Shift(c, 1, 1) && d != Shift(c, 2, 1)
                        ==> r[d] == F[d]
  {
    var F1 := if Owned(pt, c) then F[c := CellUpdate(e, p, u, c, F[c])] else F;
    if !Scatters(e, c) then F1
    else
      var F2 := Scatter(s, e, pt, p, u, 0, c, F1);
      var F3 := Scatter(s, e, pt, p, u, 1, c, F2);
      Scatter(s, e, pt, p, u, 2, c, F3)
  }

  // ---------------------------------------------------------------------
  // What the pass leaves in each owned entry
  // ---------------------------------------------------------------------

  /** The direction-q flux the step at c adds to its own entry (0 if none). */
  function OwnFlux(s: Scheme, e: Extents, pt: Patch, p: Problem, u: Field, q: int, c: Cell): real
    requires ValidExtents(e) && 0 <= q < 3
  {
    if Applied(s, q) && Scatters(e, c) && AddsToSelf(s, e, pt, q, c)
    then StepFlux(e, p, u, q, c) / H(e, q)
    else 0.0
  }

  /** The direction-q flux the step at c - e_q subtracts from c's entry (0 if none). */
  function Inflow(s: Scheme, e: Extents, pt: Patch, p: Problem, u: Field, q: int, c: Cell): real
    requires ValidExtents(e) && 0 <= q < 3
  {
    var b := Shift(c, q, -1);
    if Applied(s, q) && InSweep(s, pt, b) && Scatters(e, b)
    then -(StepFlux(e, p, u, q, b) / H(e, q))
    else 0.0
  }

  function OwnFluxes(s: Scheme, e: Extents, pt: Patch, p: Problem, u: Field, c: Cell): real
    requires ValidExtents(e)
  {
    OwnFlux(s, e, pt, p, u, 0, c) + OwnFlux(s, e, pt, p, u, 1, c) + OwnFlux(s, e, pt, p, u, 2, c)
  }

  function Inflows(s: Scheme, e: Extents, pt: Patch, p: Problem, u: Field, c: Cell): real
    requires ValidExtents(e)
  {
    Inflow(s, e, pt, p, u, 0, c) + Inflow(s, e, pt, p, u, 1, c) + Inflow(s, e, pt, p, u, 2, c)
  }

  /**
   * The residual entry of owned cell c after the pass.  A wall cell's own
   * step overwrites whatever reached it before, so only the fluxes its step
   * adds afterwards remain; an interior cell accumulates everything.  In
   * the repaired reading no step adds a flux to a wall cell, and in both
   * readings a cell on x = 1 or y = 1 scatters nothing, so such a wall
   * residual is exactly its Dirichlet residual.
   */
  function ResidualAt(s: Scheme, e: Extents, pt: Patch, p: Problem, u: Field, c: Cell): (r: real)
    requires ValidExtents(e)
    ensures OnWall(e, c) && (s == Repaired || !Scatters(e, c)) ==> r == DirichletResidual(e, p, u, c)
  {
    if OnWall(e, c) then DirichletResidual(e, p, u, c) + OwnFluxes(s, e, pt, p, u, c)
    else Inflows(s, e, pt, p, u, c) + DiffusionReaction(e, p, u, c) + OwnFluxes(s, e, pt, p, u, c)
  }
}
