/**
 * Properties of the residual of FormFunctionLocal, stated about the
 * per-cell value `ResidualAt` that the loop nest `Assembly.FormFunctionLocal`
 * is proved to produce.
 */
module ResidualProperties {
  import opened Common
  import opened Limiters
  import opened Flux
  import opened Grid
  import opened Residual

  // ---------------------------------------------------------------------
  // Reference definitions
  // ---------------------------------------------------------------------

  /**
   * The advective part of a cell's conservative residual along direction q:
   * flux out through the upper face minus flux in through the lower face,
   * over the spacing.
   */
  function Advection(e: Extents, p: Problem, u: Field, q: int, c: Cell): real
    requires ValidExtents(e) && 0 <= q < 3
  {
    (StepFlux(e, p, u, q, c) - StepFlux(e, p, u, q, Shift(c, q, -1))) / H(e, q)
  }

  /**
   * The conservative finite-volume residual of an interior cell: diffusion
   * and reaction plus the advection along each of the three axes.
   */
  function ConservativeResidual(e: Extents, p: Problem, u: Field, c: Cell): real
    requires ValidExtents(e)
  {
    DiffusionReaction(e, p, u, c) + Advection(e, p, u, 0, c) + Advection(e, p, u, 1, c) + Advection(e, p, u, 2, c)
  }

  lemma DivideDifference(a: real, b: real, h: real)
    requires h != 0.0
    ensures a / h + -(b / h) == (a - b) / h
  {
  }

  // ---------------------------------------------------------------------
  // Dirichlet walls
  // ---------------------------------------------------------------------

  /**
   * In both readings, the wall x = 1 has residual u - b(y,z), the wall
   * y = 1 has residual u, and so has the corner i = 0, j = 0.
   */
  lemma WallResiduals(s: Scheme, e: Extents, pt: Patch, p: Problem, u: Field, c: Cell)
    requires ValidExtents(e) && ValidPatch(e, pt) && Owned(pt, c)
    ensures c.i == e.mx - 1 ==> ResidualAt(s, e, pt, p, u, c) == u(c) - BoundaryValue(e, p, c)
    ensures c.i != e.mx - 1 && c.j == e.my - 1 ==> ResidualAt(s, e, pt, p, u, c) == u(c)
    ensures c.i == 0 && c.j == 0 ==> ResidualAt(s, e, pt, p, u, c) == u(c)
  {
  }

  /**
   * Repaired reading: every wall cell's residual is exactly its Dirichlet
   * residual (u - b on x = 1, u elsewhere), and it depends on no other
   * cell's value.
   */
  lemma RepairedWallExact(e: Extents, pt: Patch, p: Problem, u: Field, v: Field, c: Cell)
    requires ValidExtents(e) && ValidPatch(e, pt) && Owned(pt, c) && OnWall(e, c)
    requires u(c) == v(c)
    ensures ResidualAt(Repaired, e, pt, p, u, c) == DirichletResidual(e, p, u, c)
    ensures ResidualAt(Repaired, e, pt, p, u, c) == ResidualAt(Repaired, e, pt, p, v, c)
    ensures c.i == e.mx - 1 ==> ResidualAt(Repaired, e, pt, p, u, c) == u(c) - BoundaryValue(e, p, c)
    ensures c.i != e.mx - 1 ==> ResidualAt(Repaired, e, pt, p, u, c) == u(c)
  {
  }

  /**
   * As written: a cell on the wall x = -1 (strictly between the y walls)
   * keeps the y flux its own step adds after the override, and a cell on
   * the wall y = -1 (strictly between the x walls) keeps its x flux.
   */
  lemma AsWrittenWallLeak(e: Extents, pt: Patch, p: Problem, u: Field, c: Cell)
    requires ValidExtents(e) && ValidPatch(e, pt) && Owned(pt, c)
    ensures c.i == 0 && 0 < c.j < e.my - 1 ==>
              ResidualAt(AsWritten, e, pt, p, u, c) == u(c) + StepFlux(e, p, u, 1, c) / Hy(e)
    ensures c.j == 0 && 0 < c.i < e.mx - 1 ==>
              ResidualAt(AsWritten, e, pt, p, u, c) == u(c) + StepFlux(e, p, u, 0, c) / Hx(e)
  {
  }

  /**
   * A concrete instance of the leak: on a 3 x 3 x 1 grid with wind
   * (-1, 0, 0) and u = 1 only at cell (2,0,0), the wall cell (1,0,0) has
   * u = 0 but the as-written residual -1, while the repaired one is 0.
   */
  lemma WallLeakExample()
    ensures var e := Extents(3, 3, 1);
            var pt := Patch(0, 3, 0, 3, 0, 1);
            var p := Problem(1.0, (x: real, y: real, z: real, q: int) => if q == 0 then -1.0 else 0.0,
                             (x: real, y: real, z: real, w: real) => 0.0, (y: real, z: real) => 0.0, None);
            var u := (d: Cell) => if d == Cell(2, 0, 0) then 1.0 else 0.0;
            && u(Cell(1, 0, 0)) == 0.0
            && ResidualAt(AsWritten, e, pt, p, u, Cell(1, 0, 0)) == -1.0
            && ResidualAt(Repaired, e, pt, p, u, Cell(1, 0, 0)) == 0.0
  {
    var e := Extents(3, 3, 1);
    var pt := Patch(0, 3, 0, 3, 0, 1);
    var p := Problem(1.0, (x: real, y: real, z: real, q: int) => if q == 0 then -1.0 else 0.0,
                     (x: real, y: real, z: real, w: real) => 0.0, (y: real, z: real) => 0.0, None);
    var u := (d: Cell) => if d == Cell(2, 0, 0) then 1.0 else 0.0;
    var c := Cell(1, 0, 0);
    assert Hx(e) == 1.0;
    assert FaceWind(e, p, 0, c) == -1.0;
    assert StepFlux(e, p, u, 0, c) == -1.0;
    AsWrittenWallLeak(e, pt, p, u, c);
  }

  // ---------------------------------------------------------------------
  // Interior cells
  // ---------------------------------------------------------------------

  /**
   * Repaired reading: an owned interior cell's residual is the conservative
   * form, with all six face fluxes, whatever patch owns the cell.
   */
  lemma RepairedIsConservative(e: Extents, pt: Patch, p: Problem, u: Field, c: Cell)
    requires ValidExtents(e) && ValidPatch(e, pt) && Owned(pt, c) && !OnWall(e, c)
    ensures ResidualAt(Repaired, e, pt, p, u, c) == ConservativeResidual(e, p, u, c)
  {
    RepairedAxis(e, pt, p, u, 0, c);
    RepairedAxis(e, pt, p, u, 1, c);
    RepairedAxis(e, pt, p, u, 2, c);
    assert ResidualAt(Repaired, e, pt, p, u, c)
        == DiffusionReaction(e, p, u, c)
           + (OwnFlux(Repaired, e, pt, p, u, 0, c) + Inflow(Repaired, e, pt, p, u, 0, c))
           + (OwnFlux(Repaired, e, pt, p, u, 1, c) + Inflow(Repaired, e, pt, p, u, 1, c))
           + (OwnFlux(Repaired, e, pt, p, u, 2, c) + Inflow(Repaired, e, pt, p, u, 2, c));
  }

  /** Repaired reading: along each axis an interior cell receives both of its face fluxes. */
  lemma RepairedAxis(e: Extents, pt: Patch, p: Problem, u: Field, q: int, c: Cell)
    requires ValidExtents(e) && ValidPatch(e, pt) && Owned(pt, c) && !OnWall(e, c) && 0 <= q < 3
    ensures OwnFlux(Repaired, e, pt, p, u, q, c) + Inflow(Repaired, e, pt, p, u, q, c) == Advection(e, p, u, q, c)
  {
    assert InSweep(Repaired, pt, Shift(c, q, -1));
    DivideDifference(StepFlux(e, p, u, q, c), StepFlux(e, p, u, q, Shift(c, q, -1)), H(e, q));
  }

  /**
   * Repaired reading: two processes that both own a cell compute the same
   * residual for it, so the result does not depend on the partition.
   */
  lemma RepairedPartitionIndependent(e: Extents, pt1: Patch, pt2: Patch, p: Problem, u: Field, c: Cell)
    requires ValidExtents(e) && ValidPatch(e, pt1) && ValidPatch(e, pt2)
    requires Owned(pt1, c) && Owned(pt2, c)
    ensures ResidualAt(Repaired, e, pt1, p, u, c) == ResidualAt(Repaired, e, pt2, p, u, c)
  {
    if OnWall(e, c) {
      RepairedWallExact(e, pt1, p, u, u, c);
      RepairedWallExact(e, pt2, p, u, u, c);
    } else {
      RepairedIsConservative(e, pt1, p, u, c);
      RepairedIsConservative(e, pt2, p, u, c);
    }
  }

  /**
   * As written, on a patch that starts at the walls i = 0 and j = 0 (for
   * instance a single process): an interior residual is the conservative
   * form without the two z-face fluxes.
   */
  lemma AsWrittenInteriorLacksVerticalFlux(e: Extents, pt: Patch, p: Problem, u: Field, c: Cell)
    requires ValidExtents(e) && ValidPatch(e, pt) && Owned(pt, c) && !OnWall(e, c)
    requires pt.xs == 0 && pt.ys == 0
    ensures ResidualAt(AsWritten, e, pt, p, u, c)
            == DiffusionReaction(e, p, u, c) + Advection(e, p, u, 0, c) + Advection(e, p, u, 1, c)
    ensures ResidualAt(AsWritten, e, pt, p, u, c) == ConservativeResidual(e, p, u, c) - Advection(e, p, u, 2, c)
  {
    AsWrittenAxis(e, pt, p, u, 0, c);
    AsWrittenAxis(e, pt, p, u, 1, c);
    assert OwnFlux(AsWritten, e, pt, p, u, 2, c) == 0.0 && Inflow(AsWritten, e, pt, p, u, 2, c) == 0.0;
  }

  /** As written, on a patch at the origin, an interior cell receives both of its x and y face fluxes. */
  lemma AsWrittenAxis(e: Extents, pt: Patch, p: Problem, u: Field, q: int, c: Cell)
    requires ValidExtents(e) && ValidPatch(e, pt) && Owned(pt, c) && !OnWall(e, c) && 0 <= q < 2
    requires pt.xs == 0 && pt.ys == 0
    ensures OwnFlux(AsWritten, e, pt, p, u, q, c) + Inflow(AsWritten, e, pt, p, u, q, c) == Advection(e, p, u, q, c)
  {
    assert InSweep(AsWritten, pt, Shift(c, q, -1));
    DivideDifference(StepFlux(e, p, u, q, c), StepFlux(e, p, u, q, Shift(c, q, -1)), H(e, q));
  }

  /**
   * As written, the interior residual does not depend on the z component
   * of the wind at all: changing it leaves every owned entry unchanged.
   */
  lemma AsWrittenIgnoresVerticalWind(e: Extents, pt: Patch, p1: Problem, p2: Problem, u: Field, c: Cell)
    requires ValidExtents(e) && ValidPatch(e, pt) && Owned(pt, c)
    requires p1.eps == p2.eps && p1.source == p2.source && p1.bdry == p2.bdry && p1.limiter == p2.limiter
    requires forall x, y, z, q :: q != 2 ==> p1.wind(x, y, z, q) == p2.wind(x, y, z, q)
    ensures ResidualAt(AsWritten, e, pt, p1, u, c) == ResidualAt(AsWritten, e, pt, p2, u, c)
  {
    forall q | 0 <= q < 2
      ensures OwnFlux(AsWritten, e, pt, p1, u, q, c) == OwnFlux(AsWritten, e, pt, p2, u, q, c)
      ensures Inflow(AsWritten, e, pt, p1, u, q, c) == Inflow(AsWritten, e, pt, p2, u, q, c)
    {
      assert FaceWind(e, p1, q, c) == FaceWind(e, p2, q, c);
      assert FaceWind(e, p1, q, Shift(c, q, -1)) == FaceWind(e, p2, q, Shift(c, q, -1));
    }
    assert DiffusionReaction(e, p1, u, c) == DiffusionReaction(e, p2, u, c);
  }

  /**
   * As written, a process whose patch starts at column i = xs >= 1 never
   * subtracts the flux through the face between xs-1 and xs: its residual
   * for an interior cell in that column differs from that of a process
   * owning both columns by exactly that flux over hx.
   */
  lemma AsWrittenDropsPartitionFace(e: Extents, pt1: Patch, pt2: Patch, p: Problem, u: Field, c: Cell)
    requires ValidExtents(e) && ValidPatch(e, pt1) && ValidPatch(e, pt2)
    requires Owned(pt1, c) && Owned(pt2, c) && !OnWall(e, c)
    requires c.i == pt1.xs && Owned(pt2, Shift(c, 0, -1)) && pt1.ys == pt2.ys
    ensures ResidualAt(AsWritten, e, pt1, p, u, c)
            == ResidualAt(AsWritten, e, pt2, p, u, c) + StepFlux(e, p, u, 0, Shift(c, 0, -1)) / Hx(e)
  {
    assert !InSweep(AsWritten, pt1, Shift(c, 0, -1));
    assert InSweep(AsWritten, pt2, Shift(c, 0, -1));
  }

  // ---------------------------------------------------------------------
  // Flux scatter
  // ---------------------------------------------------------------------

  /**
   * A face between an owned interior cell c and its owned upper neighbour
   * along q gives +flux/h to c and -flux/h to the neighbour: the two
   * contributions cancel, and when the direction is scattered at all the
   * contribution to c is the face flux over the spacing.
   */
  lemma FacePairCancels(s: Scheme, e: Extents, pt: Patch, p: Problem, u: Field, q: int, c: Cell)
    requires ValidExtents(e) && ValidPatch(e, pt) && 0 <= q < 3
    requires Owned(pt, c) && Owned(pt, Shift(c, q, 1)) && !OnWall(e, c)
    ensures OwnFlux(s, e, pt, p, u, q, c) + Inflow(s, e, pt, p, u, q, Shift(c, q, 1)) == 0.0
    ensures Applied(s, q) ==> OwnFlux(s, e, pt, p, u, q, c) == StepFlux(e, p, u, q, c) / H(e, q)
  {
    assert Shift(Shift(c, q, 1), q, -1) == c;
  }

  // ---------------------------------------------------------------------
  // Constant fields
  // ---------------------------------------------------------------------

  /** On a constant field every face flux is the wind times the constant; no limiter correction is made. */
  lemma ConstantFieldFlux(e: Extents, p: Problem, u: Field, c0: real, q: int, c: Cell)
    requires ValidExtents(e)
    requires forall d :: u(d) == c0
    ensures StepFlux(e, p, u, q, c) == FaceWind(e, p, q, c) * c0
  {
    UniformStateFlux(p.limiter, Deep(e, c), FaceWind(e, p, q, c), c0, u(Shift(c, q, -1)), u(Shift(c, q, 2)));
  }

  /** The substituted Laplacian of a constant field vanishes two cells away from the x and y walls. */
  lemma ConstantFieldLaplacian(e: Extents, p: Problem, u: Field, c0: real, c: Cell)
    requires ValidExtents(e)
    requires 2 <= c.i <= e.mx - 3 && 2 <= c.j <= e.my - 3
    requires forall d :: u(d) == c0
    ensures Laplacian(e, p, u, c) == 0.0
    ensures DiffusionReaction(e, p, u, c) == -Source(e, p, u, c)
  {
    assert u(c) == c0 && u(Shift(c, 0, 1)) == c0 && u(Shift(c, 0, -1)) == c0;
    assert u(Shift(c, 1, 1)) == c0 && u(Shift(c, 1, -1)) == c0;
    assert u(Shift(c, 2, 1)) == c0 && u(Shift(c, 2, -1)) == c0;
  }

  /** On a constant field the advection along q is the constant times the change of the wind across the cell. */
  lemma ConstantFieldAdvection(e: Extents, p: Problem, u: Field, c0: real, q: int, c: Cell)
    requires ValidExtents(e) && 0 <= q < 3
    requires forall d :: u(d) == c0
    ensures Advection(e, p, u, q, c) == (FaceWind(e, p, q, c) - FaceWind(e, p, q, Shift(c, q, -1))) * c0 / H(e, q)
  {
    ConstantFieldFlux(e, p, u, c0, q, c);
    ConstantFieldFlux(e, p, u, c0, q, Shift(c, q, -1));
    assert FaceWind(e, p, q, c) * c0 - FaceWind(e, p, q, Shift(c, q, -1)) * c0
        == (FaceWind(e, p, q, c) - FaceWind(e, p, q, Shift(c, q, -1))) * c0;
  }

  /**
   * On a constant field, at a cell at least two cells from every wall, the
   * conservative residual is -g plus the constant times the divergence of
   * the discrete wind.
   */
  lemma ConstantFieldInterior(e: Extents, p: Problem, u: Field, c0: real, c: Cell)
    requires ValidExtents(e)
    requires 2 <= c.i <= e.mx - 3 && 2 <= c.j <= e.my - 3
    requires forall d :: u(d) == c0
    ensures ConservativeResidual(e, p, u, c)
            == -Source(e, p, u, c)
               + (FaceWind(e, p, 0, c) - FaceWind(e, p, 0, Shift(c, 0, -1))) * c0 / Hx(e)
               + (FaceWind(e, p, 1, c) - FaceWind(e, p, 1, Shift(c, 1, -1))) * c0 / Hy(e)
               + (FaceWind(e, p, 2, c) - FaceWind(e, p, 2, Shift(c, 2, -1))) * c0 / Hz(e)
  {
    ConstantFieldLaplacian(e, p, u, c0, c);
    ConstantFieldAdvection(e, p, u, c0, 0, c);
    ConstantFieldAdvection(e, p, u, c0, 1, c);
    ConstantFieldAdvection(e, p, u, c0, 2, c);
  }

  /** Under a spatially uniform wind, a constant field has no net advection along any axis. */
  lemma UniformWindAdvection(e: Extents, p: Problem, u: Field, c0: real, q: int, c: Cell)
    requires ValidExtents(e) && 0 <= q < 3
    requires forall d :: u(d) == c0
    requires forall x, y, z, q' :: p.wind(x, y, z, q') == p.wind(0.0, 0.0, 0.0, q')
    ensures Advection(e, p, u, q, c) == 0.0
  {
    ConstantFieldAdvection(e, p, u, c0, q, c);
    assert FaceWind(e, p, q, c) == FaceWind(e, p, q, Shift(c, q, -1));
  }

  /**
   * A constant field under a spatially uniform wind: every advective term
   * cancels and the repaired residual of a cell two cells from the walls
   * is -g.
   */
  lemma ConstantFieldUniformWind(e: Extents, pt: Patch, p: Problem, u: Field, c0: real, c: Cell)
    requires ValidExtents(e) && ValidPatch(e, pt) && Owned(pt, c)
    requires 2 <= c.i <= e.mx - 3 && 2 <= c.j <= e.my - 3
    requires forall d :: u(d) == c0
    requires forall x, y, z, q :: p.wind(x, y, z, q) == p.wind(0.0, 0.0, 0.0, q)
    ensures ResidualAt(Repaired, e, pt, p, u, c) == -Source(e, p, u, c)
  {
    RepairedIsConservative(e, pt, p, u, c);
    ConstantFieldLaplacian(e, p, u, c0, c);
    UniformWindAdvection(e, p, u, c0, 0, c);
    UniformWindAdvection(e, p, u, c0, 1, c);
    UniformWindAdvection(e, p, u, c0, 2, c);
  }

  // ---------------------------------------------------------------------
  // Boundary substitution in the Laplacian
  // ---------------------------------------------------------------------

  /** The Laplacian of an interior cell never reads a wall cell's stored value. */
  lemma LaplacianIgnoresWallCells(e: Extents, p: Problem, u: Field, v: Field, c: Cell)
    requires ValidExtents(e)
    requires 1 <= c.i <= e.mx - 2 && 1 <= c.j <= e.my - 2
    requires forall d :: !OnWall(e, d) ==> u(d) == v(d)
    ensures Laplacian(e, p, u, c) == Laplacian(e, p, v, c)
  {
    assert u(c) == v(c);
    assert u(Shift(c, 2, 1)) == v(Shift(c, 2, 1)) && u(Shift(c, 2, -1)) == v(Shift(c, 2, -1));
    if c.i != e.mx - 2 {
      assert !OnWall(e, Shift(c, 0, 1));
    }
    if c.i != 1 {
      assert !OnWall(e, Shift(c, 0, -1));
    }
    if c.j != e.my - 2 {
      assert !OnWall(e, Shift(c, 1, 1));
    }
    if c.j != 1 {
      assert !OnWall(e, Shift(c, 1, -1));
    }
  }

  // ---------------------------------------------------------------------
  // Stencil width
  // ---------------------------------------------------------------------

  /**
   * The star halo holds, from each owned cell, the w cells on either side
   * along each axis inside the x and y walls; a halo cell off the owned
   * range along one axis is within it along the other two, so no edge or
   * corner cell of the surrounding box is in the halo.
   */
  lemma HaloIsStar(e: Extents, pt: Patch, w: int, c: Cell, q: int, n: int)
    requires Owned(pt, c) && 0 <= q < 3 && -w <= n <= w
    requires q == 0 ==> 0 <= c.i + n <= e.mx - 1
    requires q == 1 ==> 0 <= c.j + n <= e.my - 1
    requires ValidPatch(e, pt)
    ensures InHalo(e, pt, w, Shift(c, q, n))
    ensures forall d: Cell :: InHalo(e, pt, w, d) && !(pt.xs <= d.i < pt.xs + pt.xm) ==> Owned(pt, Cell(pt.xs, d.j, d.k))
    ensures forall d: Cell :: InHalo(e, pt, w, d) && !(pt.ys <= d.j < pt.ys + pt.ym) ==> Owned(pt, Cell(d.i, pt.ys, d.k))
    ensures forall d: Cell :: InHalo(e, pt, w, d) && !(pt.zs <= d.k < pt.zs + pt.zm) ==> Owned(pt, Cell(d.i, d.j, pt.zs))
  {
  }

  /** u and v agree on the owned cells and on the star-stencil ghost cells up to w deep. */
  ghost predicate AgreeOnHalo(e: Extents, pt: Patch, w: int, u: Field, v: Field)
  {
    forall d :: InHalo(e, pt, w, d) ==> u(d) == v(d)
  }

  /**
   * A face flux reads the two cells beside the face, and the two cells
   * beyond them only when a limiter is in use and the lower cell is deep.
   */
  lemma FluxFrame(e: Extents, p: Problem, u: Field, v: Field, q: int, b: Cell)
    requires ValidExtents(e)
    requires u(b) == v(b) && u(Shift(b, q, 1)) == v(Shift(b, q, 1))
    requires p.limiter.Some? && Deep(e, b) ==>
               u(Shift(b, q, -1)) == v(Shift(b, q, -1)) && u(Shift(b, q, 2)) == v(Shift(b, q, 2))
    ensures StepFlux(e, p, u, q, b) == StepFlux(e, p, v, q, b)
  {
  }

  /** The direction-q flux an owned cell's own step keeps reads only the halo. */
  lemma OwnFluxReadsOnlyHalo(s: Scheme, e: Extents, pt: Patch, p: Problem, u: Field, v: Field, q: int, c: Cell)
    requires ValidExtents(e) && ValidPatch(e, pt) && Owned(pt, c) && 0 <= q < 3
    requires AgreeOnHalo(e, pt, StencilWidth(p.limiter), u, v)
    ensures OwnFlux(s, e, pt, p, u, q, c) == OwnFlux(s, e, pt, p, v, q, c)
  {
    var w := StencilWidth(p.limiter);
    if Applied(s, q) && Scatters(e, c) && AddsToSelf(s, e, pt, q, c) {
      assert InHalo(e, pt, w, c);
      assert InHalo(e, pt, w, Shift(c, q, 1));
      if p.limiter.Some? && Deep(e, c) {
        assert InHalo(e, pt, w, Shift(c, q, -1));
        assert InHalo(e, pt, w, Shift(c, q, 2));
      }
      FluxFrame(e, p, u, v, q, c);
    }
  }

  /** The direction-q flux that reaches an owned cell from below reads only the halo. */
  lemma InflowReadsOnlyHalo(s: Scheme, e: Extents, pt: Patch, p: Problem, u: Field, v: Field, q: int, c: Cell)
    requires ValidExtents(e) && ValidPatch(e, pt) && Owned(pt, c) && 0 <= q < 3
    requires AgreeOnHalo(e, pt, StencilWidth(p.limiter), u, v)
    ensures Inflow(s, e, pt, p, u, q, c) == Inflow(s, e, pt, p, v, q, c)
  {
    var w := StencilWidth(p.limiter);
    var b := Shift(c, q, -1);
    if Applied(s, q) && InSweep(s, pt, b) && Scatters(e, b) {
      assert InHalo(e, pt, w, b);
      assert Shift(b, q, 1) == c;
      assert InHalo(e, pt, w, c);
      if p.limiter.Some? && Deep(e, b) {
        assert InHalo(e, pt, w, Shift(b, q, -1));
        assert InHalo(e, pt, w, Shift(b, q, 2));
      }
      FluxFrame(e, p, u, v, q, b);
    }
  }

  /** Diffusion and reaction of an owned interior cell read only its 7-point neighbours. */
  lemma DiffusionReadsOnlyHalo(e: Extents, pt: Patch, p: Problem, u: Field, v: Field, c: Cell)
    requires ValidExtents(e) && ValidPatch(e, pt) && Owned(pt, c) && !OnWall(e, c)
    requires AgreeOnHalo(e, pt, StencilWidth(p.limiter), u, v)
    ensures DiffusionReaction(e, p, u, c) == DiffusionReaction(e, p, v, c)
  {
    var w := StencilWidth(p.limiter);
    assert InHalo(e, pt, w, c);
    assert InHalo(e, pt, w, Shift(c, 2, 1)) && InHalo(e, pt, w, Shift(c, 2, -1));
    if c.i != e.mx - 2 {
      assert InHalo(e, pt, w, Shift(c, 0, 1));
    }
    if c.i != 1 {
      assert InHalo(e, pt, w, Shift(c, 0, -1));
    }
    if c.j != e.my - 2 {
      assert InHalo(e, pt, w, Shift(c, 1, 1));
    }
    if c.j != 1 {
      assert InHalo(e, pt, w, Shift(c, 1, -1));
    }
    LaplacianFrame(e, p, u, v, c);
  }

  /** The Laplacian reads u at c, at its two z neighbours, and at each x or y neighbour that is not replaced by a wall value. */
  lemma LaplacianFrame(e: Extents, p: Problem, u: Field, v: Field, c: Cell)
    requires ValidExtents(e)
    requires u(c) == v(c) && u(Shift(c, 2, 1)) == v(Shift(c, 2, 1)) && u(Shift(c, 2, -1)) == v(Shift(c, 2, -1))
    requires c.i != e.mx - 2 ==> u(Shift(c, 0, 1)) == v(Shift(c, 0, 1))
    requires c.i != 1 ==> u(Shift(c, 0, -1)) == v(Shift(c, 0, -1))
    requires c.j != e.my - 2 ==> u(Shift(c, 1, 1)) == v(Shift(c, 1, 1))
    requires c.j != 1 ==> u(Shift(c, 1, -1)) == v(Shift(c, 1, -1))
    ensures Laplacian(e, p, u, c) == Laplacian(e, p, v, c)
  {
  }

  /**
   * The residual of an owned cell reads the field only inside the star
   * halo of the stencil width the limiter asks for: 1 without a limiter,
   * 2 with one.  The edge and corner ghosts a star stencil leaves unfilled
   * are never read.  Two fields that agree there give the same residual, in both
   * readings.
   */
  lemma ResidualReadsOnlyHalo(s: Scheme, e: Extents, pt: Patch, p: Problem, u: Field, v: Field, c: Cell)
    requires ValidExtents(e) && ValidPatch(e, pt) && Owned(pt, c)
    requires AgreeOnHalo(e, pt, StencilWidth(p.limiter), u, v)
    ensures ResidualAt(s, e, pt, p, u, c) == ResidualAt(s, e, pt, p, v, c)
  {
    assert InHalo(e, pt, StencilWidth(p.limiter), c);
    OwnFluxReadsOnlyHalo(s, e, pt, p, u, v, 0, c);
    OwnFluxReadsOnlyHalo(s, e, pt, p, u, v, 1, c);
    OwnFluxReadsOnlyHalo(s, e, pt, p, u, v, 2, c);
    if !OnWall(e, c) {
      InflowReadsOnlyHalo(s, e, pt, p, u, v, 0, c);
      InflowReadsOnlyHalo(s, e, pt, p, u, v, 1, c);
      InflowReadsOnlyHalo(s, e, pt, p, u, v, 2, c);
      DiffusionReadsOnlyHalo(e, pt, p, u, v, c);
    }
  }

  // ---------------------------------------------------------------------
  // Conservation
  // ---------------------------------------------------------------------

  /**
   * For any face flux `fl` (indexed by the cell below the face): the sum,
   * over the n cells c, c + e_q, ..., c + (n-1) e_q, of upper-face flux
   * minus lower-face flux, over h.
   */
  function DifferenceSum(fl: Cell -> real, h: real, q: int, c: Cell, n: nat): real
    requires h != 0.0
  {
    if n == 0 then 0.0
    else DifferenceSum(fl, h, q, c, n - 1) + (fl(Shift(c, q, n - 1)) - fl(Shift(c, q, n - 2))) / h
  }

  lemma AddQuotients(a: real, b: real, c: real, h: real)
    requires h != 0.0
    ensures (a - b) / h + (c - a) / h == (c - b) / h
  {
  }

  /** Differences of a face flux telescope: only the first lower and the last upper face remain. */
  lemma {:induction false} DifferencesTelescope(fl: Cell -> real, h: real, q: int, c: Cell, n: nat)
    requires h != 0.0
    ensures DifferenceSum(fl, h, q, c, n) == (fl(Shift(c, q, n - 1)) - fl(Shift(c, q, -1))) / h
  {
    if n > 0 {
      DifferencesTelescope(fl, h, q, c, n - 1);
      AddQuotients(fl(Shift(c, q, n - 2)), fl(Shift(c, q, -1)), fl(Shift(c, q, n - 1)), h);
    }
  }

  /** The direction-q face flux of the residual, as a function of the cell below the face. */
  function FluxAlong(e: Extents, p: Problem, u: Field, q: int): Cell -> real
    requires ValidExtents(e)
  {
    (b: Cell) => StepFlux(e, p, u, q, b)
  }

  /** The advection terms along axis q of the n cells c, c + e_q, ..., c + (n-1) e_q. */
  function AxisSum(e: Extents, p: Problem, u: Field, q: int, c: Cell, n: nat): real
    requires ValidExtents(e) && 0 <= q < 3
  {
    DifferenceSum(FluxAlong(e, p, u, q), H(e, q), q, c, n)
  }

  /** Each term of AxisSum is the advection of one cell of the conservative residual. */
  lemma AxisSumTerms(e: Extents, p: Problem, u: Field, q: int, c: Cell, n: nat)
    requires ValidExtents(e) && 0 <= q < 3 && n > 0
    ensures AxisSum(e, p, u, q, c, n) == AxisSum(e, p, u, q, c, n - 1) + Advection(e, p, u, q, Shift(c, q, n - 1))
  {
    assert Shift(Shift(c, q, n - 1), q, -1) == Shift(c, q, n - 2);
  }

  /**
   * Along a row of interior cells the x-advection terms add up to the flux
   * through the face next to the wall x = 1 minus the flux through the face
   * next to the wall x = -1, over hx: interior faces cancel.
   */
  lemma RowConservation(e: Extents, p: Problem, u: Field, j: int, k: int)
    requires ValidExtents(e)
    ensures AxisSum(e, p, u, 0, Cell(1, j, k), e.mx - 2)
            == (StepFlux(e, p, u, 0, Cell(e.mx - 2, j, k)) - StepFlux(e, p, u, 0, Cell(0, j, k))) / Hx(e)
  {
    DifferencesTelescope(FluxAlong(e, p, u, 0), Hx(e), 0, Cell(1, j, k), e.mx - 2);
    assert Shift(Cell(1, j, k), 0, e.mx - 3) == Cell(e.mx - 2, j, k);
    assert Shift(Cell(1, j, k), 0, -1) == Cell(0, j, k);
  }

  /**
   * Along a periodic z column the vertical advection terms sum to zero:
   * when the ghost planes k = -2, -1 hold the images of k = mz-2, mz-1 and
   * the planes k = mz, mz+1 those of k = 0, 1, and the vertical wind takes
   * the same value on z = -1 and z = 1, the face leaving the top is the
   * face entering the bottom.
   */
  lemma ColumnConservation(e: Extents, p: Problem, u: Field, i: int, j: int)
    requires ValidExtents(e)
    requires u(Cell(i, j, -2)) == u(Cell(i, j, e.mz - 2)) && u(Cell(i, j, -1)) == u(Cell(i, j, e.mz - 1))
    requires u(Cell(i, j, e.mz)) == u(Cell(i, j, 0)) && u(Cell(i, j, e.mz + 1)) == u(Cell(i, j, 1))
    requires forall x, y :: p.wind(x, y, -1.0, 2) == p.wind(x, y, 1.0, 2)
    ensures AxisSum(e, p, u, 2, Cell(i, j, 0), e.mz) == 0.0
  {
    DifferencesTelescope(FluxAlong(e, p, u, 2), Hz(e), 2, Cell(i, j, 0), e.mz);
    assert Shift(Cell(i, j, 0), 2, e.mz - 1) == Cell(i, j, e.mz - 1);
    assert Shift(Cell(i, j, 0), 2, -1) == Cell(i, j, -1);
    PeriodicFaceFlux(e, p, u, i, j);
  }

  /** The face below plane 0 and the face above plane mz-1 carry the same flux. */
  lemma PeriodicFaceFlux(e: Extents, p: Problem, u: Field, i: int, j: int)
    requires ValidExtents(e)
    requires u(Cell(i, j, -2)) == u(Cell(i, j, e.mz - 2)) && u(Cell(i, j, -1)) == u(Cell(i, j, e.mz - 1))
    requires u(Cell(i, j, e.mz)) == u(Cell(i, j, 0)) && u(Cell(i, j, e.mz + 1)) == u(Cell(i, j, 1))
    requires forall x, y :: p.wind(x, y, -1.0, 2) == p.wind(x, y, 1.0, 2)
    ensures StepFlux(e, p, u, 2, Cell(i, j, -1)) == StepFlux(e, p, u, 2, Cell(i, j, e.mz - 1))
  {
    var bottom := Cell(i, j, -1);
    var top := Cell(i, j, e.mz - 1);
    assert ZCoord(e, -1) + Hz(e) / 2.0 == -1.0;
    assert ZCoord(e, e.mz - 1) + Hz(e) / 2.0 == 1.0;
    assert FaceWind(e, p, 2, bottom) == FaceWind(e, p, 2, top);
    assert Shift(bottom, 2, 1) == Cell(i, j, 0) && Shift(top, 2, 1) == Cell(i, j, e.mz);
    assert Shift(bottom, 2, -1) == Cell(i, j, -2) && Shift(top, 2, -1) == Cell(i, j, e.mz - 2);
    assert Shift(bottom, 2, 2) == Cell(i, j, 1) && Shift(top, 2, 2) == Cell(i, j, e.mz + 1);
  }
}
