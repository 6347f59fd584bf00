/**
 * The structured grid of ad3.c: global extents, the locally owned box of a
 * process, cell coordinates on [-1,1]^3 and the index predicates that
 * FormFunctionLocal branches on.  The x and y axes are Dirichlet axes with
 * nodes on both walls; the z axis is periodic with cell-centred nodes.
 */
module Grid {

  /** A grid index triple (i, j, k); the C code writes it `[k][j][i]`. */
  datatype Cell = Cell(i: int, j: int, k: int)

  /** Global grid size `mx x my x mz`. */
  datatype Extents = Extents(mx: int, my: int, mz: int)

  /** The locally owned index box: `xs <= i < xs+xm`, `ys <= j < ys+ym`, `zs <= k < zs+zm`. */
  datatype Patch = Patch(xs: int, xm: int, ys: int, ym: int, zs: int, zm: int)

  /** Extents for which every spacing is defined. */
  predicate ValidExtents(e: Extents)
  {
    e.mx >= 2 && e.my >= 2 && e.mz >= 1
  }

  /** A patch inside the grid. */
  predicate ValidPatch(e: Extents, pt: Patch)
  {
    && 0 <= pt.xs && 0 <= pt.xm && pt.xs + pt.xm <= e.mx
    && 0 <= pt.ys && 0 <= pt.ym && pt.ys + pt.ym <= e.my
    && 0 <= pt.zs && 0 <= pt.zm && pt.zs + pt.zm <= e.mz
  }

  // ---------------------------------------------------------------------
  // Spacing and coordinates
  // ---------------------------------------------------------------------

  /** `hx = 2/(mx-1)`: mx nodes span [-1,1] including both walls. */
  function Hx(e: Extents): (h: real)
    requires e.mx >= 2
    ensures h > 0.0
    ensures h * (e.mx - 1) as real == 2.0
  {
    2.0 / (e.mx - 1) as real
  }

  /** `hy = 2/(my-1)`. */
  function Hy(e: Extents): (h: real)
    requires e.my >= 2
    ensures h > 0.0
    ensures h * (e.my - 1) as real == 2.0
  {
    2.0 / (e.my - 1) as real
  }

  /** `hz = 2/mz`: the periodic axis has no duplicated endpoint. */
  function Hz(e: Extents): (h: real)
    requires e.mz >= 1
    ensures h > 0.0
    ensures h * e.mz as real == 2.0
  {
    2.0 / e.mz as real
  }

  /** The spacing along axis q (0 = x, 1 = y, 2 = z). */
  function H(e: Extents, q: int): (h: real)
    requires ValidExtents(e) && 0 <= q < 3
    ensures h > 0.0
  {
    if q == 0 then Hx(e) else if q == 1 then Hy(e) else Hz(e)
  }

  function XCoord(e: Extents, i: int): real
    requires e.mx >= 2
  {
    -1.0 + i as real * Hx(e)
  }

  function YCoord(e: Extents, j: int): real
    requires e.my >= 2
  {
    -1.0 + j as real * Hy(e)
  }

  function ZCoord(e: Extents, k: int): real
    requires e.mz >= 1
  {
    -1.0 + (k as real + 0.5) * Hz(e)
  }

  /** The first and last x and y nodes sit on the walls x, y = -1 and x, y = 1. */
  lemma DirichletAxesSpanDomain(e: Extents)
    requires ValidExtents(e)
    ensures XCoord(e, 0) == -1.0 && XCoord(e, e.mx - 1) == 1.0
    ensures YCoord(e, 0) == -1.0 && YCoord(e, e.my - 1) == 1.0
  {
  }

  /**
   * The z cells tile [-1,1] exactly: the first cell starts at -1, the last
   * ends at 1, and shifting k by mz shifts z by the period 2.
   */
  lemma PeriodicAxisTiles(e: Extents, k: int)
    requires ValidExtents(e)
    ensures ZCoord(e, 0) - Hz(e) / 2.0 == -1.0
    ensures ZCoord(e, e.mz - 1) + Hz(e) / 2.0 == 1.0
    ensures ZCoord(e, k + e.mz) == ZCoord(e, k) + 2.0
  {
  }

  // ---------------------------------------------------------------------
  // Index predicates
  // ---------------------------------------------------------------------

  predicate Owned(pt: Patch, c: Cell)
  {
    && pt.xs <= c.i < pt.xs + pt.xm
    && pt.ys <= c.j < pt.ys + pt.ym
    && pt.zs <= c.k < pt.zs + pt.zm
  }

  function OwnedCells(pt: Patch): (s: set<Cell>)
    ensures forall c :: c in s <==> Owned(pt, c)
  {
    set i, j, k | pt.xs <= i < pt.xs + pt.xm && pt.ys <= j < pt.ys + pt.ym && pt.zs <= k < pt.zs + pt.zm
      :: Cell(i, j, k)
  }

  /** A cell on one of the four Dirichlet walls i = 0, i = mx-1, j = 0, j = my-1. */
  predicate OnWall(e: Extents, c: Cell)
  {
    c.i == 0 || c.i == e.mx - 1 || c.j == 0 || c.j == e.my - 1
  }

  /** The `deep` test of line 207: at least two cells from every Dirichlet wall. */
  predicate Deep(e: Extents, c: Cell)
  {
    1 < c.i < e.mx - 2 && 1 < c.j < e.my - 2
  }

  /**
   * On a deep cell both far-upwind neighbours a limiter may read, i-1 and
   * i+2 (resp. j-1 and j+2), are grid cells.
   */
  lemma DeepFarIndicesInside(e: Extents, c: Cell)
    requires Deep(e, c)
    ensures 0 <= c.i - 1 && c.i + 2 <= e.mx - 1
    ensures 0 <= c.j - 1 && c.j + 2 <= e.my - 1
  {
  }

  /**
   * The ghosted region of a patch with a star stencil of width w: the
   * owned box plus up to w cells beyond it along one axis at a time.
   * Edge and corner cells of the surrounding box, outside the owned range
   * in two or three axes, are not ghosted.  The region is cut off at the
   * Dirichlet walls (no ghosts exist beyond them) but not on the periodic
   * z axis.
   */
  predicate InHalo(e: Extents, pt: Patch, w: int, c: Cell)
  {
    var outX := !(pt.xs <= c.i < pt.xs + pt.xm);
    var outY := !(pt.ys <= c.j < pt.ys + pt.ym);
    var outZ := !(pt.zs <= c.k < pt.zs + pt.zm);
    && 0 <= c.i <= e.mx - 1 && pt.xs - w <= c.i <= pt.xs + pt.xm - 1 + w
    && 0 <= c.j <= e.my - 1 && pt.ys - w <= c.j <= pt.ys + pt.ym - 1 + w
    && pt.zs - w <= c.k <= pt.zs + pt.zm - 1 + w
    && (outX ==> !outY && !outZ) && (outY ==> !outZ)
  }
}
