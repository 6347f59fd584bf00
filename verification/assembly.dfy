/**
 * The loop nest of FormFunctionLocal (ad3.c, lines 163-241): clear the
 * residual array, then visit k = zs-1 .. zs+zm-1, j, i in that nesting and
 * apply one `Step` per index.  `FormFunctionLocal` proves that the array it
 * returns holds `ResidualAt` in every owned entry, which is what the
 * properties of `ResidualProperties` are stated about.
 */
module Assembly {
  import opened Grid
  import opened Residual

  /** The loop nest visits a strictly before b (lexicographic in k, j, i). */
  predicate Precedes(a: Cell, b: Cell)
  {
    a.k < b.k || (a.k == b.k && (a.j < b.j || (a.j == b.j && a.i < b.i)))
  }

  /** The direction-q inflow of c, if the step that sends it comes before position pos. */
  function InflowBefore(s: Scheme, e: Extents, pt: Patch, p: Problem, u: Field,
                        q: int, c: Cell, pos: Cell): real
    requires ValidExtents(e) && 0 <= q < 3
  {
    if Precedes(Shift(c, q, -1), pos) then Inflow(s, e, pt, p, u, q, c) else 0.0
  }

  /**
   * The entry of owned cell c once every step before position pos has run:
   * the final residual if c's own step is among them, otherwise the
   * inflows received so far.
   */
  function Expected(s: Scheme, e: Extents, pt: Patch, p: Problem, u: Field,
                    pos: Cell, c: Cell): real
    requires ValidExtents(e)
  {
    if Precedes(c, pos) then ResidualAt(s, e, pt, p, u, c)
    else InflowBefore(s, e, pt, p, u, 0, c, pos)
         + InflowBefore(s, e, pt, p, u, 1, c, pos)
         + InflowBefore(s, e, pt, p, u, 2, c, pos)
  }

  // ---------------------------------------------------------------------
  // One step
  // ---------------------------------------------------------------------

  /** The flux of direction q lands in c's own entry as `OwnFlux`. */
  lemma ScatterAtSelf(s: Scheme, e: Extents, pt: Patch, p: Problem, u: Field,
                      q: int, c: Cell, F: map<Cell, real>)
    requires ValidExtents(e) && ValidPatch(e, pt) && 0 <= q < 3
    requires InSweep(s, pt, c) && IsLocalArray(pt, F) && Owned(pt, c) && Scatters(e, c)
    ensures Scatter(s, e, pt, p, u, q, c, F)[c] == F[c] + OwnFlux(s, e, pt, p, u, q, c)
  {
    assert Shift(c, q, 1) != c;
  }

  /** The flux of direction q lands in the upper neighbour's entry as that cell's `Inflow`. */
  lemma ScatterAtUpper(s: Scheme, e: Extents, pt: Patch, p: Problem, u: Field,
                       q: int, c: Cell, F: map<Cell, real>)
    requires ValidExtents(e) && ValidPatch(e, pt) && 0 <= q < 3
    requires InSweep(s, pt, c) && IsLocalArray(pt, F) && Scatters(e, c)
    requires Owned(pt, Shift(c, q, 1))
    ensures Scatter(s, e, pt, p, u, q, c, F)[Shift(c, q, 1)]
            == F[Shift(c, q, 1)] + Inflow(s, e, pt, p, u, q, Shift(c, q, 1))
  {
    var d := Shift(c, q, 1);
    assert Shift(d, q, -1) == c;
    assert d != c;
  }

  /** The step at c leaves c's own entry holding its residual. */
  lemma StepAtSelf(s: Scheme, e: Extents, pt: Patch, p: Problem, u: Field,
                   c: Cell, F: map<Cell, real>)
    requires ValidExtents(e) && ValidPatch(e, pt)
    requires InSweep(s, pt, c) && IsLocalArray(pt, F)
    requires c in F && F[c] == Inflows(s, e, pt, p, u, c)
    ensures Step(s, e, pt, p, u, c, F)[c] == ResidualAt(s, e, pt, p, u, c)
  {
    StepAddsOwnFluxes(s, e, pt, p, u, c, F);
    UpdateThenOwnFluxes(s, e, pt, p, u, c);
  }

  /** After the step at c, c's entry is its updated value plus the fluxes the step keeps for c. */
  lemma StepAddsOwnFluxes(s: Scheme, e: Extents, pt: Patch, p: Problem, u: Field,
                          c: Cell, F: map<Cell, real>)
    requires ValidExtents(e) && ValidPatch(e, pt)
    requires InSweep(s, pt, c) && IsLocalArray(pt, F) && c in F
    ensures Step(s, e, pt, p, u, c, F)[c] == CellUpdate(e, p, u, c, F[c]) + OwnFluxes(s, e, pt, p, u, c)
  {
    var r := Step(s, e, pt, p, u, c, F);
    var F1 := F[c := CellUpdate(e, p, u, c, F[c])];
    if Scatters(e, c) {
      var F2 := Scatter(s, e, pt, p, u, 0, c, F1);
      var F3 := Scatter(s, e, pt, p, u, 1, c, F2);
      ScatterAtSelf(s, e, pt, p, u, 0, c, F1);
      ScatterAtSelf(s, e, pt, p, u, 1, c, F2);
      ScatterAtSelf(s, e, pt, p, u, 2, c, F3);
    } else {
      assert r[c] == F1[c];
      assert OwnFluxes(s, e, pt, p, u, c) == 0.0;
    }
  }

  /** Updating an entry that holds c's inflows, then adding c's own fluxes, gives c's residual. */
  lemma UpdateThenOwnFluxes(s: Scheme, e: Extents, pt: Patch, p: Problem, u: Field, c: Cell)
    requires ValidExtents(e)
    ensures CellUpdate(e, p, u, c, Inflows(s, e, pt, p, u, c)) + OwnFluxes(s, e, pt, p, u, c)
            == ResidualAt(s, e, pt, p, u, c)
  {
  }

  /** The step at c adds the direction-q inflow of c + e_q to that cell's entry. */
  lemma StepAtUpper(s: Scheme, e: Extents, pt: Patch, p: Problem, u: Field,
                    c: Cell, F: map<Cell, real>, q: int)
    requires ValidExtents(e) && ValidPatch(e, pt) && 0 <= q < 3
    requires InSweep(s, pt, c) && IsLocalArray(pt, F)
    requires Shift(c, q, 1) in F
    ensures Step(s, e, pt, p, u, c, F)[Shift(c, q, 1)]
            == F[Shift(c, q, 1)] + Inflow(s, e, pt, p, u, q, Shift(c, q, 1))
  {
    var d := Shift(c, q, 1);
    var r := Step(s, e, pt, p, u, c, F);
    assert Shift(d, q, -1) == c;
    var F1 := if Owned(pt, c) then F[c := CellUpdate(e, p, u, c, F[c])] else F;
    assert F1[d] == F[d];
    if Scatters(e, c) {
      var F2 := Scatter(s, e, pt, p, u, 0, c, F1);
      var F3 := Scatter(s, e, pt, p, u, 1, c, F2);
      if q == 0 {
        ScatterAtUpper(s, e, pt, p, u, 0, c, F1);
        assert F3[d] == F2[d] && r[d] == F3[d];
      } else if q == 1 {
        ScatterAtUpper(s, e, pt, p, u, 1, c, F2);
        assert F2[d] == F1[d] && r[d] == F3[d];
      } else {
        ScatterAtUpper(s, e, pt, p, u, 2, c, F3);
        assert F2[d] == F1[d] && F3[d] == F2[d];
      }
    } else {
      assert r[d] == F[d];
    }
  }

  /** Running the step at c takes every owned entry from position c to position c + e_x. */
  lemma StepAtCell(s: Scheme, e: Extents, pt: Patch, p: Problem, u: Field,
                   c: Cell, F: map<Cell, real>, d: Cell)
    requires ValidExtents(e) && ValidPatch(e, pt)
    requires InSweep(s, pt, c) && IsLocalArray(pt, F)
    requires d in F && F[d] == Expected(s, e, pt, p, u, c, d)
    ensures Step(s, e, pt, p, u, c, F)[d] == Expected(s, e, pt, p, u, Cell(c.i + 1, c.j, c.k), d)
  {
    if d == c {
      assert F[c] == Inflows(s, e, pt, p, u, c);
      StepAtSelf(s, e, pt, p, u, c, F);
    } else if d == Shift(c, 0, 1) {
      StepAtNeighbour(s, e, pt, p, u, c, F, 0);
    } else if d == Shift(c, 1, 1) {
      StepAtNeighbour(s, e, pt, p, u, c, F, 1);
    } else if d == Shift(c, 2, 1) {
      StepAtNeighbour(s, e, pt, p, u, c, F, 2);
    } else {
      StepElsewhere(s, e, pt, p, u, c, F, d);
    }
  }

  /** The entry of the upper neighbour c + e_q moves from position c to position c + e_x. */
  lemma StepAtNeighbour(s: Scheme, e: Extents, pt: Patch, p: Problem, u: Field,
                        c: Cell, F: map<Cell, real>, q: int)
    requires ValidExtents(e) && ValidPatch(e, pt) && 0 <= q < 3
    requires InSweep(s, pt, c) && IsLocalArray(pt, F)
    requires Shift(c, q, 1) in F && F[Shift(c, q, 1)] == Expected(s, e, pt, p, u, c, Shift(c, q, 1))
    ensures Step(s, e, pt, p, u, c, F)[Shift(c, q, 1)]
            == Expected(s, e, pt, p, u, Cell(c.i + 1, c.j, c.k), Shift(c, q, 1))
  {
    var next := Cell(c.i + 1, c.j, c.k);
    var d := Shift(c, q, 1);
    assert Shift(d, q, -1) == c;
    StepAtUpper(s, e, pt, p, u, c, F, q);
    assert !Precedes(d, next) && !Precedes(d, c);
    assert InflowBefore(s, e, pt, p, u, q, d, next) == Inflow(s, e, pt, p, u, q, d);
    assert InflowBefore(s, e, pt, p, u, q, d, c) == 0.0;
    forall q' | 0 <= q' < 3 && q' != q
      ensures InflowBefore(s, e, pt, p, u, q', d, next) == InflowBefore(s, e, pt, p, u, q', d, c)
    {
      assert Shift(d, q', -1) != c;
    }
  }

  /** An entry that is neither c nor an upper neighbour of c is untouched and keeps its expected value. */
  lemma StepElsewhere(s: Scheme, e: Extents, pt: Patch, p: Problem, u: Field,
                      c: Cell, F: map<Cell, real>, d: Cell)
    requires ValidExtents(e) && ValidPatch(e, pt)
    requires InSweep(s, pt, c) && IsLocalArray(pt, F)
    requires d in F && F[d] == Expected(s, e, pt, p, u, c, d)
    requires d != c && d != Shift(c, 0, 1) && d != Shift(c, 1, 1) && d != Shift(c, 2, 1)
    ensures Step(s, e, pt, p, u, c, F)[d] == Expected(s, e, pt, p, u, Cell(c.i + 1, c.j, c.k), d)
  {
    assert Shift(d, 0, -1) != c && Shift(d, 1, -1) != c && Shift(d, 2, -1) != c;
  }

  // ---------------------------------------------------------------------
  // Loop boundaries
  // ---------------------------------------------------------------------

  /** The end of row j is the start of row j + 1, for every entry. */
  lemma RowEnd(s: Scheme, e: Extents, pt: Patch, p: Problem, u: Field, j: int, k: int, d: Cell)
    requires ValidExtents(e) && ValidPatch(e, pt) && Owned(pt, d)
    ensures Expected(s, e, pt, p, u, Cell(pt.xs + pt.xm, j, k), d)
            == Expected(s, e, pt, p, u, Cell(XStart(s, pt), j + 1, k), d)
  {
  }

  /** The end of plane k is the start of plane k + 1, for every entry. */
  lemma PlaneEnd(s: Scheme, e: Extents, pt: Patch, p: Problem, u: Field, k: int, d: Cell)
    requires ValidExtents(e) && ValidPatch(e, pt) && Owned(pt, d)
    ensures Expected(s, e, pt, p, u, Cell(XStart(s, pt), pt.ys + pt.ym, k), d)
            == Expected(s, e, pt, p, u, Cell(XStart(s, pt), YStart(s, pt), k + 1), d)
  {
  }

  /** Before the first step every entry is still 0. */
  lemma SweepStart(s: Scheme, e: Extents, pt: Patch, p: Problem, u: Field, d: Cell)
    requires ValidExtents(e) && ValidPatch(e, pt) && Owned(pt, d)
    ensures Expected(s, e, pt, p, u, Cell(XStart(s, pt), YStart(s, pt), pt.zs - 1), d) == 0.0
  {
  }

  /** After the last step every entry holds its residual. */
  lemma SweepEnd(s: Scheme, e: Extents, pt: Patch, p: Problem, u: Field, d: Cell)
    requires ValidExtents(e) && ValidPatch(e, pt) && Owned(pt, d)
    ensures Expected(s, e, pt, p, u, Cell(XStart(s, pt), YStart(s, pt), pt.zs + pt.zm), d)
            == ResidualAt(s, e, pt, p, u, d)
  {
  }

  // ---------------------------------------------------------------------
  // The loop nest
  // ---------------------------------------------------------------------

  /** Every entry of F is what it should be at position pos. */
  predicate AtPosition(s: Scheme, e: Extents, pt: Patch, p: Problem, u: Field,
                       pos: Cell, F: map<Cell, real>)
    requires ValidExtents(e)
  {
    forall d {:trigger F[d]} :: d in F ==> F[d] == Expected(s, e, pt, p, u, pos, d)
  }

  lemma StepAdvances(s: Scheme, e: Extents, pt: Patch, p: Problem, u: Field,
                     c: Cell, F: map<Cell, real>)
    requires ValidExtents(e) && ValidPatch(e, pt)
    requires InSweep(s, pt, c) && IsLocalArray(pt, F)
    requires AtPosition(s, e, pt, p, u, c, F)
    ensures AtPosition(s, e, pt, p, u, Cell(c.i + 1, c.j, c.k), Step(s, e, pt, p, u, c, F))
  {
    var r := Step(s, e, pt, p, u, c, F);
    forall d | d in r
      ensures r[d] == Expected(s, e, pt, p, u, Cell(c.i + 1, c.j, c.k), d)
    {
      StepAtCell(s, e, pt, p, u, c, F, d);
    }
  }

  lemma RowAdvances(s: Scheme, e: Extents, pt: Patch, p: Problem, u: Field,
                    j: int, k: int, F: map<Cell, real>)
    requires ValidExtents(e) && ValidPatch(e, pt) && IsLocalArray(pt, F)
    requires AtPosition(s, e, pt, p, u, Cell(pt.xs + pt.xm, j, k), F)
    ensures AtPosition(s, e, pt, p, u, Cell(XStart(s, pt), j + 1, k), F)
  {
    forall d | d in F
      ensures F[d] == Expected(s, e, pt, p, u, Cell(XStart(s, pt), j + 1, k), d)
    {
      RowEnd(s, e, pt, p, u, j, k, d);
    }
  }

  lemma PlaneAdvances(s: Scheme, e: Extents, pt: Patch, p: Problem, u: Field,
                      k: int, F: map<Cell, real>)
    requires ValidExtents(e) && ValidPatch(e, pt) && IsLocalArray(pt, F)
    requires AtPosition(s, e, pt, p, u, Cell(XStart(s, pt), pt.ys + pt.ym, k), F)
    ensures AtPosition(s, e, pt, p, u, Cell(XStart(s, pt), YStart(s, pt), k + 1), F)
  {
    forall d | d in F
      ensures F[d] == Expected(s, e, pt, p, u, Cell(XStart(s, pt), YStart(s, pt), k + 1), d)
    {
      PlaneEnd(s, e, pt, p, u, k, d);
    }
  }

  lemma ClearedAtStart(s: Scheme, e: Extents, pt: Patch, p: Problem, u: Field, F: map<Cell, real>)
    requires ValidExtents(e) && ValidPatch(e, pt) && IsLocalArray(pt, F)
    requires forall d :: d in F ==> F[d] == 0.0
    ensures AtPosition(s, e, pt, p, u, Cell(XStart(s, pt), YStart(s, pt), pt.zs - 1), F)
  {
    forall d | d in F
      ensures F[d] == Expected(s, e, pt, p, u, Cell(XStart(s, pt), YStart(s, pt), pt.zs - 1), d)
    {
      SweepStart(s, e, pt, p, u, d);
    }
  }

  lemma FinishedAtEnd(s: Scheme, e: Extents, pt: Patch, p: Problem, u: Field, F: map<Cell, real>)
    requires ValidExtents(e) && ValidPatch(e, pt) && IsLocalArray(pt, F)
    requires AtPosition(s, e, pt, p, u, Cell(XStart(s, pt), YStart(s, pt), pt.zs + pt.zm), F)
    ensures forall d :: d in F ==> F[d] == ResidualAt(s, e, pt, p, u, d)
  {
    forall d | d in F
      ensures F[d] == ResidualAt(s, e, pt, p, u, d)
    {
      SweepEnd(s, e, pt, p, u, d);
    }
  }

  /** The three loops start at or before their upper bounds. */
  lemma SweepRange(s: Scheme, e: Extents, pt: Patch)
    requires ValidExtents(e) && ValidPatch(e, pt)
    ensures XStart(s, pt) <= pt.xs + pt.xm && YStart(s, pt) <= pt.ys + pt.ym && pt.zs - 1 <= pt.zs + pt.zm
  {
  }

  /** An index within the three loop ranges is visited by the sweep. */
  lemma InSweepAt(s: Scheme, pt: Patch, i: int, j: int, k: int)
    requires XStart(s, pt) <= i < pt.xs + pt.xm && YStart(s, pt) <= j < pt.ys + pt.ym
    requires pt.zs - 1 <= k < pt.zs + pt.zm
    ensures InSweep(s, pt, Cell(i, j, k))
  {
  }

  /** The clearing loop: one entry per owned cell, every entry 0. */
  function Cleared(pt: Patch): (F: map<Cell, real>)
    ensures IsLocalArray(pt, F)
    ensures forall d :: d in F ==> F[d] == 0.0
  {
    var cells := OwnedCells(pt);
    var F := map c | c in cells :: 0.0;
    assert F.Keys == cells;
    F
  }

  /**
   * The body of the innermost loop at index c: afterwards the array is as
   * it should be one position later.
   */
  method LoopBody(s: Scheme, e: Extents, pt: Patch, p: Problem, u: Field,
                  i: int, j: int, k: int, F0: map<Cell, real>) returns (F: map<Cell, real>)
    requires ValidExtents(e) && ValidPatch(e, pt)
    requires InSweep(s, pt, Cell(i, j, k)) && IsLocalArray(pt, F0)
    requires AtPosition(s, e, pt, p, u, Cell(i, j, k), F0)
    ensures IsLocalArray(pt, F)
    ensures AtPosition(s, e, pt, p, u, Cell(i + 1, j, k), F)
  {
    hide *;
    StepAdvances(s, e, pt, p, u, Cell(i, j, k), F0);
    F := Step(s, e, pt, p, u, Cell(i, j, k), F0);
  }

  /** The innermost loop: the steps i = XStart .. xs+xm-1 of row (j, k). */
  method SweepRow(s: Scheme, e: Extents, pt: Patch, p: Problem, u: Field,
                  j: int, k: int, F0: map<Cell, real>) returns (F: map<Cell, real>)
    requires ValidExtents(e) && ValidPatch(e, pt) && IsLocalArray(pt, F0)
    requires YStart(s, pt) <= j < pt.ys + pt.ym && pt.zs - 1 <= k < pt.zs + pt.zm
    requires AtPosition(s, e, pt, p, u, Cell(XStart(s, pt), j, k), F0)
    ensures IsLocalArray(pt, F)
    ensures AtPosition(s, e, pt, p, u, Cell(XStart(s, pt), j + 1, k), F)
  {
    hide *;
    F := F0;
    var i := XStart(s, pt);
    SweepRange(s, e, pt);
    while i < pt.xs + pt.xm
      invariant XStart(s, pt) <= i <= pt.xs + pt.xm
      invariant IsLocalArray(pt, F)
      invariant AtPosition(s, e, pt, p, u, Cell(i, j, k), F)
    {
      InSweepAt(s, pt, i, j, k);
      F := LoopBody(s, e, pt, p, u, i, j, k, F);
      i := i + 1;
    }
    RowAdvances(s, e, pt, p, u, j, k, F);
  }

  /** The middle loop: the rows j = YStart .. ys+ym-1 of plane k. */
  method SweepPlane(s: Scheme, e: Extents, pt: Patch, p: Problem, u: Field,
                    k: int, F0: map<Cell, real>) returns (F: map<Cell, real>)
    requires ValidExtents(e) && ValidPatch(e, pt) && IsLocalArray(pt, F0)
    requires pt.zs - 1 <= k < pt.zs + pt.zm
    requires AtPosition(s, e, pt, p, u, Cell(XStart(s, pt), YStart(s, pt), k), F0)
    ensures IsLocalArray(pt, F)
    ensures AtPosition(s, e, pt, p, u, Cell(XStart(s, pt), YStart(s, pt), k + 1), F)
  {
    hide *;
    F := F0;
    var j := YStart(s, pt);
    SweepRange(s, e, pt);
    while j < pt.ys + pt.ym
      invariant YStart(s, pt) <= j <= pt.ys + pt.ym
      invariant IsLocalArray(pt, F)
      invariant AtPosition(s, e, pt, p, u, Cell(XStart(s, pt), j, k), F)
    {
      F := SweepRow(s, e, pt, p, u, j, k, F);
      j := j + 1;
    }
    PlaneAdvances(s, e, pt, p, u, k, F);
  }

  /**
   * FormFunctionLocal: the residual array of the patch.  Every owned cell
   * gets exactly one entry, and that entry is `ResidualAt` of the cell,
   * whatever the order in which the fluxes reached it.
   */
  method FormFunctionLocal(s: Scheme, e: Extents, pt: Patch, p: Problem, u: Field)
    returns (F: map<Cell, real>)
    requires ValidExtents(e) && ValidPatch(e, pt)
    ensures IsLocalArray(pt, F)
    ensures forall c :: c in F ==> F[c] == ResidualAt(s, e, pt, p, u, c)
  {
    hide *;
    F := Cleared(pt);
    ClearedAtStart(s, e, pt, p, u, F);
    var k := pt.zs - 1;  // the k sweep starts one plane below the patch
    SweepRange(s, e, pt);
    while k < pt.zs + pt.zm
      invariant pt.zs - 1 <= k <= pt.zs + pt.zm
      invariant IsLocalArray(pt, F)
      invariant AtPosition(s, e, pt, p, u, Cell(XStart(s, pt), YStart(s, pt), k), F)
    {
      F := SweepPlane(s, e, pt, p, u, k, F);
      k := k + 1;
    }
    FinishedAtEnd(s, e, pt, p, u, F);
  }
}
