# ad3: residual of a 3D advection–diffusion–reaction problem, in Dafny

This project models the residual assembler of `c/ch10/ad3.c`, which
discretises

    - eps Laplacian u + div(a u) = g(x, y, z, u)

on the cube [-1,1]^3. Diffusion uses second-order central differences.
Advection uses face fluxes: first-order upwind, plus an optional
flux-limiter correction (`centered` or `vanleer`). The boundary
conditions are Dirichlet in x and y and periodic in z. The model has
eight modules:

- `Common`: the `Option` and `Result` wrappers shared by the others.
- `Limiters`: the two limiter functions, the `LimiterType`
  enumeration, the `limiterptr` table, the option names and the halo
  (stencil) width.
- `Flux`: the face flux of one face. It covers upwind selection, the
  ratio θ, and the limiter correction with its `u_dn != u_up` guard.
- `Grid`: the grid extents, the spacings `hx = 2/(mx-1)`,
  `hy = 2/(my-1)` and `hz = 2/mz`, the node and cell-centre
  coordinates, the owned patch `xs..xs+xm-1` (and likewise in y and z),
  the "deep" predicate and the halo.
- `Residual`:
  - the Laplacian with the wall values substituted, the cell update and
    the face flux of one direction;
  - one pass of the innermost loop body (`Step`), which does the
    own-cell update followed by the scatter of the x, y and z fluxes;
  - the closed form `ResidualAt`, which says what every owned entry
    holds after the whole pass.
- `Assembly`: `FormFunctionLocal` as the source's loop nest. It clears
  F on the owned cells, then sweeps k from `zs-1`, then j, then i. It is
  proved to produce exactly `ResidualAt` in every owned entry.
- `ResidualProperties`:
  - the Dirichlet overrides;
  - the conservative form of the residual;
  - cancellation of a face pair;
  - constant fields;
  - the Laplacian never reading a wall cell's stored value;
  - the halo the residual reads;
  - telescoping conservation along a row and along a periodic column;
  - the findings below.
- `Driver`: the option handling in `main`. The defaults are eps = 1 and
  the centered limiter. A non-positive eps is rejected before the
  limiter option is read. The limiter is chosen by name. The requested
  grid is 6 x 6 x mz, where mz is 6 without a limiter and 5 with one.
  The stencil width is 1 without a limiter and 2 with one.

The field is a total function from index triples to reals. Ghost
values, which the halo exchange fills in the program, are whatever
the caller's function returns there. The wind `a`, the source `g` and
the boundary trace `b` are uninterpreted functions held in a
`Problem`.

The as-written code has defects (see "## Findings"). So
`FormFunctionLocal` and `ResidualAt` take a `Scheme`:

- `AsWritten` follows the control flow of ad3.c literally.
- `Repaired` is the evidently intended behaviour:
  - the z flux is scattered;
  - a flux is added only to owned cells that are not on a Dirichlet
    wall;
  - the i and j sweeps start one column and one row before the patch,
    as the k sweep already does.

Both readings are proved equal to their closed forms. The properties
are stated for both where they hold for both.

The help text at the top of ad3.c (lines 7-11) disagrees with the code
in one place, and this model follows the code. The help text, and the
layer comment at lines 88-90, put u = b(y,z) on x = 1, u = 0 on the
planes x = -1 and z = ±1, and make y periodic. The code swaps the
roles of y and z:

- z is the periodic axis (`DM_BOUNDARY_PERIODIC` on z, `hz = 2/mz`,
  cell centres `z = -1 + (k+1/2) hz`);
- u = 0 is applied on the walls i = 0, j = 0 and j = my-1, that is on
  x = -1 and y = ±1, and u = b(y,z) on i = mx-1.

The first item of the TODO list (line 19) and the stray line at line
144 ask for a transpose without saying which axes. The help text and
the layer solution have not been updated to match the code.

As written, the file does not compile:

- the stray line `FIXME: implement transpose` (line 144);
- `Ctx` is used where the struct is declared as `AdCtx` (lines 77, 146
  and 254);
- `b_bdry`, `g_source`, `a_wind` and `formUex` are called but never
  defined.

The model reads `b_bdry(y,z,usr)`, `g_source(x,y,z,uu,usr)` and
`a_wind(x,y,z,q,usr)` as calls of the context's boundary, source and
wind functions.

## Model

| member | source | states |
|---|---|---|
| Limiters.CenteredIsConstant | c/ch10/ad3.c:57-59 | the centered limiter returns 0.5 whatever the ratio θ |
| Limiters.VanLeerWeight | c/ch10/ad3.c:61-64 | van Leer is total. It is 0 for every θ ≤ 0. For θ > 0 it lies strictly between 0 and min(1, θ) and solves w (1 + θ) = θ |
| Limiters.Weight | c/ch10/ad3.c:57-64 | every limiter weight lies in [0, 1). Centered gives 0.5. Van Leer gives 0 on θ ≤ 0 and a value in (0, θ) on θ > 0 |
| Limiters.VanLeerSamples | c/ch10/ad3.c:61-64 | van Leer at θ = -5, -1, -1/2, 0, 1/2, 1, 5 is 0, 0, 0, 0, 1/3, 1/2, 5/6 |
| Limiters.SecondOrderOnSmoothData | c/ch10/ad3.c:57-64 | both limiters give 1/2 at θ = 1 (smooth data), i.e. the centered face value |
| Limiters.VanLeerMonotone | c/ch10/ad3.c:61-64 | van Leer is non-decreasing in θ |
| Limiters.VanLeerSymmetric | c/ch10/ad3.c:61-64 | van Leer's symmetry: w(1/θ) = w(θ)/θ for θ > 0 |
| Limiters.VanLeerTendsToOne | c/ch10/ad3.c:61-64 | van Leer tends to 1 as θ grows: w(1/δ) > 1 - δ for 0 < δ |
| Limiters.TvdRegion | c/ch10/ad3.c:61-64 | van Leer stays in Sweby's second-order TVD region: 0 on θ ≤ 0; for θ > 0 at least min(θ, 1)/2, at most min(θ, 1), and at most 1/2 on 0 < θ ≤ 1 and θ/2 on θ ≥ 1 |
| Limiters.VanLeerUpperBound | c/ch10/ad3.c:61-64 | for θ > 0, van Leer is at most 1/2 up to θ = 1 and at most θ/2 from there on: the upper edge of the second-order region |
| Limiters.VanLeerLowerBound | c/ch10/ad3.c:61-64 | for θ > 0, van Leer is at least half of min(θ, 1) |
| Limiters.LimiterPtr | c/ch10/ad3.c:66-69 | the `limiterptr` table: no function exactly for NONE, the centered function exactly for CENTERED, van Leer exactly for VANLEER |
| Limiters.StencilWidth | c/ch10/ad3.c:281 | the stencil width is 1 exactly when there is no limiter function, and 2 otherwise |
| Limiters.TableAndWidth | c/ch10/ad3.c:66-69 | `limiterptr` maps NONE to no function, CENTERED to centered and VANLEER to van Leer. The stencil width is 1 exactly for NONE and 2 exactly for the others |
| Limiters.ParseLimiter | c/ch10/ad3.c:66-68 | a name is accepted if and only if it equals one of "none", "centered", "vanleer" up to ASCII letter case, and the accepted value's name is the given string up to letter case |
| Limiters.ParseIgnoresCase | c/ch10/ad3.c:66-68 | two names that differ only in ASCII letter case parse to the same result |
| Limiters.ParseSamples | c/ch10/ad3.c:66-68 | "VanLeer", "NONE" and "Centered" are accepted as van Leer, none and centered; "van-leer" and the empty name are rejected |
| Limiters.ParseName | c/ch10/ad3.c:66-68 | parsing the name of every enumeration value gives that value back (round trip) |
| Flux.UpwindSelection | c/ch10/ad3.c:205-209 | a ≥ 0 takes the lower cell as upwind and the upper as downwind; a < 0 the reverse |
| Flux.FaceValue | c/ch10/ad3.c:205-215 | the face value lies between the two cells' values. Without a limiter, off the deep region, or when the two values are equal, it is the upwind value (θ is then never formed) |
| Flux.FaceFlux | c/ch10/ad3.c:204-216 | without a limiter, off the deep region, or when the two values are equal, the flux is exactly a u_up |
| Flux.FluxCarriesFaceValue | c/ch10/ad3.c:204-216 | the flux is the wind times the face value, so it is a times a value between the two cells' values |
| Flux.CorrectedFlux | c/ch10/ad3.c:211-214 | with unequal values and a limiter, the flux is a (u_up + w(θ)(u_dn - u_up)), a convex blend with 0 ≤ w ≤ 1 and θ = (u_up - u_far)/(u_dn - u_up) |
| Flux.NoLimiterIsUpwind | c/ch10/ad3.c:208-210 | without a limiter the flux equals the limited flux with the correction switched off, a u_up |
| Flux.FluxFollowsWind | c/ch10/ad3.c:204-216 | for non-negative cell values the flux has the sign of the wind |
| Flux.UniformStateFlux | c/ch10/ad3.c:209-210 | equal values on both sides give flux a c with any limiter |
| Grid.Hx | c/ch10/ad3.c:153 | hx > 0 and (mx - 1) hx = 2 |
| Grid.Hy | c/ch10/ad3.c:154 | hy > 0 and (my - 1) hy = 2 |
| Grid.Hz | c/ch10/ad3.c:155 | hz > 0 and mz hz = 2: the periodic axis has no duplicated end point |
| Grid.DirichletAxesSpanDomain | c/ch10/ad3.c:172-174 | the first and last x and y nodes lie on the walls -1 and 1 |
| Grid.PeriodicAxisTiles | c/ch10/ad3.c:169-170 | the z cells tile [-1, 1] exactly, and shifting k by mz shifts z by the period 2 |
| Grid.OwnedCells | c/ch10/ad3.c:164-167 | the cleared set is exactly the owned patch |
| Grid.DeepFarIndicesInside | c/ch10/ad3.c:207-212 | at a deep cell the far-upwind indices i-1, i+2, j-1, j+2 stay inside the grid |
| Residual.Laplacian | c/ch10/ad3.c:183-190 | at a cell strictly inside the x and y walls, the Laplacian with wall values substituted equals the plain 7-point Laplacian of any field that takes the wall values b on x = 1 and 0 on the other walls |
| Residual.CellUpdate | c/ch10/ad3.c:177-193 | a wall cell's entry is overwritten with its Dirichlet residual (u - b on i = mx-1, u elsewhere); an interior cell's entry is its current value minus (eps Lap u + g) |
| Residual.StepFlux | c/ch10/ad3.c:204-216 | the direction-q flux at c is the face wind times the face value of the lower cell c and upper cell c + e_q; without a limiter, or off the deep region, it is the wind times the upwind value |
| Residual.ResidualAt | c/ch10/ad3.c:177-237 | a wall cell's residual is its Dirichlet residual in the repaired reading, and in the as-written reading wherever the cell computes no fluxes |
| Residual.Scatter | c/ch10/ad3.c:217-237 | the scatter of one flux keeps the owned keys and changes no entry other than the lower and upper cell of the face |
| Residual.Step | c/ch10/ad3.c:177-238 | one loop-body pass keeps the owned keys and changes no entry other than the cell and its three upper neighbours |
| Assembly.StepAtCell | c/ch10/ad3.c:177-238 | one pass of the loop body at c takes every owned entry from what it holds before c to what it holds before the next index: c's own entry becomes its final residual, each upper neighbour gains its inflow, every other entry is unchanged |
| Assembly.StepAtSelf | c/ch10/ad3.c:177-233 | if c's entry holds all its inflows, the pass at c leaves it holding c's residual (a wall cell's overwrite discards the inflows) |
| Assembly.StepAtNeighbour | c/ch10/ad3.c:219-235 | the pass at c adds to the upper neighbour c + e_q exactly its direction-q inflow, and nothing else reaches it |
| Assembly.ClearedAtStart | c/ch10/ad3.c:163-169 | after the clear, and before the ghost plane k = zs-1, every owned entry is 0 |
| Assembly.SweepRow | c/ch10/ad3.c:173-238 | the i loop advances the pass from the row's first cell to the next row |
| Assembly.SweepPlane | c/ch10/ad3.c:171-239 | the j loop advances the pass from the plane's first row to the next plane |
| Assembly.FormFunctionLocal | c/ch10/ad3.c:145-243 | the loop nest fills exactly the owned cells, and every entry equals the closed-form residual of that cell, in both readings |
| ResidualProperties.WallResiduals | c/ch10/ad3.c:178-181 | in both readings: u - b(y,z) on i = mx-1, u on j = my-1, and u at the corner i = j = 0 |
| ResidualProperties.RepairedWallExact | c/ch10/ad3.c:178-181 | repaired: every wall residual is u - b(y,z) on i = mx-1 and u elsewhere, and does not depend on any other cell's value |
| ResidualProperties.AsWrittenWallLeak | c/ch10/ad3.c:219-229 | as written, a cell on i = 0 (strictly between the y walls) has residual u + F_N/hy, and one on j = 0 has u + F_E/hx |
| ResidualProperties.WallLeakExample | c/ch10/ad3.c:219-221 | on a 3 x 3 x 1 grid with wind (-1,0,0), the wall cell (1,0,0) with u = 0 has residual -1 as written and 0 repaired |
| ResidualProperties.RepairedIsConservative | c/ch10/ad3.c:182-237 | repaired: an interior cell's residual is -(eps Lap u + g) plus, per axis, (upper-face flux - lower-face flux)/h |
| ResidualProperties.RepairedPartitionIndependent | c/ch10/ad3.c:169-173 | repaired: the residual of a cell is the same whichever patch owns it |
| ResidualProperties.AsWrittenInteriorLacksVerticalFlux | c/ch10/ad3.c:218-237 | as written (patch at the origin): an interior residual is the conservative one without its z-flux term |
| ResidualProperties.AsWrittenIgnoresVerticalWind | c/ch10/ad3.c:231-236 | as written, the residual does not depend on the vertical wind at all |
| ResidualProperties.AsWrittenDropsPartitionFace | c/ch10/ad3.c:171-173 | as written, a patch whose first column xs is c's column gives c a residual that exceeds, by F_W/hx, the one given by a patch that also owns c's west neighbour |
| ResidualProperties.FacePairCancels | c/ch10/ad3.c:219-229 | for two owned cells sharing a face, with the lower one interior, the +flux/h and -flux/h contributions cancel |
| ResidualProperties.ConstantFieldFlux | c/ch10/ad3.c:204-216 | on a constant field every face flux is a times the constant |
| ResidualProperties.ConstantFieldLaplacian | c/ch10/ad3.c:183-192 | on a constant field, two cells from the walls, uxx + uyy + uzz = 0, and diffusion and reaction reduce to -g |
| ResidualProperties.ConstantFieldAdvection | c/ch10/ad3.c:204-237 | on a constant field c0 the advection along q is c0 times (upper-face wind - lower-face wind)/h |
| ResidualProperties.ConstantFieldInterior | c/ch10/ad3.c:183-237 | on a constant field c0, two cells from the walls, the conservative residual is -g plus c0 times the discrete divergence of the face winds |
| ResidualProperties.UniformWindAdvection | c/ch10/ad3.c:199-237 | a constant field under a spatially uniform wind has zero advection along every axis |
| ResidualProperties.ConstantFieldUniformWind | c/ch10/ad3.c:183-237 | a constant field under a uniform wind has repaired residual -g two cells from the walls |
| ResidualProperties.LaplacianIgnoresWallCells | c/ch10/ad3.c:184-190 | the Laplacian of an interior cell never reads a wall cell's stored value |
| ResidualProperties.FluxFrame | c/ch10/ad3.c:205-213 | a face flux reads the two cells of the face, and the two beyond only with a limiter at a deep cell |
| ResidualProperties.HaloIsStar | c/ch10/ad3.c:276 | the star-stencil halo holds every cell up to w steps from an owned cell along one axis (inside the x and y walls), and no cell off the owned range along two axes |
| ResidualProperties.ResidualReadsOnlyHalo | c/ch10/ad3.c:275-281 | the residual of an owned cell depends only on values in the star-shaped ghost region (`DMDA_STENCIL_STAR`) of the stencil width, 1 or 2: the edge and corner ghosts the program never fills are not read, in both readings |
| ResidualProperties.DifferencesTelescope | c/ch10/ad3.c:219-236 | for any face flux, the sum over n consecutive cells of (upper-face flux - lower-face flux)/h is (last upper face - first lower face)/h |
| ResidualProperties.AxisSumTerms | c/ch10/ad3.c:199-237 | the axis sum grows, cell by cell, by exactly that cell's advection term of the conservative residual |
| ResidualProperties.RowConservation | c/ch10/ad3.c:219-224 | along a row of interior cells i = 1 .. mx-2, the x-advection terms sum to (flux of the face next to x = 1 - flux of the face next to x = -1)/hx |
| ResidualProperties.ColumnConservation | c/ch10/ad3.c:199-216 | along a periodic z column with periodic ghosts, the z-advection terms sum to 0 |
| ResidualProperties.PeriodicFaceFlux | c/ch10/ad3.c:204-216 | the face below plane 0 and the face above plane mz-1 carry the same flux under periodic ghosts and wind |
| Driver.GridSize | c/ch10/ad3.c:272-277 | the requested grid is 6 x 6 x 6 without a limiter and 6 x 6 x 5 with one |
| Driver.Setup | c/ch10/ad3.c:258-281 | eps defaults to 1 and the limiter to centered. The result is an error for eps ≤ 0 (exactly), else an error for a limiter name that matches none of the three names in any letter case (exactly), else a configuration whose function, grid and stencil width follow the table |
| Driver.SetupDefaults | c/ch10/ad3.c:258-259 | with no options: eps 1, centered, grid 6 x 6 x 5, width 2 |
| Driver.EpsCheckedFirst | c/ch10/ad3.c:262-269 | a non-positive eps is reported whatever limiter name is given |
| Driver.SetupIgnoresCase | c/ch10/ad3.c:267-269 | "VanLeer" is accepted and selects the van Leer function |
| Driver.SetupSelectsNamedLimiter | c/ch10/ad3.c:267-281 | each name selects its own enumeration value, with width 1 for "none" and 2 otherwise |

## Left out

- Floating point: all arithmetic is over `real`, so rounding is not
  modelled.
- The PETSc grid, the SNES solve, the error norm and the printing
  (lines 274-324) are left out. They are library calls and I/O. The
  model covers only the requested extents and stencil width passed to
  `DMDACreate3d`. `-da_refine` and other grid options can change the
  extents; `FormFunctionLocal` takes them as parameters.
- `DMDASetUniformCoordinates` (lines 290-293) is not modelled. It sets
  cell-centred coordinates in x, y and z, but `FormFunctionLocal` does not
  use them: it computes node coordinates `x = -1 + i hx` itself. The
  model follows `FormFunctionLocal`.
- The halo exchange and the partitioning are not modelled. The owned
  patch is a parameter. The ghost values are whatever the field function
  returns outside the patch. `ResidualReadsOnlyHalo` states which ones
  are read.
- The manufactured layer solution `layer_u`, `layer_a`, `layer_g`,
  `layer_b` and `FormLayerUExact` (lines 98-142) is left out:
  - it uses `exp` and `sin`;
  - `FormLayerUExact` reads `j` before the j loop assigns it (line 131);
  - it swaps hy and hz (lines 127-128).
  The wind, source and boundary trace are uninterpreted functions
  instead.
- The boundary, source and wind calls do not match the context as
  written: `g_fcn` is declared with an `int` fourth parameter although
  `uu` is passed, `b_fcn` takes three doubles and an int rather than
  (y, z), and `main` never assigns `a_fcn`, `g_fcn` or `b_fcn`. The
  model takes the three functions as parameters of a `Problem` with the
  arguments the call sites pass.
- `w0` in the context is never read by the residual, so it is not
  modelled.
- Limiters.ParseLimiter: the name is matched against the three names
  without regard to letter case, as PETSc's enumeration options do.
  Only ASCII letters are folded; other case mappings are not modelled.
- Driver.Setup: inherits the letter-case matching of ParseLimiter,
  with the same restriction to ASCII letters.
- Grid.Hx and Grid.Hy: require mx ≥ 2 and my ≥ 2. The program does not
  guard this: with mx = 1 or my = 1 it divides by zero, so hx or hy is
  infinite and the coordinates are NaN. The model does not describe
  that degenerate grid.
- Limiters.VanLeerTendsToOne: states the limit over the reals. In the
  program's double arithmetic θ (line 213) can overflow to ±infinity,
  and van Leer of an infinite θ is NaN (infinity over infinity), not 1.
- The option names `-ad3_eps` and `-ad3_limiter` are modelled only
  through their values. A missing option is `None`.
- The q loop of lines 199-238 is written out as three `Scatter` calls
  in the order x, y, z.
- python/ch13/stokes.py and c/c2poisson.c are not part of this model.
  They are a Firedrake script and a KSP driver, and structuredpoisson.h,
  which holds the latter's assembly, is not part of this model.
- ResidualProperties.AsWrittenInteriorLacksVerticalFlux: stated only for
  a patch that starts at the origin in x and y. Elsewhere the dropped
  partition face of Finding C changes the first row and column as well.
- ResidualProperties.ConstantFieldUniformWind: stated only for the
  repaired reading. The as-written reading also drops the z flux, which
  under a uniform wind is zero anyway.

## Findings

| source | as written | input that shows it | evidently intended | confidence | as-written member | corrected member |
|---|---|---|---|---|---|---|
| c/ch10/ad3.c:231 | the z-flux branch is labelled `case 3`, but q runs over 0..2, so top and bottom fluxes are computed and never added | any wind with a non-zero z component: changing only a(·,·,·,2) leaves the residual unchanged | `case 2`: each z flux is added to the lower cell and subtracted from the upper one | high; not executed | ResidualProperties.AsWrittenIgnoresVerticalWind | ResidualProperties.RepairedIsConservative |
| c/ch10/ad3.c:220-227 | the self-add guards are `i > 0` and `j > 0`. A wall cell on i = 0 (0 < j < my-1) keeps +F_N/hy, and one on j = 0 (0 < i < mx-1) keeps +F_E/hx, after its Dirichlet override | grid 3 x 3 x 1, wind (-1,0,0), u = 1 at (2,0,0) and 0 elsewhere: residual at wall cell (1,0,0) is -1 instead of 0 | add the flux only to owned cells that are not on a wall, as the comment at line 217 says | high; not executed | ResidualProperties.WallLeakExample | ResidualProperties.RepairedWallExact |
| c/ch10/ad3.c:171-173 | the j and i loops start at ys and xs, while k starts at zs-1. The face between columns xs-1 and xs (rows ys-1 and ys) is computed by no patch, so its flux is missing from the first owned column or row | two patches splitting x at xs ≥ 1 give the cell (xs, j, k) residuals that differ by F_W/hx | start the i and j sweeps one cell early, as the k sweep deliberately does | medium; not executed | ResidualProperties.AsWrittenDropsPartitionFace | ResidualProperties.RepairedPartitionIndependent |
