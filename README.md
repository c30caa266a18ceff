# SUNTANS open-boundary and initial-condition bookkeeping

This project models the boundary-condition bookkeeping of the SUNTANS
preprocessing module `dataio/suntans/sunboundary.py`, and proves properties of
that model in Dafny.

- **`Boundary`** decides which mesh edges carry a type-2 (flux) condition and
  which cells carry a type-3 (value) condition. It also groups type-2 edges into
  flux segments, builds the time axis and allocates the field arrays. It then
  fills those arrays from the results of a regional model (ROMS), a gridded
  ocean analysis, or a tidal prediction (OTIS). Finally it writes everything to a
  netCDF file, and can be rebuilt from that file.
- **`InitialCond`** holds one instant of the same fields over every cell. It also
  holds age-tracer fields, whose source term is set from polygons.
- **`modifyBCmarker`** re-marks the boundary edges of a mesh from the polygons of
  a shapefile.

The modules follow the program's structure:

- `Grids`: the mesh.
  - It stores the marker, segment-tag and adjacency arrays.
  - It also holds Python-style indexing: index `-1` means the last element.
- `Topology`: the `argwhere` / `unique` selections of `_loadBoundary`, as
  functions with their characterisation.
- `TimeAxis`: the `getTime` loop and the `ncTime` encoding.
- `Fields` and `FieldStores`: the field arrays and the in-place loops over them.
  - `Fields` has the value types.
  - `FieldStores` has the `array2`/`array3` store and its update methods.
- `Sources`: one specification function per data source. Each says which arrays
  that source adds to, overwrites or leaves alone.
- `Persistence`: the boundary file, modelled as a map of dimensions and a map of
  variables, with the writer, the reader and the round-trip proof.
- `Boundaries`: the `Boundary` class.
- `InitialConditions`: the `InitialCond` class.
- `MarkerEditor`: `modifyBCmarker`.

The classes carry state the way the source does:

- The mesh's adjacency table, markers and segment tags are arrays that
  `setDepth` and `modifyBCmarker` rewrite in place.
- The field arrays are rewritten in place by the accumulators.
- Every accumulator method is proved to leave its arrays equal to a
  specification function of the old arrays. The properties are then proved about
  those functions.

Things the model keeps from the code, as the code does them:

- A type-3 edge contributes a cell only when one of its neighbours is missing (`-1`).
- When both neighbours are missing, the edge contributes `-1`. Later indexing
  then reads the last cell, through Python's negative indexing.
- Flux segments are taken over every edge with a positive tag, not only type-2 edges.
- `Nseg` is 0 whenever there are no type-2 edges.
- `setDepth` overwrites the missing neighbours of the mesh's adjacency table
  in place. `FilledHidesOpenSide` shows that, on a later resolution of the same
  mesh, a one-sided type-3 edge no longer contributes a cell; `FilledKeepsBareEdge`
  shows that an edge with no neighbours still contributes `-1`.
- `oceanmodel2ic` ignores its `setUV` argument.
- `otis2boundary` adds the tidal velocities to the type-2 edges whatever
  `setUV` says, and never writes `boundary_h`.

Inputs from outside the model:

- Interpolators, the tidal predictor, the shapefile reader and the
  point-in-polygon test are outside the model.
- Their results arrive as method arguments already shaped like the target arrays.
- The point-in-polygon test is a function parameter.
- Instants are whole seconds since 1970-01-01.

## Model

| member | source | states |
|---|---|---|
| Topology.EdgesMarked | dataio/suntans/sunboundary.py:120-125 | the selected indices are strictly increasing, are exactly the edges with the given marker, and their number is the count of such markers |
| Topology.OpenCellsMembers | dataio/suntans/sunboundary.py:128-135 | a cell is collected exactly when some listed type-3 edge has it as its open side; an edge with two cells contributes nothing |
| Topology.SortedUnique | dataio/suntans/sunboundary.py:140-141 | `numpy.unique` is strictly increasing, has exactly the elements of its input, and is no longer than it |
| Topology.PositiveIds | dataio/suntans/sunboundary.py:154-155 | the positive tags taken are exactly the positive values among all edges' tags |
| Topology.ResolveSpec | dataio/suntans/sunboundary.py:119-167 | `edgep` is exactly the marker-2 edges in mesh order and `N2` their count; `cellp` is strictly increasing, no longer than the marker-3 edges, and holds exactly the open-side cells of marker-3 edges; `segp` is sorted unique positive tags of all edges; `Nseg == 0` when `N2 == 0`; each `segedgep[n]` is the tag of `edgep[n]` when positive, else 0 |
| Topology.StrictlyIncreasingUnique | dataio/suntans/sunboundary.py:140-141 | two strictly increasing sequences with the same elements are equal, so the result of `unique` is determined by its element set |
| Topology.ResolveDeterministic | dataio/suntans/sunboundary.py:128-145 | any strictly increasing sequence holding exactly the open-side cells of marker-3 edges is the resolved `cellp` |
| Topology.CellsInRange | dataio/suntans/sunboundary.py:128-145 | every type-3 cell collected is a cell of the mesh or -1 |
| Boundaries.CollectType3Cells | dataio/suntans/sunboundary.py:128-135 | the loop over the marker-3 edges appends exactly the open side of each, in edge order |
| Boundaries.SegmentPointers | dataio/suntans/sunboundary.py:159-165 | the counter loop gives each type-2 edge its segment tag when positive, and 0 otherwise |
| Boundaries.Type3Cells | dataio/suntans/sunboundary.py:128-145 | the type-3 cells are the resolved `cellp` (range -1..Nc-1), and `xv`, `yv` are the centres of those cells |
| Boundaries.Type2Edges | dataio/suntans/sunboundary.py:120-167 | `edgep`, `segp` and `segedgep` are the resolved ones, every type-2 edge is an edge of the mesh, and `xe`, `ye` are the midpoints of those edges |
| Boundaries.LoadBoundary | dataio/suntans/sunboundary.py:116-171 | `_loadBoundary` yields the resolved topology with matching counts, `Nseg > 0` only with type-2 edges, in-range indices, and the coordinates of the selected cells and edges |
| TimeAxis.BuildTimeAxis | dataio/suntans/sunboundary.py:198-207 | the while loop yields `AxisLength` instants `start + i*dt`; the first is `start`, none passes `end`, and one more step would |
| TimeAxis.AxisLengthExact | dataio/suntans/sunboundary.py:201-207 | an axis whose last instant is within `end` and whose next step is past it has `(end-start)/dt + 1` instants |
| TimeAxis.AxisSpacing | dataio/suntans/sunboundary.py:198-207 | consecutive instants are exactly `dt` apart; the first is `start`; all are within `end`; the next step after the last passes `end` |
| TimeAxis.NcTime | dataio/suntans/sunboundary.py:211-220 | the encoded axis is each instant minus 1990-01-01, one per instant |
| TimeAxis.EncodedAxisIncreasing | dataio/suntans/sunboundary.py:209-220 | the time coordinate of an axis with a positive step is strictly increasing |
| Boundaries.GetTime | dataio/suntans/sunboundary.py:193-209 | `getTime` gives the regular axis from start to end and its encoding since 1990 |
| Boundaries.InitArrays | dataio/suntans/sunboundary.py:222-259 | `initArrays` gives a fresh store whose thirteen arrays are all newly allocated, shaped for the dimensions and all zero |
| Fields.NoCells | dataio/suntans/sunboundary.py:251-257 | a type-3 store shaped for zero cells is the all-zero one |
| Boundaries.FromGrid | dataio/suntans/sunboundary.py:71-92 | building from a mesh gives a boundary with the resolved topology, coordinates, the mesh's layers, the regular time axis, an all-zero store and no depths yet |
| Boundaries.FillMissingFacts | dataio/suntans/sunboundary.py:180-187 | after filling, the first cell is the first non-missing neighbour, missing only if both were; an edge next to any cell then has two; interior edges are untouched; filling is idempotent |
| Boundaries.FilledFirstIsOpenSide | dataio/suntans/sunboundary.py:180-190 | the cell an edge takes its depth from is the open-side cell a type-3 edge would contribute |
| Boundaries.FilledHidesOpenSide | dataio/suntans/sunboundary.py:180-187 | after the in-place fill an edge with exactly one neighbour no longer has an open side |
| Boundaries.FilledKeepsBareEdge | dataio/suntans/sunboundary.py:180-187 | an edge with no neighbours is left as it is by the fill and still contributes `-1` on a later resolution |
| Boundaries.FirstCells | dataio/suntans/sunboundary.py:178-189 | each edge takes its depth from its first neighbouring cell, or from the second when the first is missing (-1) |
| Boundaries.EdgeDepths | dataio/suntans/sunboundary.py:178-190 | each type-2 edge gets the depth of its first cell, else of its second, else (index -1) of the last cell |
| Boundaries.FillAdjacency | dataio/suntans/sunboundary.py:180-187 | the two masked assignments leave the adjacency table equal to `FilledAdj` of the old one, and the mesh valid |
| Boundaries.Boundary.SetDepth | dataio/suntans/sunboundary.py:173-190 | with type-3 cells `dv` is the depth of each (no mesh needed); with type-2 edges the mesh adjacency is filled in place and `de` is `EdgeDepths` of the old table; otherwise nothing changes; only the depth entries actually indexed must exist |
| Sources.RomsUpdate | dataio/suntans/sunboundary.py:562-569 | `T`, `S` gain the sample; `h` gains it only with `seth`, `uc`, `vc` only with `setUV`; type-2 fields, `wc` and the flux are untouched |
| Sources.RomsTwice | dataio/suntans/sunboundary.py:562-569 | two ROMS integrations in a row equal one of the summed samples |
| Sources.RomsZero | dataio/suntans/sunboundary.py:562-569 | a zero ROMS sample changes nothing |
| Boundaries.Boundary.Roms2Boundary | dataio/suntans/sunboundary.py:550-569 | the store after `roms2boundary` is `RomsUpdate` of the store before |
| Sources.OceanUpdate | dataio/suntans/sunboundary.py:595-645 | with type-3 cells `T`, `S` are overwritten and `h` gains the height with `seth`; with type-2 edges `boundary_T`, `boundary_S` are overwritten and `boundary_u`, `boundary_v` gain the velocities with `setUV`; `uc`, `vc`, `wc`, `boundary_h`, `boundary_w` and the flux are untouched; a class with no points is untouched |
| Sources.OceanTwice | dataio/suntans/sunboundary.py:595-645 | a second ocean-model integration discards the first one's temperature and salinity but accumulates its heights and velocities |
| Boundaries.Boundary.OceanModel2Bdy | dataio/suntans/sunboundary.py:571-645 | the store after `oceanmodel2bdy` is `OceanUpdate` of the store before |
| Boundaries.Boundary.OceanCells | dataio/suntans/sunboundary.py:595-625 | the type-3 half rewrites only the cell fields, as `OceanUpdate` does |
| Boundaries.Boundary.OceanEdges | dataio/suntans/sunboundary.py:627-645 | the type-2 half rewrites only the edge fields, as `OceanUpdate` does |
| Sources.OtisUpdate | dataio/suntans/sunboundary.py:656-695 | with type-3 cells `h` gains the elevation and (with `setUV`) every layer of `uc`, `vc` gains the barotropic U, V; with type-2 edges every layer of `boundary_u`, `boundary_v` gains U, V whatever `setUV`; `T`, `S`, `boundary_h`, `boundary_T`, `boundary_S`, `wc`, `boundary_w` and the flux are untouched |
| Sources.OtisLayersMoveTogether | dataio/suntans/sunboundary.py:692-695 | the tidal increment of `boundary_u` is the same in every layer |
| Sources.OtisTwice | dataio/suntans/sunboundary.py:656-695 | two tidal integrations in a row equal one of the summed predictions |
| Sources.ReplicateShape | dataio/suntans/sunboundary.py:673-676 | a [time][point] series repeated over the layers has shape [time][layer][point] |
| FieldStores.AddEveryLayer | dataio/suntans/sunboundary.py:673-676 | the per-layer loop adds the same U, V to every layer of the two arrays, and to nothing else |
| Boundaries.Boundary.Otis2Boundary | dataio/suntans/sunboundary.py:648-697 | the store after `otis2boundary` is `OtisUpdate` of the store before |
| Sources.OtisFileUpdate | dataio/suntans/sunboundary.py:722-732 | `h` gains the corrected elevation plus the residual of each instant; with `setUV` every layer of `uc`, `vc` gains U, V; everything else is untouched |
| Sources.ResidualSharedByColumns | dataio/suntans/sunboundary.py:724-726 | every type-3 column of `h` gets the same residual |
| Sources.OtisFileWithoutResidual | dataio/suntans/sunboundary.py:722-732 | with a zero residual the corrected-tide update of the cells is the plain tidal update |
| FieldStores.AddToEveryColumn | dataio/suntans/sunboundary.py:725-726 | the loop over the columns adds the residual series to each column of `h` |
| Boundaries.Boundary.OtisFile2Boundary | dataio/suntans/sunboundary.py:700-734 | the store after `otisfile2boundary` is `OtisFileUpdate` of the store before |
| Persistence.Int32 | dataio/suntans/sunboundary.py:297-299 | a value stored in an `i4` variable lies in the signed 32-bit range, is congruent to the original modulo 2^32, and equals it when it fits |
| Persistence.EncodeNC | dataio/suntans/sunboundary.py:262-423 | `Nt` and `Nk` are always declared, `Ntype2`, `Ntype3`, `Nseg` exactly when their count is positive, with their sizes; a variable is written exactly when its dimensions are, with the boundary's data and attributes |
| Persistence.DecodeNC | dataio/suntans/sunboundary.py:425-480 | a decoded boundary is well shaped; `Nk` and `Nt` were present; a missing `Ntype2`, `Ntype3` or `Nseg` means a count of 0 and empty arrays for that class |
| Persistence.TimeRoundTrip | dataio/suntans/sunboundary.py:448-449 | the time coordinate read back decodes to the original instants |
| Persistence.RoundTrip | dataio/suntans/sunboundary.py:262-480 | writing a boundary whose indices fit in 32 bits and reading it back gives the same boundary, except that `segedgep` (not written without segments) comes back empty |
| Persistence.CountsSurvive | dataio/suntans/sunboundary.py:433-446 | reading back keeps `Nk`, `Nt`, `N2`, `N3`, `Nseg`, the instants and every field array |
| Boundaries.Boundary.Write2NC | dataio/suntans/sunboundary.py:262-423 | `write2NC` gives the encoding of the boundary's data; reading it back gives that data again when the indices fit |
| Boundaries.FromFile | dataio/suntans/sunboundary.py:94-100 | building from a file succeeds exactly when the file decodes; on success the boundary holds exactly the decoded data and has no mesh |
| InitialConditions.ZeroIC | dataio/suntans/sunboundary.py:774-790 | the initial arrays have shape [1][Nk][Nc], [1][Nc] and [Nk][Nc] |
| InitialConditions.InitialCond.constructor | dataio/suntans/sunboundary.py:760-790 | a new initial condition holds the mesh, the instant, and fresh all-zero arrays |
| InitialConditions.Roms2ICForgets | dataio/suntans/sunboundary.py:800-807 | `roms2ic` sets the velocities, temperature, salinity and free surface the same whatever they held before, and keeps the age fields |
| InitialConditions.Roms2ICZeroes | dataio/suntans/sunboundary.py:800-807 | without `setUV` the velocities are zero, without `seth` the free surface is zero; with the flag they are the interpolated fields |
| InitialConditions.InitialCond.Roms2IC | dataio/suntans/sunboundary.py:792-807 | the arrays after `roms2ic` are `Roms2ICUpdate` of the arrays before |
| InitialConditions.OceanICFrame | dataio/suntans/sunboundary.py:847-889 | `oceanmodel2ic` overwrites temperature, salinity and (with `seth`) the free surface only, keeps velocities and age fields whatever `setUV`, and applying it twice is applying it once |
| InitialConditions.InitialCond.OceanModel2IC | dataio/suntans/sunboundary.py:847-889 | the arrays after `oceanmodel2ic` are `OceanICUpdate` of the arrays before |
| InitialConditions.MarkAgeSourceSpec | dataio/suntans/sunboundary.py:916-921 | after the polygons, every layer of a cell is 1 exactly when some polygon contains its centre, and keeps its value otherwise |
| InitialConditions.InitialCond.SetAgeSource | dataio/suntans/sunboundary.py:907-921 | no polygons is an error that changes nothing; otherwise the age source after the loop is `MarkAgeSource` of the one before |
| MarkerEditor.Reset | dataio/suntans/sunboundary.py:1015-1017 | every open edge becomes closed (marker 1) and other markers are kept |
| MarkerEditor.EditWithoutPolygons | dataio/suntans/sunboundary.py:1004-1021 | without polygons only the reset happens: open edges closed, every tag 0 |
| MarkerEditor.ClosedEdgesStay | dataio/suntans/sunboundary.py:1021-1034 | the polygon loop never re-marks or tags an edge that is not open |
| MarkerEditor.EditKeepsClosedEdges | dataio/suntans/sunboundary.py:1015-1034 | an edge not open before the edit keeps its marker and ends untagged |
| MarkerEditor.OneFluxPolygon | dataio/suntans/sunboundary.py:1016-1034 | one marker-4 polygon containing every midpoint makes every open edge marker 2 with its id, and leaves every other edge's marker with tag 0 |
| MarkerEditor.ChangesComeFromPolygons | dataio/suntans/sunboundary.py:1021-1034 | every marker the loop changes is the stored marker (4 stored as 2) of a polygon containing the edge's midpoint, and every tag it changes is the id of a marker-4 polygon containing it |
| MarkerEditor.TagsNeverCleared | dataio/suntans/sunboundary.py:1028-1033 | one polygon changes a tag only when it is a marker-4 polygon, and then to its own id |
| MarkerEditor.ApplyPolygon | dataio/suntans/sunboundary.py:1021-1034 | one pass of the polygon loop leaves the markers and segment tags as `Apply` of the ones before, in place |
| MarkerEditor.ModifyBCMarker | dataio/suntans/sunboundary.py:975-1034 | an empty `marker` or `edge_id` read returns its error before any change; otherwise the markers and a fresh tag array are the reset followed by the polygons in order; it fails exactly in those two cases |

## Left out

- File access is not modelled: netCDF reading and writing, shapefile reading, the mesh files and writing `edges.dat`. Files are values (`NcFile`), and shapefile reads and meshes are arguments.
- The interpolators, the tidal predictor (`tide_pred`, `tide_pred_correc`) and the coordinate projections are foreign numerical code. Their results are arguments. This includes the depths `dv`/`de` handed to the tidal predictor.
- Plotting (`scatter`, `plot`, `savefig` and the plot at the end of `modifyBCmarker`) is a user-interface side effect.
- `__call__` (time interpolation with `interp1d`) and `__getitem__` are left out, as are the dynamic attributes from `**kwargs`.
- `suntans2ic`, `filteric` and `InitialCond.writeNC` are left out: they read or write files or filter with foreign numerics.
- Date strings are not parsed. Instants are whole seconds since 1970-01-01; `num2date` becomes taking the floor of the stored seconds since 1990.
- Floating point is not modelled. Fields are real numbers, so `*= 0` of a NaN and rounding in the midpoint averages are not captured.
- `roms2ic` rebinds its five arrays to new ones. The model overwrites the existing arrays with the same contents, so aliasing of the old arrays is not captured.
- The source leaves `cellp`, `xv`, `yv` unset when there are no type-3 cells, and `xe`, `ye`, `segp`, `segedgep` unset when there are no type-2 edges. The model stores empty sequences instead.
- Boundaries.Boundary.Roms2Boundary: allowed without type-3 cells, where the source would fail reading the unset `xv`; the update is then empty.
- Boundaries.Boundary.OtisFile2Boundary: requires type-3 cells, because the source reads `xv` unconditionally and fails without them.
- Boundaries.Boundary.SetDepth: requires a depth entry (Python indexing) at every cell it reads, and a mesh when there are type-2 edges, because the source reads `self.grd.grad` and would fail without one.
- TimeAxis.BuildTimeAxis, TimeAxis.AxisLength, Boundaries.GetTime, Boundaries.FromGrid: a step that is not positive is allowed only when start is after end (the axis is then empty). With a zero step and start not after end the source's loop never ends, and with a negative step it runs until the date arithmetic overflows, so those inputs are excluded.
- InitialConditions.InitialCond.Roms2IC: the regional-model sample is assumed to hold one time step (`RomsICShaped`). The source interpolates at `[self.time,self.time]` and rebinds its arrays to whatever comes back, so a sample of another length is not modelled.
- Console output (`print` of progress and of the two shapefile errors) is left out; the errors are returned as values instead.
- The class flag `loadfromnc` (which, despite its name, sends the constructor down the mesh path) is not a parameter: the model has the two construction paths `FromGrid` and `FromFile` as separate members.
- Persistence.DecodeNC: also refuses a file that lacks a variable for a class that is present; the source would fail there too.
- Persistence.DecodeNC: also refuses a file whose arrays do not have the lengths its dimensions give; the source loads such a file unchecked. It also refuses a segment dimension without type-2 edges, and time units other than the ones `write2NC` uses.
- Persistence.RoundTrip: requires the stored indices to fit in 32 bits, since `i4` variables wrap larger ones (`Int32`).
- The `has_key('dv')` checks only choose the depth argument of the foreign tidal predictor, so they are not modelled.
