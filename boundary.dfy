/**
 * The SUNTANS open-boundary object `Boundary`: which mesh edges (type 2) and
 * cells (type 3) carry open conditions, the time axis, the field arrays, and the
 * operations that fill those arrays from external sources and move the whole
 * boundary to and from its netCDF file.  Interpolators, the tidal predictor and
 * file access are outside; their results arrive as method arguments.
 */
module Boundaries {
  import opened Wrappers
  import opened Grids
  import opened Topology
  import opened TimeAxis
  import opened Fields
  import opened Sources
  import opened Persistence
  import opened FieldStores

  /**
   * The adjacency pair `setDepth` leaves in the mesh: a missing first cell takes
   * the second, then a missing second cell takes the (already filled) first.
   */
  function FillMissing(p: (int, int)): (int, int) {
    var c1 := if p.0 == -1 then p.1 else p.0;
    (c1, if p.1 == -1 then c1 else p.1)
  }

  function FilledAdj(adj: seq<(int, int)>): (r: seq<(int, int)>)
    ensures |r| == |adj|
  {
    seq(|adj|, e requires 0 <= e < |adj| => FillMissing(adj[e]))
  }

  /**
   * After filling, the first entry is the first cell that is not missing; it is
   * missing only if both were; an edge next to any cell has two cells; interior
   * edges are left as they were; and filling twice is filling once.
   */
  lemma FillMissingFacts(p: (int, int))
    ensures p.0 != -1 ==> FillMissing(p).0 == p.0
    ensures p.0 == -1 ==> FillMissing(p).0 == p.1
    ensures FillMissing(p).0 == -1 <==> p.0 == -1 && p.1 == -1
    ensures p.0 != -1 || p.1 != -1 ==> FillMissing(p).0 != -1 && FillMissing(p).1 != -1
    ensures p.0 != -1 && p.1 != -1 ==> FillMissing(p) == p
    ensures FillMissing(FillMissing(p)) == FillMissing(p)
  {
  }

  /** The cell whose depth an edge gets is the open-side cell a type-3 edge contributes. */
  lemma FilledFirstIsOpenSide(p: (int, int))
    requires OpenSide(p.0, p.1).Some?
    ensures FillMissing(p).0 == OpenSide(p.0, p.1).value
  {
  }

  /**
   * Once `setDepth` has filled the mesh, an edge with exactly one neighbour no
   * longer contributes a type-3 cell: resolving the mesh again would lose them.
   */
  lemma FilledHidesOpenSide(p: (int, int))
    requires (p.0 == -1) != (p.1 == -1)
    ensures OpenSide(FillMissing(p).0, FillMissing(p).1) == None
  {
  }

  /**
   * An edge with no neighbour at all is left as it is by `setDepth`, so resolving
   * the mesh again still collects `-1` for it.
   */
  lemma FilledKeepsBareEdge(p: (int, int))
    requires p.0 == -1 && p.1 == -1
    ensures FillMissing(p) == p && OpenSide(FillMissing(p).0, FillMissing(p).1) == Some(-1)
  {
  }

  /** The loop of `_loadBoundary` over the marker-3 edges `ind3`: the open side of each, in edge order. */
  method CollectType3Cells(g: Grid, ind3: seq<int>) returns (cells: seq<int>)
    requires g.Valid() && IndicesIn(ind3, g.Ne())
    ensures cells == OpenCells(g.Adj(), ind3)
  {
    cells := [];
    for k := 0 to |ind3|
      invariant cells == OpenCells(g.Adj(), ind3[..k])
    {
      var c1, c2 := g.grad[ind3[k], 0], g.grad[ind3[k], 1];
      assert ind3[..k + 1][..k] == ind3[..k];
      if c1 == -1 {
        cells := cells + [c2];
      } else if c2 == -1 {
        cells := cells + [c1];
      }
    }
    assert ind3[..|ind3|] == ind3;
  }

  /** The loop of `_loadBoundary` over the type-2 edges: each edge's segment tag, or 0 where it has none. */
  method SegmentPointers(g: Grid, edgep: seq<int>) returns (segedgep: seq<int>)
    requires g.Valid() && IndicesIn(edgep, g.Ne())
    ensures |segedgep| == |edgep|
    ensures forall n | 0 <= n < |edgep| ::
      segedgep[n] == (if g.edgeId[edgep[n]] > 0 then g.edgeId[edgep[n]] else 0)
  {
    segedgep := seq(|edgep|, _ => 0);
    for n := 0 to |edgep|
      invariant |segedgep| == |edgep|
      invariant forall m | 0 <= m < |edgep| ::
        segedgep[m] == (if m < n && g.edgeId[edgep[m]] > 0 then g.edgeId[edgep[m]] else 0)
    {
      if g.edgeId[edgep[n]] > 0 {
        segedgep := segedgep[n := g.edgeId[edgep[n]]];
      }
    }
  }

  /**
   * The type-3 part of `_loadBoundary`: the cells collected from the marker-3 edges,
   * de-duplicated into the resolved `cellp`, and the centre coordinates of those
   * cells.  When nothing was collected the three stay empty.
   */
  method Type3Cells(g: Grid) returns (cellp: seq<int>, xv: seq<real>, yv: seq<real>)
    requires g.Valid()
    ensures cellp == Resolve(g.mark[..], g.Adj(), g.edgeId[..]).cellp
    ensures forall n | 0 <= n < |cellp| :: -1 <= cellp[n] < g.Nc
    ensures xv == Gather(g.xv, cellp) && yv == Gather(g.yv, cellp)
  {
    var ind3 := EdgesMarked(g.mark[..], 3);
    var cells := CollectType3Cells(g, ind3);
    CellsInRange(g.Adj(), ind3, g.Nc);
    if |cells| > 0 {
      cellp := SortedUnique(cells);
      xv, yv := Gather(g.xv, cellp), Gather(g.yv, cellp);
    } else {
      cellp, xv, yv := [], [], [];
    }
  }

  /**
   * The type-2 part of `_loadBoundary`: the marker-2 edges and, when there are
   * any, their midpoints, the flux segments and each edge's segment.
   */
  method Type2Edges(g: Grid) returns (edgep: seq<int>, xe: seq<real>, ye: seq<real>, segp: seq<int>, segedgep: seq<int>)
    requires g.Valid()
    ensures var t := Resolve(g.mark[..], g.Adj(), g.edgeId[..]);
      edgep == t.edgep && segp == t.segp && segedgep == t.segedgep
    ensures forall n | 0 <= n < |edgep| :: 0 <= edgep[n] < g.Ne()
    ensures xe == Firsts(Gather(g.EdgeMid(), edgep)) && ye == Seconds(Gather(g.EdgeMid(), edgep))
  {
    edgep := EdgesMarked(g.mark[..], 2);
    if |edgep| > 0 {
      var m := Gather(g.EdgeMid(), edgep);
      xe, ye := Firsts(m), Seconds(m);
      segp := SortedUnique(PositiveIds(g.edgeId[..]));
      segedgep := SegmentPointers(g, edgep);
    } else {
      xe, ye, segp, segedgep := [], [], [], [];
    }
  }

  /**
   * `_loadBoundary`: the topology of the mesh as module Topology resolves it, the
   * centre coordinates of the type-3 cells and the midpoints of the type-2 edges.
   */
  method LoadBoundary(g: Grid) returns (t: Topo, xv: seq<real>, yv: seq<real>, xe: seq<real>, ye: seq<real>)
    requires g.Valid()
    ensures t == Resolve(g.mark[..], g.Adj(), g.edgeId[..])
    ensures |t.edgep| == |t.segedgep| == t.N2 && |t.cellp| == t.N3 && |t.segp| == t.Nseg
    ensures t.Nseg > 0 ==> t.N2 > 0
    ensures forall n | 0 <= n < |t.cellp| :: -1 <= t.cellp[n] < g.Nc
    ensures forall n | 0 <= n < |t.edgep| :: 0 <= t.edgep[n] < g.Ne()
    ensures xv == Gather(g.xv, t.cellp) && yv == Gather(g.yv, t.cellp)
    ensures xe == Firsts(Gather(g.EdgeMid(), t.edgep)) && ye == Seconds(Gather(g.EdgeMid(), t.edgep))
  {
    var edgep, segp, segedgep, cellp;
    edgep, xe, ye, segp, segedgep := Type2Edges(g);
    cellp, xv, yv := Type3Cells(g);
    t := Topo(edgep, cellp, segp, segedgep, |edgep|, |cellp|, if |edgep| > 0 then |segp| else 0);
  }

  /** `getTime`: the instants from `start` to `end` in steps of `dt`, and their on-disk coordinate. */
  method GetTime(start: int, end: int, dt: int) returns (time: seq<int>, tsec: seq<int>)
    requires dt > 0 || start > end
    ensures time == Axis(start, dt, AxisLength(start, end, dt))
    ensures tsec == SecondsSince1990(time)
  {
    time := BuildTimeAxis(start, end, dt);
    tsec := NcTime(time);
  }

  /** `initArrays`: a store whose every array is zero, over the sizes `d`. */
  method InitArrays(d: Dims) returns (s: FieldStore)
    ensures fresh(s) && fresh(s.Arrays()) && s.Valid() && s.dims == d && s.Snapshot() == ZeroStore(d)
  {
    s := new FieldStore.Load(ZeroStore(d), d);
  }

  /**
   * The cell `setDepth` takes each edge's depth from: the first neighbour, or the
   * second when the first is missing.
   */
  function FirstCells(adj: seq<(int, int)>): (r: seq<int>)
    ensures |r| == |adj|
    ensures forall e | 0 <= e < |adj| :: r[e] == if adj[e].0 != -1 then adj[e].0 else adj[e].1
  {
    seq(|adj|, e requires 0 <= e < |adj| => FillMissing(adj[e]).0)
  }

  /**
   * The depths `setDepth` gives the type-2 edges: the depth of an edge's first
   * cell, else of its second; an edge with no cell at all gets, through Python's
   * index -1, the depth of the last cell.
   */
  function EdgeDepths(depth: seq<real>, adj: seq<(int, int)>, edgep: seq<int>): (r: seq<real>)
    requires forall e | 0 <= e < |adj| :: -1 <= adj[e].0 && -1 <= adj[e].1
    requires DepthsCover(depth, adj)
    requires forall n | 0 <= n < |edgep| :: 0 <= edgep[n] < |adj|
    ensures |r| == |edgep|
    ensures forall n | 0 <= n < |edgep| ::
      var p := adj[edgep[n]];
      r[n] == if p.0 != -1 then depth[p.0] else if p.1 != -1 then depth[p.1] else depth[|depth| - 1]
  {
    var de := Gather(depth, FirstCells(adj));
    Gather(de, edgep)
  }

  /**
   * `dv[nc1]` is defined: the depth array has an entry (Python indexing) at the
   * cell every edge takes its depth from.
   */
  predicate DepthsCover(depth: seq<real>, adj: seq<(int, int)>) {
    forall e | 0 <= e < |adj| :: PyIndexOk(|depth|, FillMissing(adj[e]).0)
  }

  /**
   * The in-place part of `setDepth`: every missing first cell takes the second,
   * then every missing second cell takes the (already updated) first.
   */
  method FillAdjacency(g: Grid)
    requires g.Valid()
    modifies g.grad
    ensures g.Valid()
    ensures g.Adj() == FilledAdj(old(g.Adj()))
  {
    forall e | 0 <= e < g.grad.Length0 && g.grad[e, 0] == -1 {
      g.grad[e, 0] := g.grad[e, 1];
    }
    forall e | 0 <= e < g.grad.Length0 && g.grad[e, 1] == -1 {
      g.grad[e, 1] := g.grad[e, 0];
    }
  }

  class Boundary {
    /** the mesh the boundary was built on; null for a boundary read from its file */
    const grd: Grid?
    /** layers and their depths */
    const Nk: nat
    const z: seq<real>
    /** instants (seconds since 1970-01-01) and their on-disk coordinate */
    const Nt: nat
    const time: seq<int>
    const tsec: seq<int>
    /** type-2 edges, type-3 cells and flux segments */
    const N2: nat
    const N3: nat
    const Nseg: nat
    const edgep: seq<int>
    const cellp: seq<int>
    const segp: seq<int>
    const segedgep: seq<int>
    /** coordinates of the type-3 cells and of the type-2 edge midpoints */
    const xv: seq<real>
    const yv: seq<real>
    const xe: seq<real>
    const ye: seq<real>
    /** depths at the type-3 cells and type-2 edges, once `setDepth` has run */
    var dv: Option<seq<real>>
    var de: Option<seq<real>>
    /** the field arrays */
    const store: FieldStore

    function Sizes(): Dims {
      Dims(Nt, Nk, N2, N3, Nseg)
    }

    /**
     * Counts agree with the arrays they count, `segedgep` is one entry per type-2
     * edge or (read from a file without segments) absent, the store has this
     * boundary's sizes, and on a mesh the indices are cells and edges of it.
     * Nothing here reads the heap: only the store's arrays and the mesh's
     * adjacency table change after construction.
     */
    ghost predicate Valid() {
      && |z| == Nk && |time| == Nt && tsec == SecondsSince1990(time)
      && |cellp| == |xv| == |yv| == N3
      && |edgep| == |xe| == |ye| == N2
      && |segp| == Nseg && (Nseg > 0 ==> N2 > 0)
      && (|segedgep| == N2 || (Nseg == 0 && segedgep == []))
      && store.Valid() && store.dims == Sizes()
      && (grd != null ==> CellsFit(grd) && EdgesFit(grd))
    }

    /** The type-3 cells are cells of the mesh `g` (or -1, see `OpenSide`). */
    predicate CellsFit(g: Grid) {
      forall n | 0 <= n < |cellp| :: -1 <= cellp[n] < g.Nc
    }

    /** The type-2 edges are edges of the mesh `g`. */
    predicate EdgesFit(g: Grid) {
      forall n | 0 <= n < |edgep| :: 0 <= edgep[n] < g.Ne()
    }

    /** What the boundary writes to its file. */
    function Data(): BoundaryData
      reads store.Arrays()
    {
      BoundaryData(Nk, Nt, N2, N3, Nseg, z, time, cellp, xv, yv, edgep, xe, ye, segp, segedgep, store.Snapshot())
    }

    lemma DataShaped()
      requires Valid()
      ensures WellShaped(Data()) && DimsOf(Data()) == Sizes()
    {
      store.Shaped();
    }

    /** A boundary holding the given mesh, topology, coordinates, layers, instants and store. */
    constructor Make(grd: Grid?, t: Topo, xv: seq<real>, yv: seq<real>, xe: seq<real>, ye: seq<real>,
                     z: seq<real>, time: seq<int>, store: FieldStore)
      requires |t.edgep| == |xe| == |ye| == t.N2 && |t.cellp| == |xv| == |yv| == t.N3
      requires |t.segp| == t.Nseg && (t.Nseg > 0 ==> t.N2 > 0)
      requires |t.segedgep| == t.N2 || (t.Nseg == 0 && t.segedgep == [])
      requires store.Valid() && store.dims == Dims(|time|, |z|, t.N2, t.N3, t.Nseg)
      requires grd != null ==> forall n | 0 <= n < |t.cellp| :: -1 <= t.cellp[n] < grd.Nc
      requires grd != null ==> forall n | 0 <= n < |t.edgep| :: 0 <= t.edgep[n] < grd.Ne()
      ensures Valid() && this.grd == grd
      ensures edgep == t.edgep && cellp == t.cellp && segp == t.segp && segedgep == t.segedgep
      ensures N2 == t.N2 && N3 == t.N3 && Nseg == t.Nseg
      ensures this.xv == xv && this.yv == yv && this.xe == xe && this.ye == ye
      ensures Nk == |z| && this.z == z && this.time == time && this.store == store
      ensures dv == None && de == None
    {
      this.grd := grd;
      edgep, cellp, segp, segedgep := t.edgep, t.cellp, t.segp, t.segedgep;
      N2, N3, Nseg := t.N2, t.N3, t.Nseg;
      this.xv, this.yv, this.xe, this.ye := xv, yv, xe, ye;
      Nk, this.z := |z|, z;
      Nt, this.time := |time|, time;
      tsec := SecondsSince1990(time);
      dv, de := None, None;
      this.store := store;
    }

    /**
     * `setDepth`: with type-3 cells, `dv` becomes the depths of those cells (no
     * mesh needed, so a boundary read from its file qualifies); with type-2 edges,
     * the mesh's missing neighbours are filled in place and `de` becomes the depth
     * of each edge's first cell.  The depth array need only have the entries the
     * source indexes.
     */
    method SetDepth(depth: seq<real>)
      requires Valid()
      requires N3 > 0 ==> forall n | 0 <= n < |cellp| :: PyIndexOk(|depth|, cellp[n])
      requires N2 > 0 ==> grd != null && grd.Valid() && DepthsCover(depth, grd.Adj())
      modifies this`dv, this`de, if N2 > 0 && grd != null then {grd.grad} else {}
      ensures N2 > 0 ==> grd.Valid() && grd.Adj() == FilledAdj(old(grd.Adj()))
      ensures dv == if N3 > 0 then Some(Gather(depth, cellp)) else old(dv)
      ensures de == if N2 > 0 then Some(EdgeDepths(depth, old(grd.Adj()), edgep)) else old(de)
    {
      var g := grd;
      var dv', de' := dv, de;
      if N3 > 0 {
        dv' := Some(Gather(depth, cellp));
      }
      if N2 > 0 {
        de' := Some(EdgeDepths(depth, g.Adj(), edgep));
        FillAdjacency(g);
      }
      dv, de := dv', de';
    }

    /**
     * `roms2boundary`, given the interpolated regional-model sample at the type-3
     * cells: T and S gain the sample, h only with `seth`, uc and vc only with `setUV`.
     */
    method Roms2Boundary(src: RomsSample, setUV: bool, seth: bool)
      requires Valid() && RomsShaped(src, Sizes(), setUV, seth)
      modifies store.T, store.S, store.h, store.uc, store.vc
      ensures store.Snapshot() == RomsUpdate(old(store.Snapshot()), Sizes(), src, setUV, seth)
    {
      ghost var f := store.Snapshot();
      var c := store;
      AddInto3(c.T, src.T);
      AddInto3(c.S, src.S);
      if seth {
        AddInto2(c.h, src.h);
      }
      if setUV {
        AddInto3(c.uc, src.uc);
        AddInto3(c.vc, src.vc);
      }
      assert c.Snapshot().edges == f.edges;
      assert c.Snapshot().boundary_Q == f.boundary_Q;
    }

    /**
     * `oceanmodel2bdy`, given the gridded-analysis sample interpolated to both
     * classes of points: see `OceanUpdate` for which arrays are overwritten and
     * which are added to.
     */
    method OceanModel2Bdy(src: OceanSample, setUV: bool, seth: bool)
      requires Valid() && OceanShaped(src, Sizes(), setUV, seth)
      modifies store.T, store.S, store.h, store.boundary_T, store.boundary_S, store.boundary_u, store.boundary_v
      ensures store.Snapshot() == OceanUpdate(old(store.Snapshot()), Sizes(), src, setUV, seth)
    {
      if N3 > 0 {
        OceanCells(src, setUV, seth);
      }
      if N2 > 0 {
        OceanEdges(src, setUV, seth);
      }
    }

    /** The type-3 half of `oceanmodel2bdy`: T and S overwritten, h added to with `seth`. */
    method OceanCells(src: OceanSample, setUV: bool, seth: bool)
      requires Valid() && N3 > 0 && OceanShaped(src, Sizes(), setUV, seth)
      modifies store.T, store.S, store.h
      ensures var f := old(store.Snapshot());
        store.Snapshot() == f.(cells := OceanUpdate(f, Sizes(), src, setUV, seth).cells)
    {
      var c := store;
      Overwrite3(c.T, src.cellT);
      Overwrite3(c.S, src.cellS);
      if seth {
        AddInto2(c.h, src.cellSsh);
      }
    }

    /** The type-2 half of `oceanmodel2bdy`: boundary_T and boundary_S overwritten, boundary_u and boundary_v added to with `setUV`. */
    method OceanEdges(src: OceanSample, setUV: bool, seth: bool)
      requires Valid() && N2 > 0 && OceanShaped(src, Sizes(), setUV, seth)
      modifies store.boundary_T, store.boundary_S, store.boundary_u, store.boundary_v
      ensures var f := old(store.Snapshot());
        store.Snapshot() == f.(edges := OceanUpdate(f, Sizes(), src, setUV, seth).edges)
    {
      var c := store;
      Overwrite3(c.boundary_T, src.edgeT);
      Overwrite3(c.boundary_S, src.edgeS);
      if setUV {
        AddInto3(c.boundary_u, src.edgeU);
        AddInto3(c.boundary_v, src.edgeV);
      }
    }

    /**
     * `otis2boundary`, given the tidal prediction at the type-3 cells and at the
     * type-2 edges: see `OtisUpdate`.
     */
    method Otis2Boundary(cellTide: TideSample, edgeTide: TideSample, setUV: bool)
      requires Valid() && OtisShaped(cellTide, edgeTide, Sizes())
      modifies store.h, store.uc, store.vc, store.boundary_u, store.boundary_v
      ensures store.Snapshot() == OtisUpdate(old(store.Snapshot()), Sizes(), cellTide, edgeTide, setUV)
    {
      var c := store;
      if N3 > 0 {
        AddInto2(c.h, cellTide.h);
        if setUV {
          AddEveryLayer(c.uc, c.vc, cellTide.U, cellTide.V);
        }
      }
      if N2 > 0 {
        AddEveryLayer(c.boundary_u, c.boundary_v, edgeTide.U, edgeTide.V);
      }
    }

    /**
     * `otisfile2boundary`, given the corrected tidal prediction at the type-3 cells
     * and the residual water level of every instant: see `OtisFileUpdate`.
     */
    method OtisFile2Boundary(tide: TideSample, residual: seq<real>, setUV: bool)
      requires Valid() && N3 > 0 && TideShaped(tide, Nt, N3) && |residual| == Nt
      modifies store.h, store.uc, store.vc
      ensures store.Snapshot() == OtisFileUpdate(old(store.Snapshot()), Sizes(), tide, residual, setUV)
    {
      var c := store;
      AddInto2(c.h, tide.h);
      AddToEveryColumn(c.h, residual);
      if setUV {
        AddEveryLayer(c.uc, c.vc, tide.U, tide.V);
      }
    }

    /** `write2NC`: the file this boundary is written to. */
    method Write2NC() returns (f: NcFile)
      requires Valid()
      ensures f == EncodeNC(Data())
      ensures IndicesFit(Data()) ==> DecodeNC(f) == Ok(Reloaded(Data()))
    {
      DataShaped();
      f := EncodeNC(Data());
      if IndicesFit(Data()) {
        RoundTrip(Data());
      }
    }
  }

  /**
   * `Boundary(suntanspath, timeinfo)` on a mesh: `_loadBoundary`, then `getTime`,
   * then `initArrays`.  The instants are `start`, `start + dt`, ... up to `end`.
   */
  method FromGrid(g: Grid, start: int, end: int, dt: int) returns (b: Boundary)
    requires g.Valid() && (dt > 0 || start > end)
    ensures fresh(b) && b.Valid() && b.grd == g && fresh(b.store) && fresh(b.store.Arrays())
    ensures var t := Resolve(g.mark[..], g.Adj(), g.edgeId[..]);
      && b.edgep == t.edgep && b.cellp == t.cellp && b.segp == t.segp && b.segedgep == t.segedgep
      && b.N2 == t.N2 && b.N3 == t.N3 && b.Nseg == t.Nseg
    ensures b.xv == Gather(g.xv, b.cellp) && b.yv == Gather(g.yv, b.cellp)
    ensures b.xe == Firsts(Gather(g.EdgeMid(), b.edgep)) && b.ye == Seconds(Gather(g.EdgeMid(), b.edgep))
    ensures b.Nk == g.Nkmax && b.z == g.zr
    ensures b.time == Axis(start, dt, AxisLength(start, end, dt))
    ensures b.store.Snapshot() == ZeroStore(b.Sizes())
    ensures b.dv == None && b.de == None
  {
    var t, xv, yv, xe, ye := LoadBoundary(g);
    var time, tsec := GetTime(start, end, dt);
    var st := InitArrays(Dims(|time|, |g.zr|, t.N2, t.N3, t.Nseg));
    b := new Boundary.Make(g, t, xv, yv, xe, ye, g.zr, time, st);
  }

  /**
   * `Boundary(ncfile, 0)`: `_loadBoundaryNC`, then `ncTime`.  A file `DecodeNC`
   * refuses gives its error; otherwise the boundary holds exactly what was read.
   */
  method FromFile(f: NcFile) returns (r: Result<Boundary, LoadError>)
    ensures r.Ok? <==> DecodeNC(f).Ok?
    ensures r.Err? ==> r.error == DecodeNC(f).error
    ensures r.Ok? ==> fresh(r.value) && fresh(r.value.store) && fresh(r.value.store.Arrays())
    ensures r.Ok? ==> r.value.Valid() && r.value.grd == null
    ensures r.Ok? ==> r.value.Data() == DecodeNC(f).value
  {
    var d := DecodeNC(f);
    if d.Err? {
      return Err(d.error);
    }
    var b := d.value;
    var st := new FieldStore.Load(b.fields, DimsOf(b));
    var t := Topo(b.edgep, b.cellp, b.segp, b.segedgep, b.N2, b.N3, b.Nseg);
    var bd := new Boundary.Make(null, t, b.xv, b.yv, b.xe, b.ye, b.z, b.time, st);
    r := Ok(bd);
  }
}
