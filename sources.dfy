/**
 * What each data source does to the boundary fields.  The interpolators and the
 * tidal predictor are external; their results arrive as samples already laid out
 * like the target arrays.  Each function here says which arrays a source adds to,
 * which it overwrites and which it leaves alone; the Boundary methods are proved
 * to change their arrays exactly so.
 */
module Sources {
  import opened Fields

  /** The five arrays a regional-model (ROMS) interpolation returns for the type-3 cells. */
  datatype RomsSample = RomsSample(h: Series2, T: Series3, S: Series3, uc: Series3, vc: Series3)

  predicate RomsShaped(src: RomsSample, d: Dims, setUV: bool, seth: bool) {
    && Shape3(src.T, d.Nt, d.Nk, d.N3) && Shape3(src.S, d.Nt, d.Nk, d.N3)
    && (seth ==> Shape2(src.h, d.Nt, d.N3))
    && (setUV ==> Shape3(src.uc, d.Nt, d.Nk, d.N3) && Shape3(src.vc, d.Nt, d.Nk, d.N3))
  }

  /** `roms2boundary`: T and S are always added to, h only with `seth`, uc and vc only with `setUV`. */
  function RomsUpdate(f: StoreData, d: Dims, src: RomsSample, setUV: bool, seth: bool): (r: StoreData)
    requires StoreShaped(f, d) && RomsShaped(src, d, setUV, seth)
    ensures StoreShaped(r, d)
    ensures r.edges == f.edges && r.boundary_Q == f.boundary_Q && r.cells.wc == f.cells.wc
    ensures forall t, k, j | 0 <= t < d.Nt && 0 <= k < d.Nk && 0 <= j < d.N3 ::
      && r.cells.T[t][k][j] == f.cells.T[t][k][j] + src.T[t][k][j]
      && r.cells.S[t][k][j] == f.cells.S[t][k][j] + src.S[t][k][j]
      && r.cells.uc[t][k][j] == f.cells.uc[t][k][j] + (if setUV then src.uc[t][k][j] else 0.0)
      && r.cells.vc[t][k][j] == f.cells.vc[t][k][j] + (if setUV then src.vc[t][k][j] else 0.0)
    ensures forall t, j | 0 <= t < d.Nt && 0 <= j < d.N3 ::
      r.cells.h[t][j] == f.cells.h[t][j] + (if seth then src.h[t][j] else 0.0)
  {
    var c := f.cells;
    f.(cells := c.(
      T := Add3(c.T, src.T),
      S := Add3(c.S, src.S),
      h := if seth then Add2(c.h, src.h) else c.h,
      uc := if setUV then Add3(c.uc, src.uc) else c.uc,
      vc := if setUV then Add3(c.vc, src.vc) else c.vc))
  }

  /** Two ROMS samples merged into one: their arrays summed. */
  function RomsSum(a: RomsSample, b: RomsSample, d: Dims, setUV: bool, seth: bool): (s: RomsSample)
    requires RomsShaped(a, d, setUV, seth) && RomsShaped(b, d, setUV, seth)
    ensures RomsShaped(s, d, setUV, seth)
  {
    RomsSample(
      if seth then Add2(a.h, b.h) else a.h,
      Add3(a.T, b.T), Add3(a.S, b.S),
      if setUV then Add3(a.uc, b.uc) else a.uc,
      if setUV then Add3(a.vc, b.vc) else a.vc)
  }

  /** Two ROMS integrations in a row equal one integration of the summed samples. */
  lemma {:induction false} RomsTwice(f: StoreData, d: Dims, a: RomsSample, b: RomsSample, setUV: bool, seth: bool)
    requires StoreShaped(f, d) && RomsShaped(a, d, setUV, seth) && RomsShaped(b, d, setUV, seth)
    ensures RomsUpdate(RomsUpdate(f, d, a, setUV, seth), d, b, setUV, seth)
         == RomsUpdate(f, d, RomsSum(a, b, d, setUV, seth), setUV, seth)
  {
    var c := f.cells;
    Add3Assoc(c.T, a.T, b.T, d.Nt, d.Nk, d.N3);
    Add3Assoc(c.S, a.S, b.S, d.Nt, d.Nk, d.N3);
    if seth { Add2Assoc(c.h, a.h, b.h, d.Nt, d.N3); }
    if setUV {
      Add3Assoc(c.uc, a.uc, b.uc, d.Nt, d.Nk, d.N3);
      Add3Assoc(c.vc, a.vc, b.vc, d.Nt, d.Nk, d.N3);
    }
  }

  /** The arrays a gridded-analysis (ocean model) interpolation yields, one set per boundary class. */
  datatype OceanSample = OceanSample(
    cellT: Series3, cellS: Series3, cellSsh: Series2,
    edgeT: Series3, edgeS: Series3, edgeU: Series3, edgeV: Series3)

  predicate OceanShaped(src: OceanSample, d: Dims, setUV: bool, seth: bool) {
    && (d.N3 > 0 ==> Shape3(src.cellT, d.Nt, d.Nk, d.N3) && Shape3(src.cellS, d.Nt, d.Nk, d.N3))
    && (d.N3 > 0 && seth ==> Shape2(src.cellSsh, d.Nt, d.N3))
    && (d.N2 > 0 ==> Shape3(src.edgeT, d.Nt, d.Nk, d.N2) && Shape3(src.edgeS, d.Nt, d.Nk, d.N2))
    && (d.N2 > 0 && setUV ==> Shape3(src.edgeU, d.Nt, d.Nk, d.N2) && Shape3(src.edgeV, d.Nt, d.Nk, d.N2))
  }

  /**
   * `oceanmodel2bdy`: on type-3 cells (if any) T and S are overwritten and the sea
   * surface height is added to h with `seth`; type-3 velocities are never set.  On
   * type-2 edges (if any) boundary_T and boundary_S are overwritten and boundary_u,
   * boundary_v are added to with `setUV`.  boundary_h, the vertical velocities and
   * the flux are left alone.
   */
  function OceanUpdate(f: StoreData, d: Dims, src: OceanSample, setUV: bool, seth: bool): (r: StoreData)
    requires StoreShaped(f, d) && OceanShaped(src, d, setUV, seth)
    ensures StoreShaped(r, d)
    ensures r.boundary_Q == f.boundary_Q
    ensures r.cells.uc == f.cells.uc && r.cells.vc == f.cells.vc && r.cells.wc == f.cells.wc
    ensures r.edges.boundary_h == f.edges.boundary_h && r.edges.boundary_w == f.edges.boundary_w
    ensures d.N3 > 0 ==> r.cells.T == src.cellT && r.cells.S == src.cellS
    ensures d.N3 == 0 ==> r.cells == f.cells
    ensures forall t, j | 0 <= t < d.Nt && 0 <= j < d.N3 ::
      r.cells.h[t][j] == f.cells.h[t][j] + (if seth then src.cellSsh[t][j] else 0.0)
    ensures d.N2 > 0 ==> r.edges.boundary_T == src.edgeT && r.edges.boundary_S == src.edgeS
    ensures d.N2 == 0 ==> r.edges == f.edges
    ensures forall t, k, j | 0 <= t < d.Nt && 0 <= k < d.Nk && 0 <= j < d.N2 ::
      && r.edges.boundary_u[t][k][j] == f.edges.boundary_u[t][k][j] + (if setUV then src.edgeU[t][k][j] else 0.0)
      && r.edges.boundary_v[t][k][j] == f.edges.boundary_v[t][k][j] + (if setUV then src.edgeV[t][k][j] else 0.0)
  {
    var c := f.cells;
    var e := f.edges;
    var c' := if d.N3 > 0 then c.(
        T := src.cellT, S := src.cellS,
        h := if seth then Add2(c.h, src.cellSsh) else c.h)
      else c;
    var e' := if d.N2 > 0 then e.(
        boundary_T := src.edgeT, boundary_S := src.edgeS,
        boundary_u := if setUV then Add3(e.boundary_u, src.edgeU) else e.boundary_u,
        boundary_v := if setUV then Add3(e.boundary_v, src.edgeV) else e.boundary_v)
      else e;
    f.(cells := c', edges := e')
  }

  /** Two ocean-model samples merged: temperature and salinity of the second, heights and velocities summed. */
  function OceanCombine(a: OceanSample, b: OceanSample, d: Dims, setUV: bool, seth: bool): (s: OceanSample)
    requires OceanShaped(a, d, setUV, seth) && OceanShaped(b, d, setUV, seth)
    ensures OceanShaped(s, d, setUV, seth)
  {
    b.(
      cellSsh := if d.N3 > 0 && seth then Add2(a.cellSsh, b.cellSsh) else b.cellSsh,
      edgeU := if d.N2 > 0 && setUV then Add3(a.edgeU, b.edgeU) else b.edgeU,
      edgeV := if d.N2 > 0 && setUV then Add3(a.edgeV, b.edgeV) else b.edgeV)
  }

  /**
   * A second ocean-model integration discards the temperature and salinity of the
   * first (they are overwritten) while the added heights and velocities accumulate.
   */
  lemma {:induction false} OceanTwice(f: StoreData, d: Dims, a: OceanSample, b: OceanSample, setUV: bool, seth: bool)
    requires StoreShaped(f, d) && OceanShaped(a, d, setUV, seth) && OceanShaped(b, d, setUV, seth)
    ensures OceanUpdate(OceanUpdate(f, d, a, setUV, seth), d, b, setUV, seth)
         == OceanUpdate(f, d, OceanCombine(a, b, d, setUV, seth), setUV, seth)
  {
    if d.N3 > 0 && seth { Add2Assoc(f.cells.h, a.cellSsh, b.cellSsh, d.Nt, d.N3); }
    if d.N2 > 0 && setUV {
      Add3Assoc(f.edges.boundary_u, a.edgeU, b.edgeU, d.Nt, d.Nk, d.N2);
      Add3Assoc(f.edges.boundary_v, a.edgeV, b.edgeV, d.Nt, d.Nk, d.N2);
    }
  }

  /** What the tidal predictor returns at one class of boundary points: elevation and barotropic U, V over [time][point]. */
  datatype TideSample = TideSample(h: Series2, U: Series2, V: Series2)

  predicate TideShaped(s: TideSample, nt: nat, n: nat) {
    Shape2(s.h, nt, n) && Shape2(s.U, nt, n) && Shape2(s.V, nt, n)
  }

  /** A [time][point] series repeated over the layers is a [time][layer][point] array. */
  lemma ReplicateShape(u: Series2, nt: nat, nk: nat, n: nat)
    requires Shape2(u, nt, n)
    ensures Shape3(Replicate(u, nk), nt, nk, n)
  {
  }

  predicate OtisShaped(cellTide: TideSample, edgeTide: TideSample, d: Dims) {
    (d.N3 > 0 ==> TideShaped(cellTide, d.Nt, d.N3)) && (d.N2 > 0 ==> TideShaped(edgeTide, d.Nt, d.N2))
  }

  /**
   * `otis2boundary`: with type-3 cells, the tidal elevation is added to h and, with
   * `setUV`, the barotropic U, V to every layer of uc, vc.  With type-2 edges, U, V
   * are added to every layer of boundary_u, boundary_v whatever `setUV` says, and
   * the type-2 elevation is discarded (boundary_h is untouched).
   */
  function OtisUpdate(f: StoreData, d: Dims, cellTide: TideSample, edgeTide: TideSample, setUV: bool): (r: StoreData)
    requires StoreShaped(f, d) && OtisShaped(cellTide, edgeTide, d)
    ensures StoreShaped(r, d)
    ensures r.boundary_Q == f.boundary_Q
    ensures r.cells.wc == f.cells.wc && r.cells.T == f.cells.T && r.cells.S == f.cells.S
    ensures r.edges.boundary_h == f.edges.boundary_h && r.edges.boundary_w == f.edges.boundary_w
    ensures r.edges.boundary_T == f.edges.boundary_T && r.edges.boundary_S == f.edges.boundary_S
    ensures d.N3 == 0 ==> r.cells == f.cells
    ensures d.N2 == 0 ==> r.edges == f.edges
    ensures forall t, j | 0 <= t < d.Nt && 0 <= j < d.N3 :: r.cells.h[t][j] == f.cells.h[t][j] + cellTide.h[t][j]
    ensures forall t, k, j | 0 <= t < d.Nt && 0 <= k < d.Nk && 0 <= j < d.N3 ::
      && r.cells.uc[t][k][j] == f.cells.uc[t][k][j] + (if setUV then cellTide.U[t][j] else 0.0)
      && r.cells.vc[t][k][j] == f.cells.vc[t][k][j] + (if setUV then cellTide.V[t][j] else 0.0)
    ensures forall t, k, j | 0 <= t < d.Nt && 0 <= k < d.Nk && 0 <= j < d.N2 ::
      && r.edges.boundary_u[t][k][j] == f.edges.boundary_u[t][k][j] + edgeTide.U[t][j]
      && r.edges.boundary_v[t][k][j] == f.edges.boundary_v[t][k][j] + edgeTide.V[t][j]
  {
    var c := f.cells;
    var e := f.edges;
    var c' := if d.N3 > 0 then
        ReplicateShape(cellTide.U, d.Nt, d.Nk, d.N3);
        ReplicateShape(cellTide.V, d.Nt, d.Nk, d.N3);
        c.(h := Add2(c.h, cellTide.h),
           uc := if setUV then Add3(c.uc, Replicate(cellTide.U, d.Nk)) else c.uc,
           vc := if setUV then Add3(c.vc, Replicate(cellTide.V, d.Nk)) else c.vc)
      else c;
    var e' := if d.N2 > 0 then
        ReplicateShape(edgeTide.U, d.Nt, d.Nk, d.N2);
        ReplicateShape(edgeTide.V, d.Nt, d.Nk, d.N2);
        e.(boundary_u := Add3(e.boundary_u, Replicate(edgeTide.U, d.Nk)),
           boundary_v := Add3(e.boundary_v, Replicate(edgeTide.V, d.Nk)))
      else e;
    f.(cells := c', edges := e')
  }

  /** The barotropic increment is the same in every layer: layer k moves exactly as layer 0 does. */
  lemma {:induction false} OtisLayersMoveTogether(f: StoreData, d: Dims, cellTide: TideSample, edgeTide: TideSample, setUV: bool, t: nat, k: nat, j: nat)
    requires StoreShaped(f, d) && OtisShaped(cellTide, edgeTide, d)
    requires t < d.Nt && k < d.Nk && j < d.N2
    ensures var r := OtisUpdate(f, d, cellTide, edgeTide, setUV);
      r.edges.boundary_u[t][k][j] - f.edges.boundary_u[t][k][j]
        == r.edges.boundary_u[t][0][j] - f.edges.boundary_u[t][0][j]
  {
  }

  /** Two tidal predictions merged into one: all three series summed. */
  function TideSum(a: TideSample, b: TideSample, nt: nat, n: nat): (s: TideSample)
    requires TideShaped(a, nt, n) && TideShaped(b, nt, n)
    ensures TideShaped(s, nt, n)
  {
    TideSample(Add2(a.h, b.h), Add2(a.U, b.U), Add2(a.V, b.V))
  }

  /** Adding two sets of harmonic predictions one after the other equals adding their sum once. */
  lemma {:induction false} OtisTwice(f: StoreData, d: Dims, ca: TideSample, ea: TideSample, cb: TideSample, eb: TideSample, setUV: bool)
    requires StoreShaped(f, d) && OtisShaped(ca, ea, d) && OtisShaped(cb, eb, d)
    ensures var cs := if d.N3 > 0 then TideSum(ca, cb, d.Nt, d.N3) else cb;
            var es := if d.N2 > 0 then TideSum(ea, eb, d.Nt, d.N2) else eb;
      OtisUpdate(OtisUpdate(f, d, ca, ea, setUV), d, cb, eb, setUV) == OtisUpdate(f, d, cs, es, setUV)
  {
    var cs := if d.N3 > 0 then TideSum(ca, cb, d.Nt, d.N3) else cb;
    var es := if d.N2 > 0 then TideSum(ea, eb, d.Nt, d.N2) else eb;
    var l := OtisUpdate(OtisUpdate(f, d, ca, ea, setUV), d, cb, eb, setUV);
    var r := OtisUpdate(f, d, cs, es, setUV);
    Ext2(l.cells.h, r.cells.h, d.Nt, d.N3);
    Ext3(l.cells.uc, r.cells.uc, d.Nt, d.Nk, d.N3);
    Ext3(l.cells.vc, r.cells.vc, d.Nt, d.Nk, d.N3);
    Ext3(l.edges.boundary_u, r.edges.boundary_u, d.Nt, d.Nk, d.N2);
    Ext3(l.edges.boundary_v, r.edges.boundary_v, d.Nt, d.Nk, d.N2);
  }

  /**
   * `otisfile2boundary` (defined only with type-3 cells): the corrected tidal
   * elevation plus the residual series of each instant are added to h, and with
   * `setUV` the barotropic U, V to every layer of uc, vc.  Type-2 fields, wc, T, S
   * and the flux are untouched.
   */
  function OtisFileUpdate(f: StoreData, d: Dims, tide: TideSample, residual: seq<real>, setUV: bool): (r: StoreData)
    requires StoreShaped(f, d) && d.N3 > 0 && TideShaped(tide, d.Nt, d.N3) && |residual| == d.Nt
    ensures StoreShaped(r, d)
    ensures r.edges == f.edges && r.boundary_Q == f.boundary_Q
    ensures r.cells.wc == f.cells.wc && r.cells.T == f.cells.T && r.cells.S == f.cells.S
    ensures forall t, j | 0 <= t < d.Nt && 0 <= j < d.N3 ::
      r.cells.h[t][j] == f.cells.h[t][j] + tide.h[t][j] + residual[t]
    ensures forall t, k, j | 0 <= t < d.Nt && 0 <= k < d.Nk && 0 <= j < d.N3 ::
      && r.cells.uc[t][k][j] == f.cells.uc[t][k][j] + (if setUV then tide.U[t][j] else 0.0)
      && r.cells.vc[t][k][j] == f.cells.vc[t][k][j] + (if setUV then tide.V[t][j] else 0.0)
  {
    ReplicateShape(tide.U, d.Nt, d.Nk, d.N3);
    ReplicateShape(tide.V, d.Nt, d.Nk, d.N3);
    var c := f.cells;
    f.(cells := c.(
      h := AddToColumns(Add2(c.h, tide.h), residual),
      uc := if setUV then Add3(c.uc, Replicate(tide.U, d.Nk)) else c.uc,
      vc := if setUV then Add3(c.vc, Replicate(tide.V, d.Nk)) else c.vc))
  }

  /** Without a residual, the corrected-tide update of the type-3 cells is the plain tidal one. */
  lemma {:induction false} OtisFileWithoutResidual(f: StoreData, d: Dims, tide: TideSample, edgeTide: TideSample, setUV: bool)
    requires StoreShaped(f, d) && d.N3 > 0 && TideShaped(tide, d.Nt, d.N3)
    requires d.N2 > 0 ==> TideShaped(edgeTide, d.Nt, d.N2)
    ensures OtisFileUpdate(f, d, tide, seq(d.Nt, _ => 0.0), setUV).cells == OtisUpdate(f, d, tide, edgeTide, setUV).cells
  {
    var l := OtisFileUpdate(f, d, tide, seq(d.Nt, _ => 0.0), setUV).cells;
    var r := OtisUpdate(f, d, tide, edgeTide, setUV).cells;
    Ext2(l.h, r.h, d.Nt, d.N3);
    Ext3(l.uc, r.uc, d.Nt, d.Nk, d.N3);
    Ext3(l.vc, r.vc, d.Nt, d.Nk, d.N3);
  }

  /** Every type-3 column of h receives the same residual: two columns' increments differ only by their tides. */
  lemma {:induction false} ResidualSharedByColumns(f: StoreData, d: Dims, tide: TideSample, residual: seq<real>, setUV: bool, t: nat, i: nat, j: nat)
    requires StoreShaped(f, d) && d.N3 > 0 && TideShaped(tide, d.Nt, d.N3) && |residual| == d.Nt
    requires t < d.Nt && i < d.N3 && j < d.N3
    ensures var r := OtisFileUpdate(f, d, tide, residual, setUV);
      (r.cells.h[t][i] - f.cells.h[t][i] - tide.h[t][i]) == (r.cells.h[t][j] - f.cells.h[t][j] - tide.h[t][j])
  {
  }

  /** A ROMS sample of zeros leaves every field as it was. */
  lemma {:induction false} RomsZero(f: StoreData, d: Dims, setUV: bool, seth: bool)
    requires StoreShaped(f, d)
    ensures var z3 := Zeros3(d.Nt, d.Nk, d.N3);
      RomsUpdate(f, d, RomsSample(Zeros2(d.Nt, d.N3), z3, z3, z3, z3), setUV, seth) == f
  {
    var z3 := Zeros3(d.Nt, d.Nk, d.N3);
    var r := RomsUpdate(f, d, RomsSample(Zeros2(d.Nt, d.N3), z3, z3, z3, z3), setUV, seth);
    Ext3(r.cells.T, f.cells.T, d.Nt, d.Nk, d.N3);
    Ext3(r.cells.S, f.cells.S, d.Nt, d.Nk, d.N3);
    Ext3(r.cells.uc, f.cells.uc, d.Nt, d.Nk, d.N3);
    Ext3(r.cells.vc, f.cells.vc, d.Nt, d.Nk, d.N3);
    Ext2(r.cells.h, f.cells.h, d.Nt, d.N3);
  }
}
