/**
 * The boundary netCDF file, written by `write2NC` and read by `_loadBoundaryNC`.
 * A file is modelled as what those two functions see of it: a map from dimension
 * names to sizes and a map from variable names to their dimension names, data and
 * `long_name`/`units` attributes.  A class of boundary points whose count is zero has
 * neither a dimension nor variables in the file.
 */
module Persistence {
  import opened Wrappers
  import opened Fields
  import opened TimeAxis

  /** Everything a boundary holds that goes into its file. */
  datatype BoundaryData = BoundaryData(
    Nk: nat, Nt: nat, N2: nat, N3: nat, Nseg: nat,
    z: seq<real>,
    time: seq<int>,               // instants, seconds since 1970-01-01
    cellp: seq<int>, xv: seq<real>, yv: seq<real>,
    edgep: seq<int>, xe: seq<real>, ye: seq<real>,
    segp: seq<int>, segedgep: seq<int>,
    fields: StoreData)

  function DimsOf(b: BoundaryData): Dims {
    Dims(b.Nt, b.Nk, b.N2, b.N3, b.Nseg)
  }

  /**
   * The shape every boundary keeps: index and coordinate arrays as long as their
   * class, flux segments only next to type-2 edges, and `segedgep` either one
   * entry per type-2 edge or (with no segments) absent.
   */
  predicate WellShaped(b: BoundaryData) {
    && |b.z| == b.Nk && |b.time| == b.Nt
    && |b.cellp| == |b.xv| == |b.yv| == b.N3
    && |b.edgep| == |b.xe| == |b.ye| == b.N2
    && |b.segp| == b.Nseg
    && (b.Nseg > 0 ==> b.N2 > 0)
    && (|b.segedgep| == b.N2 || (b.Nseg == 0 && b.segedgep == []))
    && StoreShaped(b.fields, DimsOf(b))
  }

  const Int32Min: int := -0x8000_0000
  const Int32Max: int := 0x7fff_ffff

  predicate AllInt32(s: seq<int>) {
    forall i | 0 <= i < |s| :: Int32Min <= s[i] <= Int32Max
  }

  /** An integer stored in a 32-bit (`i4`) variable: reduced modulo 2^32 into the signed range. */
  function Int32(x: int): (r: int)
    ensures Int32Min <= r <= Int32Max
    ensures (r - x) % 0x1_0000_0000 == 0
    ensures Int32Min <= x <= Int32Max ==> r == x
  {
    (x - Int32Min) % 0x1_0000_0000 + Int32Min
  }

  function Wrap32(s: seq<int>): (r: seq<int>)
    ensures |r| == |s| && AllInt32(r)
    ensures AllInt32(s) ==> r == s
  {
    seq(|s|, i requires 0 <= i < |s| => Int32(s[i]))
  }

  datatype NcData = F8(v: seq<real>) | I4(iv: seq<int>) | F8x2(a2: Series2) | F8x3(a3: Series3)

  /** The dimensions of a boundary file; `NcDimName` gives the name each has on disk. */
  datatype DimName = NtDim | NkDim | Ntype2 | Ntype3 | NsegDim

  function NcDimName(dn: DimName): string {
    match dn
      case NtDim => "Nt" case NkDim => "Nk" case Ntype2 => "Ntype2" case Ntype3 => "Ntype3" case NsegDim => "Nseg"
  }

  /** The variables of the three classes of boundary points, and the two every file has. */
  datatype CellVar = Xv | Yv | Cellp | Uc | Vc | Wc | T | S | H
  datatype EdgeVar = Xe | Ye | Edgep | BoundaryH | BoundaryU | BoundaryV | BoundaryW | BoundaryT | BoundaryS
  datatype SegVar = Segedgep | Segp | BoundaryQ
  datatype VarName = Type3(c: CellVar) | Type2(e: EdgeVar) | Segment(s: SegVar) | Z | Time

  /** The name each variable has on disk. */
  function NcName(v: VarName): string {
    match v
      case Type3(c) => (match c
        case Xv => "xv" case Yv => "yv" case Cellp => "cellp"
        case Uc => "uc" case Vc => "vc" case Wc => "wc" case T => "T" case S => "S" case H => "h")
      case Type2(e) => (match e
        case Xe => "xe" case Ye => "ye" case Edgep => "edgep"
        case BoundaryH => "boundary_h" case BoundaryU => "boundary_u" case BoundaryV => "boundary_v"
        case BoundaryW => "boundary_w" case BoundaryT => "boundary_T" case BoundaryS => "boundary_S")
      case Segment(sv) => (match sv case Segedgep => "segedgep" case Segp => "segp" case BoundaryQ => "boundary_Q")
      case Z => "z"
      case Time => "time"
  }

  const AllDims: set<DimName> := {NtDim, NkDim, Ntype2, Ntype3, NsegDim}
  const CellVars: set<CellVar> := {Xv, Yv, Cellp, Uc, Vc, Wc, T, S, H}
  const EdgeVars: set<EdgeVar> := {Xe, Ye, Edgep, BoundaryH, BoundaryU, BoundaryV, BoundaryW, BoundaryT, BoundaryS}
  const SegVars: set<SegVar> := {Segedgep, Segp, BoundaryQ}

  datatype NcVar = NcVar(dims: seq<DimName>, data: NcData, longName: string, units: string)

  datatype NcFile = NcFile(dims: map<DimName, nat>, vars: map<VarName, NcVar>)

  datatype LoadError = MissingDimension(dim: DimName) | MissingVariable(name: VarName) | BadShape(name: VarName)
                     | UnsupportedTimeUnits(units: string)

  const TimeUnits: string := "seconds since 1990-01-01 00:00:00"

  /** Every variable a file holds is laid out along dimensions the file declares. */
  predicate Declared(f: NcFile) {
    forall v, dn | v in f.vars && dn in f.vars[v].dims :: dn in f.dims
  }

  /** Which count decides whether a dimension is written: `Nt` and `Nk` always are. */
  predicate DimWritten(b: BoundaryData, dn: DimName) {
    match dn
      case NtDim => true case NkDim => true
      case Ntype2 => b.N2 > 0 case Ntype3 => b.N3 > 0 case NsegDim => b.Nseg > 0
  }

  function DimSize(b: BoundaryData, dn: DimName): nat {
    match dn
      case NtDim => b.Nt case NkDim => b.Nk case Ntype2 => b.N2 case Ntype3 => b.N3 case NsegDim => b.Nseg
  }

  /** A class's variables are written when its count is positive; `z` and `time` always are. */
  predicate VarWritten(b: BoundaryData, v: VarName) {
    match v
      case Type3(_) => b.N3 > 0 case Type2(_) => b.N2 > 0 case Segment(_) => b.Nseg > 0
      case Z => true case Time => true
  }

  /** Whole seconds stored in a double (`f8`) variable. */
  function ToReals(s: seq<int>): (r: seq<real>)
    ensures |r| == |s|
    ensures forall i | 0 <= i < |s| :: r[i].Floor == s[i]
  {
    seq(|s|, i requires 0 <= i < |s| => s[i] as real)
  }

  /** The dimensions `write2NC` lays a variable out along. */
  function VarDims(v: VarName): seq<DimName> {
    match v
      case Type3(c) => (match c
        case Xv => [Ntype3] case Yv => [Ntype3] case Cellp => [Ntype3] case H => [NtDim, Ntype3]
        case _ => [NtDim, NkDim, Ntype3])
      case Type2(e) => (match e
        case Xe => [Ntype2] case Ye => [Ntype2] case Edgep => [Ntype2] case BoundaryH => [NtDim, Ntype2]
        case _ => [NtDim, NkDim, Ntype2])
      case Segment(sv) => (match sv
        case Segedgep => [Ntype2] case Segp => [NsegDim] case BoundaryQ => [NtDim, NsegDim])
      case Z => [NkDim]
      case Time => [NtDim]
  }

  /** The values `write2NC` stores in a type-3 variable: indices as `i4`, everything else as `f8`. */
  function CellData(b: BoundaryData, c: CellVar): NcData {
    var f := b.fields.cells;
    match c
      case Xv => F8(b.xv) case Yv => F8(b.yv) case Cellp => I4(Wrap32(b.cellp))
      case Uc => F8x3(f.uc) case Vc => F8x3(f.vc) case Wc => F8x3(f.wc)
      case T => F8x3(f.T) case S => F8x3(f.S) case H => F8x2(f.h)
  }

  function EdgeData(b: BoundaryData, e: EdgeVar): NcData {
    var f := b.fields.edges;
    match e
      case Xe => F8(b.xe) case Ye => F8(b.ye) case Edgep => I4(Wrap32(b.edgep))
      case BoundaryH => F8x2(f.boundary_h)
      case BoundaryU => F8x3(f.boundary_u) case BoundaryV => F8x3(f.boundary_v) case BoundaryW => F8x3(f.boundary_w)
      case BoundaryT => F8x3(f.boundary_T) case BoundaryS => F8x3(f.boundary_S)
  }

  function SegData(b: BoundaryData, sv: SegVar): NcData {
    match sv
      case Segedgep => I4(Wrap32(b.segedgep)) case Segp => I4(Wrap32(b.segp))
      case BoundaryQ => F8x2(b.fields.boundary_Q)
  }

  function VarData(b: BoundaryData, v: VarName): NcData {
    match v
      case Type3(c) => CellData(b, c)
      case Type2(e) => EdgeData(b, e)
      case Segment(sv) => SegData(b, sv)
      case Z => F8(b.z)
      case Time => F8(ToReals(SecondsSince1990(b.time)))
  }

  /** The `long_name` and `units` attributes `write2NC` gives each variable. */
  function Attributes(v: VarName): (string, string) {
    match v
      case Type3(c) => (match c
        case Xv => ("Easting of type-3 boundary points", "metres")
        case Yv => ("Northing of type-3 boundary points", "metres")
        case Cellp => ("Index of suntans grid cell corresponding to type-3 boundary", "")
        case Uc => ("Eastward velocity at type-3 boundary point", "metre second-1")
        case Vc => ("Northward velocity at type-3 boundary point", "metre second-1")
        case Wc => ("Vertical velocity at type-3 boundary point", "metre second-1")
        case T => ("Water temperature at type-3 boundary point", "degrees C")
        case S => ("Salinity at type-3 boundary point", "psu")
        case H => ("Water surface elevation at type-3 boundary point", "metres"))
      case Type2(e) => (match e
        case Xe => ("Easting of type-2 boundary points", "metres")
        case Ye => ("Northing of type-2 boundary points", "metres")
        case Edgep => ("Index of suntans grid edge corresponding to type-2 boundary", "")
        case BoundaryH => ("Free-surface elevation at type-2 boundary point", "metre")
        case BoundaryU => ("Eastward velocity at type-2 boundary point", "metre second-1")
        case BoundaryV => ("Northward velocity at type-2 boundary point", "metre second-1")
        case BoundaryW => ("Vertical velocity at type-2 boundary point", "metre second-1")
        case BoundaryT => ("Water temperature at type-2 boundary point", "degrees C")
        case BoundaryS => ("Salinity at type-2 boundary point", "psu"))
      case Segment(sv) => (match sv
        case Segedgep => ("Pointer to boundary segment flag for each type-2 edge", "")
        case Segp => ("Boundary segment flag", "")
        case BoundaryQ => ("Volume flux  at boundary segment", "metre^3 second-1"))
      case Z => ("Vertical grid mid-layer depth", "metres")
      case Time => ("Boundary time", TimeUnits)
  }

  /** The variable `write2NC` creates: its dimensions, values and `long_name`/`units` attributes. */
  function VarOf(b: BoundaryData, v: VarName): NcVar {
    NcVar(VarDims(v), VarData(b, v), Attributes(v).0, Attributes(v).1)
  }

  lemma CellListed(c: CellVar) ensures c in CellVars {}
  lemma EdgeListed(e: EdgeVar) ensures e in EdgeVars {}
  lemma SegListed(sv: SegVar) ensures sv in SegVars {}

  /** Every variable name belongs to one of the classes `EncodeNC` ranges over. */
  lemma VarListed(v: VarName)
    ensures v.Type3? ==> v.c in CellVars
    ensures v.Type2? ==> v.e in EdgeVars
    ensures v.Segment? ==> v.s in SegVars
  {
    match v
      case Type3(c) => CellListed(c);
      case Type2(e) => EdgeListed(e);
      case Segment(sv) => SegListed(sv);
      case _ =>
  }

  lemma DimListed(dn: DimName)
    ensures dn in AllDims
  {
  }

  /** A written variable is laid out along written dimensions only. */
  lemma VarDimsWritten(b: BoundaryData, v: VarName)
    requires (b.Nseg > 0 ==> b.N2 > 0) && VarWritten(b, v)
    ensures forall dn | dn in VarDims(v) :: DimWritten(b, dn)
  {
  }

  /** The type-3 variables, written when there are type-3 cells. */
  function CellVarsMap(b: BoundaryData): (m: map<VarName, NcVar>)
    ensures forall v :: v in m <==> v.Type3? && b.N3 > 0
    ensures forall v | v in m :: m[v] == VarOf(b, v)
  {
    var m := if b.N3 > 0 then (map c | c in CellVars :: Type3(c) := VarOf(b, Type3(c))) else map[];
    forall v ensures v in m <==> v.Type3? && b.N3 > 0 { VarListed(v); }
    m
  }

  /** The type-2 variables, written when there are type-2 edges. */
  function EdgeVarsMap(b: BoundaryData): (m: map<VarName, NcVar>)
    ensures forall v :: v in m <==> v.Type2? && b.N2 > 0
    ensures forall v | v in m :: m[v] == VarOf(b, v)
  {
    var m := if b.N2 > 0 then (map e | e in EdgeVars :: Type2(e) := VarOf(b, Type2(e))) else map[];
    forall v ensures v in m <==> v.Type2? && b.N2 > 0 { VarListed(v); }
    m
  }

  /** The segment variables, written when there are flux segments. */
  function SegVarsMap(b: BoundaryData): (m: map<VarName, NcVar>)
    ensures forall v :: v in m <==> v.Segment? && b.Nseg > 0
    ensures forall v | v in m :: m[v] == VarOf(b, v)
  {
    var m := if b.Nseg > 0 then (map sv | sv in SegVars :: Segment(sv) := VarOf(b, Segment(sv))) else map[];
    forall v ensures v in m <==> v.Segment? && b.Nseg > 0 { VarListed(v); }
    m
  }

  /** The variables of the classes with a positive count, keyed by their names. */
  function ClassVars(b: BoundaryData): (m: map<VarName, NcVar>)
    ensures forall v :: v in m <==> VarWritten(b, v) && !v.Z? && !v.Time?
    ensures forall v | v in m :: m[v] == VarOf(b, v)
  {
    CellVarsMap(b) + EdgeVarsMap(b) + SegVarsMap(b)
  }

  /** The dimensions of the file: `Nt` and `Nk`, and each class's dimension when its count is positive. */
  function DimsMap(b: BoundaryData): (m: map<DimName, nat>)
    ensures forall dn :: dn in m <==> DimWritten(b, dn)
    ensures forall dn | dn in m :: m[dn] == DimSize(b, dn)
  {
    var m := map dn | dn in AllDims && DimWritten(b, dn) :: DimSize(b, dn);
    forall dn ensures dn in m <==> DimWritten(b, dn) {
      DimListed(dn);
    }
    m
  }

  /**
   * `write2NC`: `Nt` and `Nk` are always declared, `Ntype2`, `Ntype3` and `Nseg` only
   * when their count is positive, and a class's variables exactly when its dimension is.
   */
  function EncodeNC(b: BoundaryData): (f: NcFile)
    requires b.Nseg > 0 ==> b.N2 > 0
    ensures forall dn :: dn in f.dims <==> DimWritten(b, dn)
    ensures forall dn | dn in f.dims :: f.dims[dn] == DimSize(b, dn)
    ensures forall v :: v in f.vars <==> VarWritten(b, v)
    ensures forall v | v in f.vars :: f.vars[v] == VarOf(b, v)
    ensures Declared(f)
  {
    var vars := ClassVars(b)[Z := VarOf(b, Z)][Time := VarOf(b, Time)];
    forall v | VarWritten(b, v) { VarDimsWritten(b, v); }
    NcFile(DimsMap(b), vars)
  }

  /** A dimension `_loadBoundaryNC` may miss: its size, or 0 when the file lacks it. */
  function OptionalDim(f: NcFile, dn: DimName): (n: nat)
    ensures dn in f.dims ==> n == f.dims[dn]
    ensures dn !in f.dims ==> n == 0
  {
    if dn in f.dims then f.dims[dn] else 0
  }

  function RequiredDim(f: NcFile, dn: DimName): (r: Result<nat, LoadError>)
    ensures r.Ok? <==> dn in f.dims
    ensures r.Ok? ==> r.value == f.dims[dn]
  {
    if dn in f.dims then Ok(f.dims[dn]) else Err(MissingDimension(dn))
  }

  function ReadF8(f: NcFile, v: VarName, n: nat): (r: Result<seq<real>, LoadError>)
    ensures r.Ok? <==> v in f.vars && f.vars[v].data.F8? && |f.vars[v].data.v| == n
    ensures r.Ok? ==> r.value == f.vars[v].data.v
  {
    if v !in f.vars then Err(MissingVariable(v))
    else match f.vars[v].data
      case F8(a) => if |a| == n then Ok(a) else Err(BadShape(v))
      case _ => Err(BadShape(v))
  }

  function ReadI4(f: NcFile, v: VarName, n: nat): (r: Result<seq<int>, LoadError>)
    ensures r.Ok? <==> v in f.vars && f.vars[v].data.I4? && |f.vars[v].data.iv| == n
    ensures r.Ok? ==> r.value == f.vars[v].data.iv
  {
    if v !in f.vars then Err(MissingVariable(v))
    else match f.vars[v].data
      case I4(a) => if |a| == n then Ok(a) else Err(BadShape(v))
      case _ => Err(BadShape(v))
  }

  function ReadF8x2(f: NcFile, v: VarName, n0: nat, n1: nat): (r: Result<Series2, LoadError>)
    ensures r.Ok? <==> v in f.vars && f.vars[v].data.F8x2? && Shape2(f.vars[v].data.a2, n0, n1)
    ensures r.Ok? ==> r.value == f.vars[v].data.a2
  {
    if v !in f.vars then Err(MissingVariable(v))
    else match f.vars[v].data
      case F8x2(a) => if Shape2(a, n0, n1) then Ok(a) else Err(BadShape(v))
      case _ => Err(BadShape(v))
  }

  function ReadF8x3(f: NcFile, v: VarName, n0: nat, n1: nat, n2: nat): (r: Result<Series3, LoadError>)
    ensures r.Ok? <==> v in f.vars && f.vars[v].data.F8x3? && Shape3(f.vars[v].data.a3, n0, n1, n2)
    ensures r.Ok? ==> r.value == f.vars[v].data.a3
  {
    if v !in f.vars then Err(MissingVariable(v))
    else match f.vars[v].data
      case F8x3(a) => if Shape3(a, n0, n1, n2) then Ok(a) else Err(BadShape(v))
      case _ => Err(BadShape(v))
  }

  /** The time coordinate read back as instants (whole seconds); only the units `write2NC` uses are understood. */
  function ReadTime(f: NcFile, nt: nat): (r: Result<seq<int>, LoadError>)
    ensures r.Ok? ==> |r.value| == nt && Time in f.vars && f.vars[Time].units == TimeUnits
    ensures r.Ok? ==> f.vars[Time].data.F8? && |f.vars[Time].data.v| == nt
    ensures r.Ok? ==> forall i | 0 <= i < nt :: r.value[i] == f.vars[Time].data.v[i].Floor + Epoch1990
  {
    var tsec :- ReadF8(f, Time, nt);
    if f.vars[Time].units != TimeUnits then Err(UnsupportedTimeUnits(f.vars[Time].units))
    else Ok(seq(nt, i requires 0 <= i < nt => tsec[i].Floor + Epoch1990))
  }

  datatype CellPart = CellPart(cellp: seq<int>, xv: seq<real>, yv: seq<real>, cells: CellFields)
  datatype EdgePart = EdgePart(edgep: seq<int>, xe: seq<real>, ye: seq<real>, edges: EdgeFields)
  datatype SegPart = SegPart(segp: seq<int>, segedgep: seq<int>, boundary_Q: Series2)

  function ReadCells(f: NcFile, nt: nat, nk: nat, n3: nat): (r: Result<CellPart, LoadError>)
    ensures r.Ok? ==> |r.value.cellp| == |r.value.xv| == |r.value.yv| == n3 && CellsShaped(r.value.cells, nt, nk, n3)
  {
    var cellp :- ReadI4(f, Type3(Cellp), n3);
    var xv :- ReadF8(f, Type3(Xv), n3);
    var yv :- ReadF8(f, Type3(Yv), n3);
    var uc :- ReadF8x3(f, Type3(Uc), nt, nk, n3);
    var vc :- ReadF8x3(f, Type3(Vc), nt, nk, n3);
    var wc :- ReadF8x3(f, Type3(Wc), nt, nk, n3);
    var t :- ReadF8x3(f, Type3(T), nt, nk, n3);
    var s :- ReadF8x3(f, Type3(S), nt, nk, n3);
    var h :- ReadF8x2(f, Type3(H), nt, n3);
    Ok(CellPart(cellp, xv, yv, CellFields(uc, vc, wc, t, s, h)))
  }

  function ReadEdges(f: NcFile, nt: nat, nk: nat, n2: nat): (r: Result<EdgePart, LoadError>)
    ensures r.Ok? ==> |r.value.edgep| == |r.value.xe| == |r.value.ye| == n2 && EdgesShaped(r.value.edges, nt, nk, n2)
  {
    var edgep :- ReadI4(f, Type2(Edgep), n2);
    var xe :- ReadF8(f, Type2(Xe), n2);
    var ye :- ReadF8(f, Type2(Ye), n2);
    var bh :- ReadF8x2(f, Type2(BoundaryH), nt, n2);
    var bu :- ReadF8x3(f, Type2(BoundaryU), nt, nk, n2);
    var bv :- ReadF8x3(f, Type2(BoundaryV), nt, nk, n2);
    var bw :- ReadF8x3(f, Type2(BoundaryW), nt, nk, n2);
    var bT :- ReadF8x3(f, Type2(BoundaryT), nt, nk, n2);
    var bS :- ReadF8x3(f, Type2(BoundaryS), nt, nk, n2);
    Ok(EdgePart(edgep, xe, ye, EdgeFields(bh, bu, bv, bw, bT, bS)))
  }

  function ReadSegs(f: NcFile, nt: nat, n2: nat, nseg: nat): (r: Result<SegPart, LoadError>)
    ensures r.Ok? ==> |r.value.segp| == nseg && |r.value.segedgep| == n2 && Shape2(r.value.boundary_Q, nt, nseg)
  {
    var segp :- ReadI4(f, Segment(Segp), nseg);
    var segedgep :- ReadI4(f, Segment(Segedgep), n2);
    var q :- ReadF8x2(f, Segment(BoundaryQ), nt, nseg);
    Ok(SegPart(segp, segedgep, q))
  }

  /**
   * `_loadBoundaryNC`: `Nk` and `Nt` must be present; an absent `Ntype2`, `Ntype3` or
   * `Nseg` means a count of 0, and that class's variables are then not read (its
   * arrays are empty).  A segment dimension without type-2 edges is refused, since
   * `segedgep` is laid out along `Ntype2`.
   */
  function DecodeNC(f: NcFile): (r: Result<BoundaryData, LoadError>)
    ensures r.Ok? ==> WellShaped(r.value)
    ensures r.Ok? ==> NkDim in f.dims && NtDim in f.dims
    ensures r.Ok? ==> r.value.Nk == f.dims[NkDim] && r.value.Nt == f.dims[NtDim]
    ensures r.Ok? ==>
      && r.value.N2 == OptionalDim(f, Ntype2) && r.value.N3 == OptionalDim(f, Ntype3)
      && r.value.Nseg == OptionalDim(f, NsegDim)
    ensures r.Ok? && r.value.N3 == 0 ==> r.value.cellp == [] && r.value.fields.cells == ZeroCells(r.value.Nt, r.value.Nk, 0)
    ensures r.Ok? && r.value.N2 == 0 ==> r.value.edgep == [] && r.value.fields.edges == ZeroEdges(r.value.Nt, r.value.Nk, 0)
    ensures r.Ok? && r.value.Nseg == 0 ==> r.value.segp == [] && r.value.segedgep == []
  {
    var nk :- RequiredDim(f, NkDim);
    var n2 := OptionalDim(f, Ntype2);
    var n3 := OptionalDim(f, Ntype3);
    var nseg := OptionalDim(f, NsegDim);
    var nt :- RequiredDim(f, NtDim);
    var time :- ReadTime(f, nt);
    var z :- ReadF8(f, Z, nk);
    var c :- if n3 > 0 then ReadCells(f, nt, nk, n3) else Ok(CellPart([], [], [], ZeroCells(nt, nk, 0)));
    var e :- if n2 > 0 then ReadEdges(f, nt, nk, n2) else Ok(EdgePart([], [], [], ZeroEdges(nt, nk, 0)));
    var s :- if nseg > 0 then ReadSegs(f, nt, n2, nseg) else Ok(SegPart([], [], Zeros2(nt, 0)));
    if nseg > 0 && n2 == 0 then Err(MissingDimension(Ntype2))
    else
      Ok(BoundaryData(nk, nt, n2, n3, nseg, z, time,
        c.cellp, c.xv, c.yv, e.edgep, e.xe, e.ye, s.segp, s.segedgep,
        StoreData(c.cells, e.edges, s.boundary_Q)))
  }

  /** The indices every boundary stores in 32-bit variables fit in 32 bits. */
  predicate IndicesFit(b: BoundaryData) {
    AllInt32(b.cellp) && AllInt32(b.edgep) && AllInt32(b.segp) && AllInt32(b.segedgep)
  }

  /** What a boundary looks like once written and read back: without segments, `segedgep` is not stored. */
  function Reloaded(b: BoundaryData): BoundaryData {
    if b.Nseg > 0 then b else b.(segedgep := [])
  }

  lemma {:induction false} TimeRoundTrip(b: BoundaryData)
    requires WellShaped(b)
    ensures ReadTime(EncodeNC(b), b.Nt) == Ok(b.time)
  {
    var f := EncodeNC(b);
    assert VarWritten(b, Time);
    assert f.vars[Time] == VarOf(b, Time);
    var v := ToReals(SecondsSince1990(b.time));
    assert f.vars[Time].data == F8(v);
    var r := ReadTime(f, b.Nt);
    assert r.Ok?;
    forall i | 0 <= i < b.Nt ensures r.value[i] == b.time[i] {
      assert v[i].Floor == SecondsSince1990(b.time)[i];
    }
    assert r.value == b.time;
  }

  /** `f` holds, under each name written for `b`, the values `write2NC` stores there. */
  ghost predicate Holds(f: NcFile, b: BoundaryData) {
    forall v | VarWritten(b, v) :: v in f.vars && f.vars[v].data == VarData(b, v)
  }

  lemma EncodedHolds(b: BoundaryData)
    requires b.Nseg > 0 ==> b.N2 > 0
    ensures Holds(EncodeNC(b), b)
  {
  }

  lemma ReadCellsFrom(f: NcFile, nt: nat, nk: nat, n3: nat, p: CellPart)
    requires ReadI4(f, Type3(Cellp), n3) == Ok(p.cellp)
    requires ReadF8(f, Type3(Xv), n3) == Ok(p.xv) && ReadF8(f, Type3(Yv), n3) == Ok(p.yv)
    requires ReadF8x3(f, Type3(Uc), nt, nk, n3) == Ok(p.cells.uc) && ReadF8x3(f, Type3(Vc), nt, nk, n3) == Ok(p.cells.vc)
    requires ReadF8x3(f, Type3(Wc), nt, nk, n3) == Ok(p.cells.wc) && ReadF8x3(f, Type3(T), nt, nk, n3) == Ok(p.cells.T)
    requires ReadF8x3(f, Type3(S), nt, nk, n3) == Ok(p.cells.S) && ReadF8x2(f, Type3(H), nt, n3) == Ok(p.cells.h)
    ensures ReadCells(f, nt, nk, n3) == Ok(p)
  {
  }

  lemma ReadEdgesFrom(f: NcFile, nt: nat, nk: nat, n2: nat, p: EdgePart)
    requires ReadI4(f, Type2(Edgep), n2) == Ok(p.edgep)
    requires ReadF8(f, Type2(Xe), n2) == Ok(p.xe) && ReadF8(f, Type2(Ye), n2) == Ok(p.ye)
    requires ReadF8x2(f, Type2(BoundaryH), nt, n2) == Ok(p.edges.boundary_h)
    requires ReadF8x3(f, Type2(BoundaryU), nt, nk, n2) == Ok(p.edges.boundary_u)
    requires ReadF8x3(f, Type2(BoundaryV), nt, nk, n2) == Ok(p.edges.boundary_v)
    requires ReadF8x3(f, Type2(BoundaryW), nt, nk, n2) == Ok(p.edges.boundary_w)
    requires ReadF8x3(f, Type2(BoundaryT), nt, nk, n2) == Ok(p.edges.boundary_T)
    requires ReadF8x3(f, Type2(BoundaryS), nt, nk, n2) == Ok(p.edges.boundary_S)
    ensures ReadEdges(f, nt, nk, n2) == Ok(p)
  {
  }

  lemma {:induction false} CellsReadBack(f: NcFile, b: BoundaryData)
    requires Holds(f, b) && WellShaped(b) && AllInt32(b.cellp) && b.N3 > 0
    ensures ReadCells(f, b.Nt, b.Nk, b.N3) == Ok(CellPart(b.cellp, b.xv, b.yv, b.fields.cells))
  {
    assert VarWritten(b, Type3(Cellp));
    ReadCellsFrom(f, b.Nt, b.Nk, b.N3, CellPart(b.cellp, b.xv, b.yv, b.fields.cells));
  }

  lemma {:induction false} EdgesReadBack(f: NcFile, b: BoundaryData)
    requires Holds(f, b) && WellShaped(b) && AllInt32(b.edgep) && b.N2 > 0
    ensures ReadEdges(f, b.Nt, b.Nk, b.N2) == Ok(EdgePart(b.edgep, b.xe, b.ye, b.fields.edges))
  {
    var e := b.fields.edges;
    assert VarWritten(b, Type2(Edgep));
    assert f.vars[Type2(BoundaryU)].data == F8x3(e.boundary_u);
    assert f.vars[Type2(BoundaryV)].data == F8x3(e.boundary_v);
    assert f.vars[Type2(BoundaryW)].data == F8x3(e.boundary_w);
    assert f.vars[Type2(BoundaryT)].data == F8x3(e.boundary_T);
    assert f.vars[Type2(BoundaryS)].data == F8x3(e.boundary_S);
    ReadEdgesFrom(f, b.Nt, b.Nk, b.N2, EdgePart(b.edgep, b.xe, b.ye, b.fields.edges));
  }

  lemma {:induction false} SegsReadBack(f: NcFile, b: BoundaryData)
    requires Holds(f, b) && WellShaped(b) && AllInt32(b.segp) && AllInt32(b.segedgep) && b.Nseg > 0
    ensures ReadSegs(f, b.Nt, b.N2, b.Nseg) == Ok(SegPart(b.segp, b.segedgep, b.fields.boundary_Q))
  {
    assert VarWritten(b, Segment(Segp));
  }

  /**
   * Writing a boundary and reading the file back gives the same boundary: equal
   * counts, coordinates, indices, instants and arrays for every class present.
   * The one exception is `segedgep`, which is not written when there are no segments.
   */
  lemma {:induction false} RoundTrip(b: BoundaryData)
    requires WellShaped(b) && IndicesFit(b)
    ensures DecodeNC(EncodeNC(b)) == Ok(Reloaded(b))
  {
    var f := EncodeNC(b);
    TimeRoundTrip(b);
    EncodedHolds(b);
    assert VarWritten(b, Z);
    assert NkDim in f.dims && NtDim in f.dims by { assert DimWritten(b, NkDim) && DimWritten(b, NtDim); }
    assert OptionalDim(f, Ntype2) == b.N2 by { assert Ntype2 in f.dims <==> DimWritten(b, Ntype2); }
    assert OptionalDim(f, Ntype3) == b.N3 by { assert Ntype3 in f.dims <==> DimWritten(b, Ntype3); }
    assert OptionalDim(f, NsegDim) == b.Nseg by { assert NsegDim in f.dims <==> DimWritten(b, NsegDim); }
    var c := CellPart(b.cellp, b.xv, b.yv, b.fields.cells);
    var e := EdgePart(b.edgep, b.xe, b.ye, b.fields.edges);
    var sp := SegPart(b.segp, b.segedgep, b.fields.boundary_Q);
    if b.N3 > 0 { CellsReadBack(f, b); } else { NoCells(b.fields.cells, b.Nt, b.Nk); }
    if b.N2 > 0 { EdgesReadBack(f, b); } else { NoEdges(b.fields.edges, b.Nt, b.Nk); }
    if b.Nseg > 0 { SegsReadBack(f, b); } else { EmptyPoints2(b.fields.boundary_Q, b.Nt); sp := SegPart([], [], Zeros2(b.Nt, 0)); }
    DecodeFrom(f, b.z, b.time, c, e, sp);
  }

  /** `DecodeNC` assembles a boundary from the parts it reads. */
  lemma DecodeFrom(f: NcFile, z: seq<real>, time: seq<int>, c: CellPart, e: EdgePart, s: SegPart)
    requires NkDim in f.dims && NtDim in f.dims
    requires ReadTime(f, f.dims[NtDim]) == Ok(time) && ReadF8(f, Z, f.dims[NkDim]) == Ok(z)
    requires OptionalDim(f, Ntype3) > 0 ==> ReadCells(f, f.dims[NtDim], f.dims[NkDim], OptionalDim(f, Ntype3)) == Ok(c)
    requires OptionalDim(f, Ntype3) == 0 ==> c == CellPart([], [], [], ZeroCells(f.dims[NtDim], f.dims[NkDim], 0))
    requires OptionalDim(f, Ntype2) > 0 ==> ReadEdges(f, f.dims[NtDim], f.dims[NkDim], OptionalDim(f, Ntype2)) == Ok(e)
    requires OptionalDim(f, Ntype2) == 0 ==> e == EdgePart([], [], [], ZeroEdges(f.dims[NtDim], f.dims[NkDim], 0))
    requires OptionalDim(f, NsegDim) > 0 ==> ReadSegs(f, f.dims[NtDim], OptionalDim(f, Ntype2), OptionalDim(f, NsegDim)) == Ok(s)
    requires OptionalDim(f, NsegDim) == 0 ==> s == SegPart([], [], Zeros2(f.dims[NtDim], 0))
    requires OptionalDim(f, NsegDim) > 0 ==> OptionalDim(f, Ntype2) > 0
    ensures DecodeNC(f) == Ok(BoundaryData(f.dims[NkDim], f.dims[NtDim],
      OptionalDim(f, Ntype2), OptionalDim(f, Ntype3), OptionalDim(f, NsegDim), z, time,
      c.cellp, c.xv, c.yv, e.edgep, e.xe, e.ye, s.segp, s.segedgep, StoreData(c.cells, e.edges, s.boundary_Q)))
  {
  }

  /** Reading a file back keeps the counts, the instants and every field array exactly. */
  lemma {:induction false} CountsSurvive(b: BoundaryData)
    requires WellShaped(b) && IndicesFit(b)
    ensures DecodeNC(EncodeNC(b)).Ok?
    ensures var r := DecodeNC(EncodeNC(b)).value;
      DimsOf(r) == DimsOf(b) && r.time == b.time && r.fields == b.fields
  {
    RoundTrip(b);
  }
}
