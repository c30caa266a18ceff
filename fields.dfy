/**
 * Values of the boundary field arrays.  A `Series2` is indexed [time][point],
 * a `Series3` [time][layer][point] (for the initial condition the time axis has
 * length one).  The arrays of a field store are read as these values by `Snap2`
 * and `Snap3`; the accumulators are specified by the element-wise operations here.
 */
module Fields {

  type Series2 = seq<seq<real>>
  type Series3 = seq<seq<seq<real>>>

  predicate Shape2(a: Series2, n0: nat, n1: nat) {
    |a| == n0 && forall t | 0 <= t < n0 :: |a[t]| == n1
  }

  predicate Shape3(a: Series3, n0: nat, n1: nat, n2: nat) {
    |a| == n0 && forall t | 0 <= t < n0 :: Shape2(a[t], n1, n2)
  }

  predicate SameShape2(a: Series2, b: Series2) {
    |a| == |b| && forall t | 0 <= t < |a| :: |a[t]| == |b[t]|
  }

  predicate SameShape3(a: Series3, b: Series3) {
    |a| == |b| && forall t | 0 <= t < |a| :: SameShape2(a[t], b[t])
  }

  /** `numpy.zeros((n0, n1))` */
  function Zeros2(n0: nat, n1: nat): (r: Series2)
    ensures Shape2(r, n0, n1)
    ensures forall t, j | 0 <= t < n0 && 0 <= j < n1 :: r[t][j] == 0.0
  {
    seq(n0, _ => seq(n1, _ => 0.0))
  }

  /** `numpy.zeros((n0, n1, n2))` */
  function Zeros3(n0: nat, n1: nat, n2: nat): (r: Series3)
    ensures Shape3(r, n0, n1, n2)
    ensures forall t, k, j | 0 <= t < n0 && 0 <= k < n1 && 0 <= j < n2 :: r[t][k][j] == 0.0
  {
    seq(n0, _ => Zeros2(n1, n2))
  }

  /** Element-wise sum of two arrays of equal shape. */
  function Add2(a: Series2, b: Series2): (r: Series2)
    requires SameShape2(a, b)
    ensures SameShape2(r, a)
  {
    seq(|a|, t requires 0 <= t < |a| => seq(|a[t]|, j requires 0 <= j < |a[t]| => a[t][j] + b[t][j]))
  }

  function Add3(a: Series3, b: Series3): (r: Series3)
    requires SameShape3(a, b)
    ensures SameShape3(r, a)
  {
    seq(|a|, t requires 0 <= t < |a| => Add2(a[t], b[t]))
  }

  /** A [time][point] array repeated over `nk` layers: what `for k: a[:, k, :] += U` adds. */
  function Replicate(u: Series2, nk: nat): (r: Series3)
    ensures |r| == |u|
    ensures forall t | 0 <= t < |u| :: |r[t]| == nk
    ensures forall t, k | 0 <= t < |u| && 0 <= k < nk :: r[t][k] == u[t]
  {
    seq(|u|, t requires 0 <= t < |u| => seq(nk, _ => u[t]))
  }

  /** A per-time series added to every point column: what `for ii: h[:, ii] += residual` adds. */
  function AddToColumns(h: Series2, r: seq<real>): (s: Series2)
    requires |r| == |h|
    ensures SameShape2(s, h)
  {
    seq(|h|, t requires 0 <= t < |h| => seq(|h[t]|, j requires 0 <= j < |h[t]| => h[t][j] + r[t]))
  }

  /** Element `[t][j]` of an array snapshot. */
  function Snap2(a: array2<real>): (r: Series2)
    reads a
    ensures Shape2(r, a.Length0, a.Length1)
    ensures forall t, j | 0 <= t < a.Length0 && 0 <= j < a.Length1 :: r[t][j] == a[t, j]
  {
    seq(a.Length0, t requires 0 <= t < a.Length0 reads a =>
      seq(a.Length1, j requires 0 <= j < a.Length1 reads a => a[t, j]))
  }

  function Snap3(a: array3<real>): (r: Series3)
    reads a
    ensures Shape3(r, a.Length0, a.Length1, a.Length2)
    ensures forall t, k, j | 0 <= t < a.Length0 && 0 <= k < a.Length1 && 0 <= j < a.Length2 ::
      r[t][k][j] == a[t, k, j]
  {
    seq(a.Length0, t requires 0 <= t < a.Length0 reads a =>
      seq(a.Length1, k requires 0 <= k < a.Length1 reads a =>
        seq(a.Length2, j requires 0 <= j < a.Length2 reads a => a[t, k, j])))
  }

  /** Two arrays of one shape are equal when their elements are. */
  lemma Ext2(a: Series2, b: Series2, n0: nat, n1: nat)
    requires Shape2(a, n0, n1) && Shape2(b, n0, n1)
    requires forall t, j | 0 <= t < n0 && 0 <= j < n1 :: a[t][j] == b[t][j]
    ensures a == b
  {
    forall t | 0 <= t < n0 ensures a[t] == b[t] {
      assert |a[t]| == |b[t]| == n1;
    }
  }

  lemma Ext3(a: Series3, b: Series3, n0: nat, n1: nat, n2: nat)
    requires Shape3(a, n0, n1, n2) && Shape3(b, n0, n1, n2)
    requires forall t, k, j | 0 <= t < n0 && 0 <= k < n1 && 0 <= j < n2 :: a[t][k][j] == b[t][k][j]
    ensures a == b
  {
    forall t | 0 <= t < n0 ensures a[t] == b[t] {
      Ext2(a[t], b[t], n1, n2);
    }
  }

  /** A [n0][n1][0] array holds nothing but its shape. */
  lemma EmptyPoints3(a: Series3, n0: nat, n1: nat)
    requires Shape3(a, n0, n1, 0)
    ensures a == Zeros3(n0, n1, 0)
  {
    Ext3(a, Zeros3(n0, n1, 0), n0, n1, 0);
  }

  lemma EmptyPoints2(a: Series2, n0: nat)
    requires Shape2(a, n0, 0)
    ensures a == Zeros2(n0, 0)
  {
    Ext2(a, Zeros2(n0, 0), n0, 0);
  }

  /** Accumulating `b` then `c` is accumulating their sum once. */
  lemma {:induction false} Add3Assoc(a: Series3, b: Series3, c: Series3, n0: nat, n1: nat, n2: nat)
    requires Shape3(a, n0, n1, n2) && Shape3(b, n0, n1, n2) && Shape3(c, n0, n1, n2)
    ensures Add3(Add3(a, b), c) == Add3(a, Add3(b, c))
  {
    var l := Add3(Add3(a, b), c);
    var r := Add3(a, Add3(b, c));
    forall t, k, j | 0 <= t < n0 && 0 <= k < n1 && 0 <= j < n2 ensures l[t][k][j] == r[t][k][j] {
      assert l[t][k][j] == a[t][k][j] + b[t][k][j] + c[t][k][j];
    }
    Ext3(l, r, n0, n1, n2);
  }

  lemma {:induction false} Add2Assoc(a: Series2, b: Series2, c: Series2, n0: nat, n1: nat)
    requires Shape2(a, n0, n1) && Shape2(b, n0, n1) && Shape2(c, n0, n1)
    ensures Add2(Add2(a, b), c) == Add2(a, Add2(b, c))
  {
    var l := Add2(Add2(a, b), c);
    var r := Add2(a, Add2(b, c));
    Ext2(l, r, n0, n1);
  }

  /** The two halves of a boundary's fields: type-3 cells and type-2 edges. */
  datatype CellFields = CellFields(uc: Series3, vc: Series3, wc: Series3, T: Series3, S: Series3, h: Series2)

  datatype EdgeFields = EdgeFields(
    boundary_h: Series2,
    boundary_u: Series3, boundary_v: Series3, boundary_w: Series3,
    boundary_T: Series3, boundary_S: Series3)

  /** Every boundary field: type-3, type-2 and the per-segment flux `boundary_Q`. */
  datatype StoreData = StoreData(cells: CellFields, edges: EdgeFields, boundary_Q: Series2)

  predicate CellsShaped(c: CellFields, nt: nat, nk: nat, n3: nat) {
    && Shape3(c.uc, nt, nk, n3) && Shape3(c.vc, nt, nk, n3) && Shape3(c.wc, nt, nk, n3)
    && Shape3(c.T, nt, nk, n3) && Shape3(c.S, nt, nk, n3) && Shape2(c.h, nt, n3)
  }

  predicate EdgesShaped(e: EdgeFields, nt: nat, nk: nat, n2: nat) {
    && Shape2(e.boundary_h, nt, n2)
    && Shape3(e.boundary_u, nt, nk, n2) && Shape3(e.boundary_v, nt, nk, n2) && Shape3(e.boundary_w, nt, nk, n2)
    && Shape3(e.boundary_T, nt, nk, n2) && Shape3(e.boundary_S, nt, nk, n2)
  }

  /** The dimensions of a boundary: times, layers, type-2 edges, type-3 cells and flux segments. */
  datatype Dims = Dims(Nt: nat, Nk: nat, N2: nat, N3: nat, Nseg: nat)

  predicate StoreShaped(s: StoreData, d: Dims) {
    CellsShaped(s.cells, d.Nt, d.Nk, d.N3) && EdgesShaped(s.edges, d.Nt, d.Nk, d.N2) && Shape2(s.boundary_Q, d.Nt, d.Nseg)
  }

  function ZeroCells(nt: nat, nk: nat, n3: nat): (c: CellFields)
    ensures CellsShaped(c, nt, nk, n3)
  {
    var z3 := Zeros3(nt, nk, n3);
    CellFields(z3, z3, z3, z3, z3, Zeros2(nt, n3))
  }

  function ZeroEdges(nt: nat, nk: nat, n2: nat): (e: EdgeFields)
    ensures EdgesShaped(e, nt, nk, n2)
  {
    var z3 := Zeros3(nt, nk, n2);
    EdgeFields(Zeros2(nt, n2), z3, z3, z3, z3, z3)
  }

  /** `initArrays`: every field zero, type-2 fields over N2 points, type-3 over N3, the flux over Nseg. */
  function ZeroStore(d: Dims): (s: StoreData)
    ensures StoreShaped(s, d)
  {
    StoreData(ZeroCells(d.Nt, d.Nk, d.N3), ZeroEdges(d.Nt, d.Nk, d.N2), Zeros2(d.Nt, d.Nseg))
  }

  /** Type-3 fields over no points are the zero-width arrays of their shape. */
  lemma NoCells(c: CellFields, nt: nat, nk: nat)
    requires CellsShaped(c, nt, nk, 0)
    ensures c == ZeroCells(nt, nk, 0)
  {
    EmptyPoints3(c.uc, nt, nk); EmptyPoints3(c.vc, nt, nk); EmptyPoints3(c.wc, nt, nk);
    EmptyPoints3(c.T, nt, nk); EmptyPoints3(c.S, nt, nk); EmptyPoints2(c.h, nt);
  }

  lemma NoEdges(e: EdgeFields, nt: nat, nk: nat)
    requires EdgesShaped(e, nt, nk, 0)
    ensures e == ZeroEdges(nt, nk, 0)
  {
    EmptyPoints2(e.boundary_h, nt);
    EmptyPoints3(e.boundary_u, nt, nk); EmptyPoints3(e.boundary_v, nt, nk); EmptyPoints3(e.boundary_w, nt, nk);
    EmptyPoints3(e.boundary_T, nt, nk); EmptyPoints3(e.boundary_S, nt, nk);
  }
}
