/**
 * The boundary field arrays as mutable buffers, and the whole-array updates the
 * source applies to them: `a += b` and `a[:] = b` over a whole array, and the
 * per-layer and per-column updates `a[:, k, :] += U` and `h[:, ii] += r` that
 * the tidal sources run in loops.  Every update is proved to leave the array
 * equal to the corresponding operation of module Fields on its old snapshot.
 */
module FieldStores {
  import opened Fields

  /** `a += b` for a [time][layer][point] array. */
  method AddInto3(a: array3<real>, b: Series3)
    requires Shape3(b, a.Length0, a.Length1, a.Length2)
    modifies a
    ensures Snap3(a) == Add3(old(Snap3(a)), b)
  {
    ghost var a0 := Snap3(a);
    forall t, k, j | 0 <= t < a.Length0 && 0 <= k < a.Length1 && 0 <= j < a.Length2 {
      a[t, k, j] := a[t, k, j] + b[t][k][j];
    }
    ghost var r := Add3(a0, b);
    forall t, k, j | 0 <= t < a.Length0 && 0 <= k < a.Length1 && 0 <= j < a.Length2
      ensures Snap3(a)[t][k][j] == r[t][k][j]
    {
      assert r[t] == Add2(a0[t], b[t]);
    }
    Ext3(Snap3(a), r, a.Length0, a.Length1, a.Length2);
  }

  /** `a += b` for a [time][point] array. */
  method AddInto2(a: array2<real>, b: Series2)
    requires Shape2(b, a.Length0, a.Length1)
    modifies a
    ensures Snap2(a) == Add2(old(Snap2(a)), b)
  {
    ghost var a0 := Snap2(a);
    forall t, j | 0 <= t < a.Length0 && 0 <= j < a.Length1 {
      a[t, j] := a[t, j] + b[t][j];
    }
    Ext2(Snap2(a), Add2(a0, b), a.Length0, a.Length1);
  }

  /** `a[:] = b`: the whole array is overwritten. */
  method Overwrite3(a: array3<real>, b: Series3)
    requires Shape3(b, a.Length0, a.Length1, a.Length2)
    modifies a
    ensures Snap3(a) == b
  {
    forall t, k, j | 0 <= t < a.Length0 && 0 <= k < a.Length1 && 0 <= j < a.Length2 {
      a[t, k, j] := b[t][k][j];
    }
    Ext3(Snap3(a), b, a.Length0, a.Length1, a.Length2);
  }

  /** `a[:] = b` for a [time][point] array. */
  method Overwrite2(a: array2<real>, b: Series2)
    requires Shape2(b, a.Length0, a.Length1)
    modifies a
    ensures Snap2(a) == b
  {
    forall t, j | 0 <= t < a.Length0 && 0 <= j < a.Length1 {
      a[t, j] := b[t][j];
    }
    Ext2(Snap2(a), b, a.Length0, a.Length1);
  }

  /**
   * `for k in range(Nk): a[:, k, :] += u; b[:, k, :] += v`: the same barotropic
   * [time][point] increments are added to every layer of two distinct arrays of one shape.
   */
  method AddEveryLayer(a: array3<real>, b: array3<real>, u: Series2, v: Series2)
    requires a != b
    requires a.Length0 == b.Length0 && a.Length1 == b.Length1 && a.Length2 == b.Length2
    requires Shape2(u, a.Length0, a.Length2) && Shape2(v, a.Length0, a.Length2)
    modifies a, b
    ensures Snap3(a) == Add3(old(Snap3(a)), Replicate(u, a.Length1))
    ensures Snap3(b) == Add3(old(Snap3(b)), Replicate(v, a.Length1))
  {
    ghost var a0, b0 := Snap3(a), Snap3(b);
    for k := 0 to a.Length1
      invariant forall t, l, j | 0 <= t < a.Length0 && 0 <= l < a.Length1 && 0 <= j < a.Length2 ::
        a[t, l, j] == a0[t][l][j] + (if l < k then u[t][j] else 0.0)
      invariant forall t, l, j | 0 <= t < a.Length0 && 0 <= l < a.Length1 && 0 <= j < a.Length2 ::
        b[t, l, j] == b0[t][l][j] + (if l < k then v[t][j] else 0.0)
    {
      AddToLayer(a, k, u);
      AddToLayer(b, k, v);
    }
    LayersAdded(Snap3(a), a0, u, a.Length0, a.Length1, a.Length2);
    LayersAdded(Snap3(b), b0, v, a.Length0, a.Length1, a.Length2);
  }

  /** `a[:, k, :] += u`: layer `k` gains `u`, every other layer stays as it was. */
  method AddToLayer(a: array3<real>, k: nat, u: Series2)
    requires k < a.Length1 && Shape2(u, a.Length0, a.Length2)
    modifies a
    ensures forall t, l, j | 0 <= t < a.Length0 && 0 <= l < a.Length1 && 0 <= j < a.Length2 ::
      a[t, l, j] == old(a[t, l, j]) + (if l == k then u[t][j] else 0.0)
  {
    forall t, j | 0 <= t < a.Length0 && 0 <= j < a.Length2 {
      a[t, k, j] := a[t, k, j] + u[t][j];
    }
  }

  /** An array that holds `a0` plus `u` in every layer is `a0` plus `u` replicated over the layers. */
  lemma LayersAdded(r: Series3, a0: Series3, u: Series2, n0: nat, n1: nat, n2: nat)
    requires Shape3(r, n0, n1, n2) && Shape3(a0, n0, n1, n2) && Shape2(u, n0, n2)
    requires forall t, l, j | 0 <= t < n0 && 0 <= l < n1 && 0 <= j < n2 :: r[t][l][j] == a0[t][l][j] + u[t][j]
    ensures r == Add3(a0, Replicate(u, n1))
  {
    var rep := Replicate(u, n1);
    assert Shape3(rep, n0, n1, n2);
    var s := Add3(a0, rep);
    forall t, l, j | 0 <= t < n0 && 0 <= l < n1 && 0 <= j < n2 ensures r[t][l][j] == s[t][l][j] {
      assert s[t] == Add2(a0[t], rep[t]);
    }
    Ext3(r, s, n0, n1, n2);
  }

  /** `for ii in range(n): h[:, ii] += r`: the per-instant series `r` is added to every column. */
  method AddToEveryColumn(h: array2<real>, r: seq<real>)
    requires |r| == h.Length0
    modifies h
    ensures Snap2(h) == AddToColumns(old(Snap2(h)), r)
  {
    ghost var h0 := Snap2(h);
    for ii := 0 to h.Length1
      invariant forall t, j | 0 <= t < h.Length0 && 0 <= j < h.Length1 ::
        h[t, j] == h0[t][j] + (if j < ii then r[t] else 0.0)
    {
      forall t | 0 <= t < h.Length0 {
        h[t, ii] := h[t, ii] + r[t];
      }
    }
    Ext2(Snap2(h), AddToColumns(h0, r), h.Length0, h.Length1);
  }

  /** A fresh [n0][n1][n2] array holding `a`. */
  method NewArray3(a: Series3, n0: nat, n1: nat, n2: nat) returns (r: array3<real>)
    requires Shape3(a, n0, n1, n2)
    ensures fresh(r) && r.Length0 == n0 && r.Length1 == n1 && r.Length2 == n2
    ensures Snap3(r) == a
  {
    r := new real[n0, n1, n2]((t, k, j) requires 0 <= t < n0 && 0 <= k < n1 && 0 <= j < n2 => a[t][k][j]);
    Ext3(Snap3(r), a, n0, n1, n2);
  }

  /** A fresh [n0][n1] array holding `a`. */
  method NewArray2(a: Series2, n0: nat, n1: nat) returns (r: array2<real>)
    requires Shape2(a, n0, n1)
    ensures fresh(r) && r.Length0 == n0 && r.Length1 == n1
    ensures Snap2(r) == a
  {
    r := new real[n0, n1]((t, j) requires 0 <= t < n0 && 0 <= j < n1 => a[t][j]);
    Ext2(Snap2(r), a, n0, n1);
  }

  predicate Dims3(a: array3<real>, n0: nat, n1: nat, n2: nat) {
    a.Length0 == n0 && a.Length1 == n1 && a.Length2 == n2
  }

  predicate Dims2(a: array2<real>, n0: nat, n1: nat) {
    a.Length0 == n0 && a.Length1 == n1
  }

  /** The boundary field arrays: type-3 fields over N3 cells, type-2 fields over N2 edges, the flux over Nseg segments. */
  class FieldStore {
    const uc: array3<real>
    const vc: array3<real>
    const wc: array3<real>
    const T: array3<real>
    const S: array3<real>
    const h: array2<real>
    const boundary_h: array2<real>
    const boundary_u: array3<real>
    const boundary_v: array3<real>
    const boundary_w: array3<real>
    const boundary_T: array3<real>
    const boundary_S: array3<real>
    const boundary_Q: array2<real>
    /** the sizes the arrays were allocated with */
    const dims: Dims

    /** Every array has the shape `initArrays` gives it, and no two arrays are the same object. */
    ghost predicate Valid() {
      var d := dims;
      && Dims3(uc, d.Nt, d.Nk, d.N3) && Dims3(vc, d.Nt, d.Nk, d.N3) && Dims3(wc, d.Nt, d.Nk, d.N3)
      && Dims3(T, d.Nt, d.Nk, d.N3) && Dims3(S, d.Nt, d.Nk, d.N3) && Dims2(h, d.Nt, d.N3)
      && Dims2(boundary_h, d.Nt, d.N2)
      && Dims3(boundary_u, d.Nt, d.Nk, d.N2) && Dims3(boundary_v, d.Nt, d.Nk, d.N2)
      && Dims3(boundary_w, d.Nt, d.Nk, d.N2) && Dims3(boundary_T, d.Nt, d.Nk, d.N2)
      && Dims3(boundary_S, d.Nt, d.Nk, d.N2)
      && Dims2(boundary_Q, d.Nt, d.Nseg)
      && Distinct()
    }

    ghost predicate Distinct() {
      && uc != vc && uc != wc && uc != T && uc != S && uc != boundary_u && uc != boundary_v
      && uc != boundary_w && uc != boundary_T && uc != boundary_S && vc != wc && vc != T && vc != S
      && vc != boundary_u && vc != boundary_v && vc != boundary_w && vc != boundary_T && vc != boundary_S
      && wc != T && wc != S && wc != boundary_u && wc != boundary_v && wc != boundary_w && wc != boundary_T
      && wc != boundary_S && T != S && T != boundary_u && T != boundary_v && T != boundary_w
      && T != boundary_T && T != boundary_S && S != boundary_u && S != boundary_v && S != boundary_w
      && S != boundary_T && S != boundary_S && boundary_u != boundary_v && boundary_u != boundary_w
      && boundary_u != boundary_T && boundary_u != boundary_S && boundary_v != boundary_w
      && boundary_v != boundary_T && boundary_v != boundary_S && boundary_w != boundary_T
      && boundary_w != boundary_S && boundary_T != boundary_S && h != boundary_h && h != boundary_Q
      && boundary_h != boundary_Q
    }

    /** The arrays of the store. */
    function Arrays(): set<object> {
      {uc, vc, wc, T, S, h, boundary_h, boundary_u, boundary_v, boundary_w, boundary_T, boundary_S, boundary_Q}
    }

    /** The contents of every array. */
    function Snapshot(): StoreData
      reads Arrays()
    {
      StoreData(
        CellFields(Snap3(uc), Snap3(vc), Snap3(wc), Snap3(T), Snap3(S), Snap2(h)),
        EdgeFields(Snap2(boundary_h), Snap3(boundary_u), Snap3(boundary_v), Snap3(boundary_w),
          Snap3(boundary_T), Snap3(boundary_S)),
        Snap2(boundary_Q))
    }

    /** A valid store holds arrays of the shapes it declares. */
    lemma Shaped()
      requires Valid()
      ensures StoreShaped(Snapshot(), dims)
    {
    }

    /** A store holding exactly `s`, in fresh arrays. */
    constructor Load(s: StoreData, d: Dims)
      requires StoreShaped(s, d)
      ensures Valid() && dims == d && Snapshot() == s
      ensures fresh(uc) && fresh(vc) && fresh(wc) && fresh(T) && fresh(S) && fresh(h)
      ensures fresh(boundary_h) && fresh(boundary_u) && fresh(boundary_v) && fresh(boundary_w)
      ensures fresh(boundary_T) && fresh(boundary_S) && fresh(boundary_Q)
    {
      var c, e := s.cells, s.edges;
      var uc' := NewArray3(c.uc, d.Nt, d.Nk, d.N3);
      var vc' := NewArray3(c.vc, d.Nt, d.Nk, d.N3);
      var wc' := NewArray3(c.wc, d.Nt, d.Nk, d.N3);
      var T' := NewArray3(c.T, d.Nt, d.Nk, d.N3);
      var S' := NewArray3(c.S, d.Nt, d.Nk, d.N3);
      var h' := NewArray2(c.h, d.Nt, d.N3);
      var bh := NewArray2(e.boundary_h, d.Nt, d.N2);
      var bu := NewArray3(e.boundary_u, d.Nt, d.Nk, d.N2);
      var bv := NewArray3(e.boundary_v, d.Nt, d.Nk, d.N2);
      var bw := NewArray3(e.boundary_w, d.Nt, d.Nk, d.N2);
      var bT := NewArray3(e.boundary_T, d.Nt, d.Nk, d.N2);
      var bS := NewArray3(e.boundary_S, d.Nt, d.Nk, d.N2);
      var bQ := NewArray2(s.boundary_Q, d.Nt, d.Nseg);
      uc, vc, wc, T, S, h := uc', vc', wc', T', S', h';
      boundary_h, boundary_u, boundary_v, boundary_w, boundary_T, boundary_S := bh, bu, bv, bw, bT, bS;
      boundary_Q, dims := bQ, d;
    }
  }
}
