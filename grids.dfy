/**
 * The computational mesh as the boundary tools see it: per-edge markers, per-edge
 * segment tags, the two cells adjacent to every edge (-1 meaning "no cell"), node
 * and cell-centre coordinates and the vertical layer depths.  Reading the mesh
 * from disk and writing `edges.dat` back are outside the model; the mesh is an
 * input object whose arrays are updated in place.
 */
module Grids {

  /** A polygon read from a shapefile, as its vertex list. */
  datatype Polygon = Polygon(vertices: seq<(real, real)>)

  /** `i` is a valid Python index into a sequence of length `n` (negative indices count from the end). */
  predicate PyIndexOk(n: nat, i: int) {
    -(n as int) <= i < n
  }

  /** Python indexing `s[i]`, where `s[-1]` is the last element. */
  function PyAt<T>(s: seq<T>, i: int): (x: T)
    requires PyIndexOk(|s|, i)
    ensures i >= 0 ==> x == s[i]
    ensures i < 0 ==> x == s[|s| + i]
  {
    if i < 0 then s[|s| + i] else s[i]
  }

  /** Fancy indexing `s[ind]`: the elements of `s` at the (Python) indices `ind`, in order. */
  function Gather<T>(s: seq<T>, ind: seq<int>): (r: seq<T>)
    requires forall k | 0 <= k < |ind| :: PyIndexOk(|s|, ind[k])
    ensures |r| == |ind|
    ensures forall k | 0 <= k < |ind| :: r[k] == PyAt(s, ind[k])
  {
    seq(|ind|, k requires 0 <= k < |ind| => PyAt(s, ind[k]))
  }

  function Firsts(s: seq<(real, real)>): (r: seq<real>)
    ensures |r| == |s| && forall k | 0 <= k < |s| :: r[k] == s[k].0
  {
    seq(|s|, k requires 0 <= k < |s| => s[k].0)
  }

  function Seconds(s: seq<(real, real)>): (r: seq<real>)
    ensures |r| == |s| && forall k | 0 <= k < |s| :: r[k] == s[k].1
  {
    seq(|s|, k requires 0 <= k < |s| => s[k].1)
  }

  class Grid {
    /** number of cells */
    const Nc: nat
    /** number of vertical layers */
    const Nkmax: nat
    /** node coordinates */
    const xp: seq<real>
    const yp: seq<real>
    /** the two end nodes of every edge */
    const edges: seq<(int, int)>
    /** cell-centre coordinates */
    const xv: seq<real>
    const yv: seq<real>
    /** mid-layer depths */
    const zr: seq<real>
    /** boundary marker of every edge: 0 interior, 1 closed, 2 flux, 3 value, 4 flux with segment */
    const mark: array<int>
    /** the two cells adjacent to every edge, -1 for none */
    const grad: array2<int>
    /** segment tag of every edge (the marker editor replaces this array) */
    var edgeId: array<int>

    /** Shape facts that involve only immutable fields. */
    predicate Shape() {
      && mark.Length == |edges| == grad.Length0
      && grad.Length1 == 2
      && |xp| == |yp|
      && (forall e | 0 <= e < |edges| :: 0 <= edges[e].0 < |xp| && 0 <= edges[e].1 < |xp|)
      && Nc > 0 && |xv| == Nc && |yv| == Nc
      && |zr| == Nkmax
    }

    ghost predicate Valid()
      reads this, grad
    {
      && Shape()
      && edgeId.Length == mark.Length
      && edgeId != mark
      && forall e, i | 0 <= e < grad.Length0 && 0 <= i < 2 :: -1 <= grad[e, i] < Nc
    }

    /** number of edges */
    function Ne(): nat {
      mark.Length
    }

    /** The adjacency table as a value. */
    function Adj(): (adj: seq<(int, int)>)
      reads grad
      requires grad.Length1 == 2
      ensures |adj| == grad.Length0
      ensures forall e | 0 <= e < |adj| :: adj[e] == (grad[e, 0], grad[e, 1])
    {
      seq(grad.Length0, e requires 0 <= e < grad.Length0 reads grad => (grad[e, 0], grad[e, 1]))
    }

    /** Edge midpoints: the mean of the two end-node coordinates of every edge. */
    function EdgeMid(): (mid: seq<(real, real)>)
      requires Shape()
      ensures |mid| == |edges|
      ensures forall e | 0 <= e < |edges| ::
        mid[e] == ((xp[edges[e].0] + xp[edges[e].1]) / 2.0, (yp[edges[e].0] + yp[edges[e].1]) / 2.0)
    {
      seq(|edges|, e requires 0 <= e < |edges| =>
        ((xp[edges[e].0] + xp[edges[e].1]) / 2.0, (yp[edges[e].0] + yp[edges[e].1]) / 2.0))
    }

    /** A mesh built from its parts (the mesh files themselves are not modelled). */
    constructor (Nc: nat, Nkmax: nat, xp: seq<real>, yp: seq<real>, edges: seq<(int, int)>,
                 xv: seq<real>, yv: seq<real>, zr: seq<real>,
                 mark0: seq<int>, edgeId0: seq<int>, grad0: seq<(int, int)>)
      requires |mark0| == |edges| == |edgeId0| == |grad0|
      requires |xp| == |yp|
      requires forall e | 0 <= e < |edges| :: 0 <= edges[e].0 < |xp| && 0 <= edges[e].1 < |xp|
      requires Nc > 0 && |xv| == Nc && |yv| == Nc && |zr| == Nkmax
      requires forall e | 0 <= e < |grad0| :: -1 <= grad0[e].0 < Nc && -1 <= grad0[e].1 < Nc
      ensures Valid()
      ensures this.Nc == Nc && this.Nkmax == Nkmax && this.xp == xp && this.yp == yp
      ensures this.edges == edges && this.xv == xv && this.yv == yv && this.zr == zr
      ensures mark[..] == mark0 && edgeId[..] == edgeId0 && Adj() == grad0
      ensures fresh(mark) && fresh(edgeId) && fresh(grad)
    {
      this.Nc, this.Nkmax, this.xp, this.yp := Nc, Nkmax, xp, yp;
      this.edges, this.xv, this.yv, this.zr := edges, xv, yv, zr;
      mark := new int[|mark0|](i requires 0 <= i < |mark0| => mark0[i]);
      edgeId := new int[|edgeId0|](i requires 0 <= i < |edgeId0| => edgeId0[i]);
      grad := new int[|grad0|, 2]((e, i) requires 0 <= e < |grad0| => if i == 0 then grad0[e].0 else grad0[e].1);
      new;
      assert mark[..] == mark0;
      assert edgeId[..] == edgeId0;
    }
  }
}
