/**
 * Boundary topology of a mesh: which edges carry a type-2 (flux) condition,
 * which cells carry a type-3 (value) condition, and how type-2 edges are grouped
 * into flux segments.  These are the selections that `Boundary._loadBoundary`
 * makes with `argwhere` and `unique`; the two loops it runs are methods in
 * module Boundaries, proved against the functions here.
 */
module Topology {
  import opened Wrappers

  predicate StrictlyIncreasing(s: seq<int>) {
    forall i, j | 0 <= i < j < |s| :: s[i] < s[j]
  }

  /** Number of edges whose marker is `v`. */
  function Count(mark: seq<int>, v: int): nat {
    if |mark| == 0 then 0
    else Count(mark[..|mark| - 1], v) + (if mark[|mark| - 1] == v then 1 else 0)
  }

  /** `argwhere(mark == v)`: the indices whose marker is `v`, in mesh order. */
  function EdgesMarked(mark: seq<int>, v: int): (r: seq<int>)
    ensures StrictlyIncreasing(r)
    ensures forall e :: e in r <==> 0 <= e < |mark| && mark[e] == v
    ensures forall k | 0 <= k < |r| :: 0 <= r[k] < |mark| && mark[r[k]] == v
    ensures |r| == Count(mark, v)
  {
    if |mark| == 0 then []
    else
      var r0 := EdgesMarked(mark[..|mark| - 1], v);
      assert forall i | 0 <= i < |r0| :: r0[i] < |mark| - 1 by {
        forall i | 0 <= i < |r0| ensures r0[i] < |mark| - 1 {
          assert r0[i] in r0;
        }
      }
      if mark[|mark| - 1] == v then r0 + [|mark| - 1] else r0
  }

  /**
   * The cell a type-3 edge contributes: if the first adjacency is missing the
   * second one (even if it is missing too), else if the second is missing the
   * first one, and nothing when both adjacencies are cells.
   */
  function OpenSide(c1: int, c2: int): Option<int> {
    if c1 == -1 then Some(c2)
    else if c2 == -1 then Some(c1)
    else None
  }

  predicate IndicesIn(ind: seq<int>, n: nat) {
    forall k | 0 <= k < |ind| :: 0 <= ind[k] < n
  }

  /** The cells collected from the type-3 edges `ind`, in edge order, before de-duplication. */
  function OpenCells(adj: seq<(int, int)>, ind: seq<int>): (r: seq<int>)
    requires IndicesIn(ind, |adj|)
    ensures |r| <= |ind|
  {
    if |ind| == 0 then []
    else
      var r0 := OpenCells(adj, ind[..|ind| - 1]);
      var e := ind[|ind| - 1];
      match OpenSide(adj[e].0, adj[e].1)
      case Some(c) => r0 + [c]
      case None => r0
  }

  /** A cell is collected exactly when some listed edge contributes it. */
  lemma {:induction false} OpenCellsMembers(adj: seq<(int, int)>, ind: seq<int>)
    requires IndicesIn(ind, |adj|)
    ensures forall c :: c in OpenCells(adj, ind) <==>
      exists k :: 0 <= k < |ind| && OpenSide(adj[ind[k]].0, adj[ind[k]].1) == Some(c)
  {
    if |ind| > 0 {
      var pre := ind[..|ind| - 1];
      OpenCellsMembers(adj, pre);
      forall c ensures c in OpenCells(adj, ind) <==>
        exists k :: 0 <= k < |ind| && OpenSide(adj[ind[k]].0, adj[ind[k]].1) == Some(c)
      {
        if c in OpenCells(adj, pre) {
          var k :| 0 <= k < |pre| && OpenSide(adj[pre[k]].0, adj[pre[k]].1) == Some(c);
          assert ind[k] == pre[k];
        }
        if exists k :: 0 <= k < |ind| && OpenSide(adj[ind[k]].0, adj[ind[k]].1) == Some(c) {
          var k :| 0 <= k < |ind| && OpenSide(adj[ind[k]].0, adj[ind[k]].1) == Some(c);
          if k < |pre| {
            assert pre[k] == ind[k];
          }
        }
      }
    }
  }

  /** Insert `x` into a strictly increasing sequence, keeping it strictly increasing. */
  function Insert(x: int, s: seq<int>): (r: seq<int>)
    requires StrictlyIncreasing(s)
    ensures StrictlyIncreasing(r)
    ensures forall y :: y in r <==> y == x || y in s
    ensures |r| <= |s| + 1
  {
    if |s| == 0 then [x]
    else if x < s[0] then [x] + s
    else if x == s[0] then s
    else
      var t := Insert(x, s[1..]);
      assert forall i | 0 <= i < |t| :: s[0] < t[i] by {
        forall i | 0 <= i < |t| ensures s[0] < t[i] {
          assert t[i] in t;
          if t[i] != x {
            assert t[i] in s[1..];
          }
        }
      }
      [s[0]] + t
  }

  /** `numpy.unique`: the distinct values of `s` in increasing order. */
  function SortedUnique(s: seq<int>): (r: seq<int>)
    ensures StrictlyIncreasing(r)
    ensures forall y :: y in r <==> y in s
    ensures |r| <= |s|
  {
    if |s| == 0 then []
    else
      var r0 := SortedUnique(s[..|s| - 1]);
      assert forall y :: y in s <==> y in s[..|s| - 1] || y == s[|s| - 1] by {
        assert s == s[..|s| - 1] + [s[|s| - 1]];
      }
      Insert(s[|s| - 1], r0)
  }

  /** Two strictly increasing sequences with the same elements are equal. */
  lemma {:induction false} StrictlyIncreasingUnique(a: seq<int>, b: seq<int>)
    requires StrictlyIncreasing(a) && StrictlyIncreasing(b)
    requires forall y :: y in a <==> y in b
    ensures a == b
  {
    if |a| > 0 || |b| > 0 {
      var x := if |a| > 0 then a[0] else b[0];
      assert x in a && x in b;
      assert a[0] in a && a[0] in b;
      assert b[0] in b && b[0] in a;
      forall y ensures y in a[1..] <==> y in b[1..] {
        if y in a[1..] {
          assert y in b;
          assert y != b[0];
        }
        if y in b[1..] {
          assert y in a;
          assert y != a[0];
        }
      }
      StrictlyIncreasingUnique(a[1..], b[1..]);
      assert a == [a[0]] + a[1..];
      assert b == [b[0]] + b[1..];
    }
  }

  /** The positive segment tags, in edge order. */
  function PositiveIds(ids: seq<int>): (r: seq<int>)
    ensures forall x :: x in r <==> x > 0 && x in ids
  {
    if |ids| == 0 then []
    else
      var r0 := PositiveIds(ids[..|ids| - 1]);
      assert ids == ids[..|ids| - 1] + [ids[|ids| - 1]];
      if ids[|ids| - 1] > 0 then r0 + [ids[|ids| - 1]] else r0
  }

  /** The boundary topology the resolver builds. */
  datatype Topo = Topo(
    edgep: seq<int>,     // type-2 edges, in mesh order
    cellp: seq<int>,     // type-3 cells, sorted and unique
    segp: seq<int>,      // flux segment ids, sorted and unique
    segedgep: seq<int>,  // segment id of every type-2 edge, or 0
    N2: nat, N3: nat, Nseg: nat)

  /**
   * The topology of a mesh with markers `mark`, adjacency `adj` and segment tags
   * `ids`: type-2 edges in mesh order, the sorted unique open-side cells of the
   * type-3 edges, and (when there are type-2 edges) the sorted unique positive tags
   * of all edges and each type-2 edge's tag.  `ResolveSpec` characterises it.
   */
  function Resolve(mark: seq<int>, adj: seq<(int, int)>, ids: seq<int>): (t: Topo)
    requires |adj| == |mark| == |ids|
  {
    var edgep := EdgesMarked(mark, 2);
    var cellp := SortedUnique(OpenCells(adj, EdgesMarked(mark, 3)));
    if |edgep| > 0 then
      var segp := SortedUnique(PositiveIds(ids));
      var segedgep := seq(|edgep|, n requires 0 <= n < |edgep| =>
        if ids[edgep[n]] > 0 then ids[edgep[n]] else 0);
      Topo(edgep, cellp, segp, segedgep, |edgep|, |cellp|, |segp|)
    else
      Topo(edgep, cellp, [], [], 0, |cellp|, 0)
  }

  /** What `_loadBoundary` promises of the topology it builds. */
  lemma ResolveSpec(mark: seq<int>, adj: seq<(int, int)>, ids: seq<int>)
    requires |adj| == |mark| == |ids|
    ensures var t := Resolve(mark, adj, ids);
      // type-2 edges
      && StrictlyIncreasing(t.edgep) && t.N2 == |t.edgep| == Count(mark, 2)
      && (forall e :: e in t.edgep <==> 0 <= e < |mark| && mark[e] == 2)
      // type-3 cells
      && StrictlyIncreasing(t.cellp) && t.N3 == |t.cellp| <= Count(mark, 3)
      && (forall c :: c in t.cellp <==>
            exists e :: 0 <= e < |mark| && mark[e] == 3 && OpenSide(adj[e].0, adj[e].1) == Some(c))
      // flux segments: taken over every edge with a positive tag, not only type-2 edges
      && StrictlyIncreasing(t.segp) && t.Nseg == |t.segp|
      && (t.N2 == 0 ==> t.Nseg == 0 && t.segp == [] && t.segedgep == [])
      && (t.N2 > 0 ==> forall x :: x in t.segp <==> x > 0 && x in ids)
      && (t.N2 > 0 ==> |t.segedgep| == t.N2)
      && (t.N2 > 0 ==> forall n | 0 <= n < t.N2 ::
            0 <= t.edgep[n] < |ids| && t.segedgep[n] == (if ids[t.edgep[n]] > 0 then ids[t.edgep[n]] else 0))
  {
    var ind3 := EdgesMarked(mark, 3);
    var cellp := SortedUnique(OpenCells(adj, ind3));
    OpenCellsMembers(adj, ind3);
    forall c ensures c in cellp <==>
      exists e :: 0 <= e < |mark| && mark[e] == 3 && OpenSide(adj[e].0, adj[e].1) == Some(c)
    {
      if c in cellp {
        var k :| 0 <= k < |ind3| && OpenSide(adj[ind3[k]].0, adj[ind3[k]].1) == Some(c);
        assert ind3[k] in ind3;
      }
      if exists e :: 0 <= e < |mark| && mark[e] == 3 && OpenSide(adj[e].0, adj[e].1) == Some(c) {
        var e :| 0 <= e < |mark| && mark[e] == 3 && OpenSide(adj[e].0, adj[e].1) == Some(c);
        assert e in ind3;
        var k :| 0 <= k < |ind3| && ind3[k] == e;
        assert OpenSide(adj[ind3[k]].0, adj[ind3[k]].1) == Some(c);
      }
    }
  }

  /** Every collected cell is an adjacency entry of the mesh, so lies in [-1, Nc). */
  lemma {:induction false} OpenCellsRange(adj: seq<(int, int)>, ind: seq<int>, Nc: int)
    requires IndicesIn(ind, |adj|)
    requires forall e | 0 <= e < |adj| :: -1 <= adj[e].0 < Nc && -1 <= adj[e].1 < Nc
    ensures forall k | 0 <= k < |OpenCells(adj, ind)| :: -1 <= OpenCells(adj, ind)[k] < Nc
  {
    if |ind| > 0 {
      OpenCellsRange(adj, ind[..|ind| - 1], Nc);
    }
  }

  /** The de-duplicated type-3 cells are adjacency entries of the mesh, so lie in [-1, Nc). */
  lemma CellsInRange(adj: seq<(int, int)>, ind: seq<int>, Nc: int)
    requires IndicesIn(ind, |adj|)
    requires forall e | 0 <= e < |adj| :: -1 <= adj[e].0 < Nc && -1 <= adj[e].1 < Nc
    ensures forall k | 0 <= k < |SortedUnique(OpenCells(adj, ind))| :: -1 <= SortedUnique(OpenCells(adj, ind))[k] < Nc
  {
    var cells := OpenCells(adj, ind);
    var cp := SortedUnique(cells);
    OpenCellsRange(adj, ind, Nc);
    forall k | 0 <= k < |cp| ensures -1 <= cp[k] < Nc {
      assert cp[k] in cells;
    }
  }

  /** Resolving the same mesh twice gives the same topology, whatever sequence of steps computed it. */
  lemma ResolveDeterministic(mark: seq<int>, adj: seq<(int, int)>, ids: seq<int>, cellp: seq<int>)
    requires |adj| == |mark| == |ids|
    requires StrictlyIncreasing(cellp)
    requires forall c :: c in cellp <==>
      exists e :: 0 <= e < |mark| && mark[e] == 3 && OpenSide(adj[e].0, adj[e].1) == Some(c)
    ensures cellp == Resolve(mark, adj, ids).cellp
  {
    var t := Resolve(mark, adj, ids);
    ResolveSpec(mark, adj, ids);
    StrictlyIncreasingUnique(cellp, t.cellp);
  }
}
