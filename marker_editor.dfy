/**
 * `modifyBCmarker`: re-marks the boundary edges of a mesh from the polygons of a
 * shapefile.  Every open edge is first closed (marker 1) and every segment tag
 * cleared; then each polygon in turn gives its marker to the still-open edges
 * whose midpoints it contains, a marker 4 becoming a flux edge (marker 2) tagged
 * with the polygon's segment id.  Reading the shapefile and writing `edges.dat`
 * are outside; what the two shapefile reads return arrives as an argument, and
 * the point-in-polygon test is a function parameter.
 */
module MarkerEditor {
  import opened Wrappers
  import opened Grids

  /** A polygon of the shapefile with the marker and the segment id it assigns. */
  datatype BCPolygon = BCPolygon(poly: Polygon, marker: int, segmentID: int)

  /** What the two reads of the shapefile return: polygons with their `marker` field, then with their `edge_id` field. */
  datatype ShapeRead = ShapeRead(markers: seq<(Polygon, int)>, edgeIds: seq<(Polygon, int)>)

  /** Why the editor stopped without changing the mesh. */
  datatype BCError = NoMarkerField | NoEdgeIdField

  /**
   * The polygons the loop walks: the source zips the polygons of the second read
   * with the markers of the first and the ids of the second, stopping at the shorter.
   */
  function Zipped(s: ShapeRead): (ps: seq<BCPolygon>)
    ensures |ps| == if |s.markers| < |s.edgeIds| then |s.markers| else |s.edgeIds|
    ensures forall i | 0 <= i < |ps| ::
      ps[i].poly == s.edgeIds[i].0 && ps[i].marker == s.markers[i].1 && ps[i].segmentID == s.edgeIds[i].1
  {
    var n := if |s.markers| < |s.edgeIds| then |s.markers| else |s.edgeIds|;
    seq(n, i requires 0 <= i < n => BCPolygon(s.edgeIds[i].0, s.markers[i].1, s.edgeIds[i].1))
  }

  /** The marker a polygon writes: 4 (flux with segment) is stored as 2. */
  function Written(marker: int): int {
    if marker == 4 then 2 else marker
  }

  /** Every open edge (marker above 0) becomes closed (marker 1); the others keep theirs. */
  function Reset(mark: seq<int>): (r: seq<int>)
    ensures |r| == |mark|
    ensures forall e | 0 <= e < |mark| :: (mark[e] > 0 ==> r[e] == 1) && (mark[e] <= 0 ==> r[e] == mark[e])
  {
    seq(|mark|, e requires 0 <= e < |mark| => if mark[e] > 0 then 1 else mark[e])
  }

  /** Edge `e` is one polygon `p` re-marks: still open, with its midpoint inside `p`. */
  predicate Hit(mark: seq<int>, mid: seq<(real, real)>, p: BCPolygon, inside: ((real, real), Polygon) -> bool, e: int)
    requires 0 <= e < |mark| == |mid|
  {
    mark[e] > 0 && inside(mid[e], p.poly)
  }

  /** One pass of the loop: the markers and segment tags after polygon `p`. */
  function Apply(mark: seq<int>, ids: seq<int>, mid: seq<(real, real)>, p: BCPolygon,
                 inside: ((real, real), Polygon) -> bool): (r: (seq<int>, seq<int>))
    requires |mark| == |ids| == |mid|
    ensures |r.0| == |r.1| == |mark|
  {
    (seq(|mark|, e requires 0 <= e < |mark| => if Hit(mark, mid, p, inside, e) then Written(p.marker) else mark[e]),
     seq(|mark|, e requires 0 <= e < |mark| =>
       if p.marker == 4 && Hit(mark, mid, p, inside, e) then p.segmentID else ids[e]))
  }

  /** The markers and segment tags after the polygons `ps`, applied in order. */
  function ApplyAll(mark: seq<int>, ids: seq<int>, mid: seq<(real, real)>, ps: seq<BCPolygon>,
                    inside: ((real, real), Polygon) -> bool): (r: (seq<int>, seq<int>))
    requires |mark| == |ids| == |mid|
    ensures |r.0| == |r.1| == |mark|
    decreases |ps|
  {
    if ps == [] then (mark, ids)
    else
      var prev := ApplyAll(mark, ids, mid, ps[..|ps| - 1], inside);
      Apply(prev.0, prev.1, mid, ps[|ps| - 1], inside)
  }

  /** The whole edit on the markers `mark`: reset, clear the tags, then apply the polygons. */
  function Edited(mark: seq<int>, mid: seq<(real, real)>, ps: seq<BCPolygon>,
                  inside: ((real, real), Polygon) -> bool): (r: (seq<int>, seq<int>))
    requires |mark| == |mid|
    ensures |r.0| == |r.1| == |mark|
  {
    ApplyAll(Reset(mark), seq(|mark|, _ => 0), mid, ps, inside)
  }

  /** Without polygons the edit closes every open edge and clears every tag, and nothing else. */
  lemma EditWithoutPolygons(mark: seq<int>, mid: seq<(real, real)>, inside: ((real, real), Polygon) -> bool)
    requires |mark| == |mid|
    ensures var r := Edited(mark, mid, [], inside);
      forall e | 0 <= e < |mark| :: r.0[e] == (if mark[e] > 0 then 1 else mark[e]) && r.1[e] == 0
  {
  }

  /** An edge that was not open before the edit (marker 0 or below) keeps its marker and ends untagged. */
  lemma EditKeepsClosedEdges(mark: seq<int>, mid: seq<(real, real)>, ps: seq<BCPolygon>,
                             inside: ((real, real), Polygon) -> bool)
    requires |mark| == |mid|
    ensures var r := Edited(mark, mid, ps, inside);
      forall e | 0 <= e < |mark| && mark[e] <= 0 :: r.0[e] == mark[e] && r.1[e] == 0
  {
    ClosedEdgesStay(Reset(mark), seq(|mark|, _ => 0), mid, ps, inside);
  }

  /**
   * Edges that are not open (marker 0 or below) are never re-marked, and no
   * polygon gives them a segment tag.
   */
  lemma {:induction false} ClosedEdgesStay(mark: seq<int>, ids: seq<int>, mid: seq<(real, real)>,
                                           ps: seq<BCPolygon>, inside: ((real, real), Polygon) -> bool)
    requires |mark| == |ids| == |mid|
    ensures var r := ApplyAll(mark, ids, mid, ps, inside);
      forall e | 0 <= e < |mark| && mark[e] <= 0 :: r.0[e] == mark[e] && r.1[e] == ids[e]
    decreases |ps|
  {
    if ps != [] {
      ClosedEdgesStay(mark, ids, mid, ps[..|ps| - 1], inside);
    }
  }

  /**
   * Every marker the polygons change is the (stored) marker of a polygon that
   * contains the edge's midpoint, and every segment tag they change is the id of
   * a marker-4 polygon that contains it.
   */
  lemma {:induction false} ChangesComeFromPolygons(mark: seq<int>, ids: seq<int>, mid: seq<(real, real)>,
                                                   ps: seq<BCPolygon>, inside: ((real, real), Polygon) -> bool)
    requires |mark| == |ids| == |mid|
    ensures var r := ApplyAll(mark, ids, mid, ps, inside);
      forall e | 0 <= e < |mark| ::
        && (r.0[e] != mark[e] ==> exists i :: 0 <= i < |ps| && inside(mid[e], ps[i].poly) && r.0[e] == Written(ps[i].marker))
        && (r.1[e] != ids[e] ==>
              exists i :: 0 <= i < |ps| && inside(mid[e], ps[i].poly) && ps[i].marker == 4 && r.1[e] == ps[i].segmentID)
    decreases |ps|
  {
    if ps != [] {
      var init := ps[..|ps| - 1];
      var last := |ps| - 1;
      ChangesComeFromPolygons(mark, ids, mid, init, inside);
      var prev := ApplyAll(mark, ids, mid, init, inside);
      var r := ApplyAll(mark, ids, mid, ps, inside);
      forall e | 0 <= e < |mark|
        ensures r.0[e] != mark[e] ==> exists i :: 0 <= i < |ps| && inside(mid[e], ps[i].poly) && r.0[e] == Written(ps[i].marker)
        ensures r.1[e] != ids[e] ==>
          exists i :: 0 <= i < |ps| && inside(mid[e], ps[i].poly) && ps[i].marker == 4 && r.1[e] == ps[i].segmentID
      {
        if r.0[e] != mark[e] {
          if Hit(prev.0, mid, ps[last], inside, e) {
            assert inside(mid[e], ps[last].poly) && r.0[e] == Written(ps[last].marker);
          } else {
            var i :| 0 <= i < |init| && inside(mid[e], init[i].poly) && prev.0[e] == Written(init[i].marker);
            assert ps[i] == init[i];
          }
        }
        if r.1[e] != ids[e] {
          if ps[last].marker == 4 && Hit(prev.0, mid, ps[last], inside, e) {
            assert inside(mid[e], ps[last].poly) && r.1[e] == ps[last].segmentID;
          } else {
            var i :| 0 <= i < |init| && inside(mid[e], init[i].poly) && init[i].marker == 4 && prev.1[e] == init[i].segmentID;
            assert ps[i] == init[i];
          }
        }
      }
    }
  }

  /**
   * A single marker-4 polygon with segment id `id` that contains every midpoint:
   * every open edge becomes a flux edge (marker 2) tagged `id`, and every other
   * edge keeps its marker with tag 0.
   */
  lemma OneFluxPolygon(mark: seq<int>, mid: seq<(real, real)>, poly: Polygon, id: int,
                       inside: ((real, real), Polygon) -> bool)
    requires |mark| == |mid|
    requires forall e | 0 <= e < |mid| :: inside(mid[e], poly)
    ensures var r := Edited(mark, mid, [BCPolygon(poly, 4, id)], inside);
      forall e | 0 <= e < |mark| ::
        && (mark[e] > 0 ==> r.0[e] == 2 && r.1[e] == id)
        && (mark[e] <= 0 ==> r.0[e] == mark[e] && r.1[e] == 0)
  {
    var ps := [BCPolygon(poly, 4, id)];
    var reset, tags := Reset(mark), seq(|mark|, _ => 0);
    assert ps[..0] == [];
    assert ApplyAll(reset, tags, mid, ps, inside) == Apply(reset, tags, mid, ps[0], inside);
    forall e | 0 <= e < |mark| ensures mark[e] > 0 ==> Hit(reset, mid, ps[0], inside, e) {
    }
  }

  /** A tag, once written, is overwritten only by another marker-4 polygon: no later polygon clears it. */
  lemma TagsNeverCleared(mark: seq<int>, ids: seq<int>, mid: seq<(real, real)>, p: BCPolygon,
                         inside: ((real, real), Polygon) -> bool)
    requires |mark| == |ids| == |mid|
    ensures var r := Apply(mark, ids, mid, p, inside);
      forall e | 0 <= e < |mark| && r.1[e] != ids[e] :: p.marker == 4 && r.1[e] == p.segmentID
  {
  }

  /**
   * One pass of the polygon loop of `modifyBCmarker` on the mesh `g`: the open
   * edges whose midpoints `p` contains take its marker, and with marker 4 its segment id.
   */
  method ApplyPolygon(g: Grid, mid: seq<(real, real)>, p: BCPolygon, inside: ((real, real), Polygon) -> bool)
    requires g.Valid() && |mid| == g.mark.Length
    modifies g.mark, g.edgeId
    ensures g.Valid() && g.edgeId == old(g.edgeId)
    ensures (g.mark[..], g.edgeId[..]) == Apply(old(g.mark[..]), old(g.edgeId[..]), mid, p, inside)
  {
    var mk, tags := g.mark, g.edgeId;
    ghost var m, t := mk[..], tags[..];
    ghost var after := Apply(m, t, mid, p, inside);
    if p.marker == 4 {
      forall e | 0 <= e < mk.Length && mk[e] > 0 && inside(mid[e], p.poly) {
        tags[e] := p.segmentID;
      }
    }
    assert tags[..] == after.1;
    forall e | 0 <= e < mk.Length && mk[e] > 0 && inside(mid[e], p.poly) {
      mk[e] := Written(p.marker);
    }
    assert tags[..] == after.1;
    assert mk[..] == after.0;
  }

  /**
   * `modifyBCmarker` on the mesh `g`.  With a shapefile (`read` is `Some`), an
   * empty `marker` read or an empty `edge_id` read stops the editor before it
   * changes anything.  Otherwise (or without a shapefile, when no polygon is
   * applied) the markers and a fresh segment-tag array hold `Edited`.
   */
  method ModifyBCMarker(g: Grid, read: Option<ShapeRead>, inside: ((real, real), Polygon) -> bool)
    returns (r: Result<(), BCError>)
    requires g.Valid()
    modifies g.mark, g`edgeId
    ensures g.Valid()
    ensures read.Some? && |read.value.markers| < 1 ==> r == Err(NoMarkerField)
    ensures read.Some? && |read.value.markers| >= 1 && |read.value.edgeIds| < 1 ==> r == Err(NoEdgeIdField)
    ensures r.Ok? <==> read.None? || (|read.value.markers| >= 1 && |read.value.edgeIds| >= 1)
    ensures r.Err? ==> g.mark[..] == old(g.mark[..]) && g.edgeId == old(g.edgeId)
    ensures r.Ok? ==> fresh(g.edgeId)
    ensures r.Ok? ==>
      var ps := if read.Some? then Zipped(read.value) else [];
      (g.mark[..], g.edgeId[..]) == Edited(old(g.mark[..]), g.EdgeMid(), ps, inside)
  {
    var ps: seq<BCPolygon> := [];
    if read.Some? {
      if |read.value.markers| < 1 {
        return Err(NoMarkerField);
      }
      if |read.value.edgeIds| < 1 {
        return Err(NoEdgeIdField);
      }
      ps := Zipped(read.value);
    }
    var mid := g.EdgeMid();
    ghost var mark0 := g.mark[..];
    forall e | 0 <= e < g.mark.Length && g.mark[e] > 0 {
      g.mark[e] := 1;
    }
    assert g.mark[..] == Reset(mark0);
    g.edgeId := new int[g.mark.Length](_ => 0);
    assert g.edgeId[..] == seq(|mark0|, _ => 0);
    for i := 0 to |ps|
      invariant g.Valid() && fresh(g.edgeId)
      invariant (g.mark[..], g.edgeId[..]) == ApplyAll(Reset(mark0), seq(|mark0|, _ => 0), mid, ps[..i], inside)
    {
      ApplyPolygon(g, mid, ps[i], inside);
      assert ps[..i + 1][..i] == ps[..i];
    }
    assert ps[..|ps|] == ps;
    r := Ok(());
  }
}
