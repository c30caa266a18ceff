/**
 * The SUNTANS initial-condition object `InitialCond`: one instant of the
 * velocity, temperature, salinity and free-surface fields over every cell of the
 * mesh, plus the age-tracer fields.  Interpolators and shapefile reading are
 * outside; their results arrive as method arguments, and the point-in-polygon
 * test is a function parameter.
 */
module InitialConditions {
  import opened Wrappers
  import opened Grids
  import opened Fields
  import opened FieldStores

  /** The arrays of an initial condition: [1][Nk][Nc] fields, a [1][Nc] free surface and a [Nk][Nc] age source. */
  datatype ICFields = ICFields(
    uc: Series3, vc: Series3, T: Series3, S: Series3, h: Series2,
    agec: Series3, agealpha: Series3, agesource: Series2)

  predicate ICShaped(f: ICFields, nk: nat, nc: nat) {
    && Shape3(f.uc, 1, nk, nc) && Shape3(f.vc, 1, nk, nc)
    && Shape3(f.T, 1, nk, nc) && Shape3(f.S, 1, nk, nc) && Shape2(f.h, 1, nc)
    && Shape3(f.agec, 1, nk, nc) && Shape3(f.agealpha, 1, nk, nc)
    && Shape2(f.agesource, nk, nc)
  }

  /** `initArrays`: every array zero (no vertical velocity is kept). */
  function ZeroIC(nk: nat, nc: nat): (f: ICFields)
    ensures ICShaped(f, nk, nc)
  {
    var z3 := Zeros3(1, nk, nc);
    ICFields(z3, z3, z3, z3, Zeros2(1, nc), z3, z3, Zeros2(nk, nc))
  }

  /** What a regional-model (ROMS) interpolation onto every cell returns. */
  datatype RomsICSample = RomsICSample(h: Series2, T: Series3, S: Series3, uc: Series3, vc: Series3)

  predicate RomsICShaped(src: RomsICSample, nk: nat, nc: nat) {
    && Shape2(src.h, 1, nc) && Shape3(src.T, 1, nk, nc) && Shape3(src.S, 1, nk, nc)
    && Shape3(src.uc, 1, nk, nc) && Shape3(src.vc, 1, nk, nc)
  }

  /**
   * `roms2ic`: the five fields are replaced by the interpolated ones, then the
   * velocities are zeroed unless `setUV` and the free surface unless `seth`.
   * The age fields are left alone.
   */
  function Roms2ICUpdate(f: ICFields, nk: nat, nc: nat, src: RomsICSample, setUV: bool, seth: bool): (r: ICFields)
    requires ICShaped(f, nk, nc) && RomsICShaped(src, nk, nc)
    ensures ICShaped(r, nk, nc)
  {
    f.(T := src.T, S := src.S,
       uc := if setUV then src.uc else Zeros3(1, nk, nc),
       vc := if setUV then src.vc else Zeros3(1, nk, nc),
       h := if seth then src.h else Zeros2(1, nc))
  }

  /**
   * The ROMS initial condition forgets what the fields held before: from any two
   * starting states it yields the same velocities, temperature, salinity and free
   * surface, and each state keeps its own age fields.
   */
  lemma Roms2ICForgets(f: ICFields, g: ICFields, nk: nat, nc: nat, src: RomsICSample, setUV: bool, seth: bool)
    requires ICShaped(f, nk, nc) && ICShaped(g, nk, nc) && RomsICShaped(src, nk, nc)
    ensures var rf, rg := Roms2ICUpdate(f, nk, nc, src, setUV, seth), Roms2ICUpdate(g, nk, nc, src, setUV, seth);
      && rf.uc == rg.uc && rf.vc == rg.vc && rf.T == rg.T && rf.S == rg.S && rf.h == rg.h
      && rf.agec == f.agec && rf.agealpha == f.agealpha && rf.agesource == f.agesource
  {
  }

  /** Without `setUV` the velocities are zero everywhere, and without `seth` so is the free surface. */
  lemma Roms2ICZeroes(f: ICFields, nk: nat, nc: nat, src: RomsICSample, setUV: bool, seth: bool)
    requires ICShaped(f, nk, nc) && RomsICShaped(src, nk, nc)
    ensures var r := Roms2ICUpdate(f, nk, nc, src, setUV, seth);
      && (!setUV ==> forall k, c | 0 <= k < nk && 0 <= c < nc :: r.uc[0][k][c] == 0.0 && r.vc[0][k][c] == 0.0)
      && (!seth ==> forall c | 0 <= c < nc :: r.h[0][c] == 0.0)
      && (setUV ==> r.uc == src.uc && r.vc == src.vc) && (seth ==> r.h == src.h)
  {
  }

  /** What a gridded-analysis (ocean model) interpolation onto every cell yields. */
  datatype OceanICSample = OceanICSample(T: Series3, S: Series3, ssh: Series2)

  predicate OceanICShaped(src: OceanICSample, nk: nat, nc: nat, seth: bool) {
    Shape3(src.T, 1, nk, nc) && Shape3(src.S, 1, nk, nc) && (seth ==> Shape2(src.ssh, 1, nc))
  }

  /**
   * `oceanmodel2ic`: temperature and salinity are overwritten, and with `seth` so
   * is the free surface.  Its `setUV` argument has no effect: velocities are kept.
   */
  function OceanICUpdate(f: ICFields, nk: nat, nc: nat, src: OceanICSample, seth: bool): (r: ICFields)
    requires ICShaped(f, nk, nc) && OceanICShaped(src, nk, nc, seth)
    ensures ICShaped(r, nk, nc)
  {
    f.(T := src.T, S := src.S, h := if seth then src.ssh else f.h)
  }

  /**
   * The ocean-model initial condition changes temperature, salinity and (with
   * `seth`) the free surface only, and applying it twice is applying it once.
   */
  lemma OceanICFrame(f: ICFields, nk: nat, nc: nat, src: OceanICSample, seth: bool)
    requires ICShaped(f, nk, nc) && OceanICShaped(src, nk, nc, seth)
    ensures var r := OceanICUpdate(f, nk, nc, src, seth);
      && r.uc == f.uc && r.vc == f.vc && r.agec == f.agec && r.agealpha == f.agealpha && r.agesource == f.agesource
      && r.T == src.T && r.S == src.S && r.h == (if seth then src.ssh else f.h)
      && OceanICUpdate(r, nk, nc, src, seth) == r
  {
  }

  /**
   * The age source after the polygons `polys` have been applied in order: every
   * layer of each cell whose centre a polygon contains becomes 1.
   */
  function MarkAgeSource(a: Series2, centres: seq<(real, real)>, polys: seq<Polygon>,
                         inside: ((real, real), Polygon) -> bool): (r: Series2)
    requires Shape2(a, |a|, |centres|)
    ensures Shape2(r, |a|, |centres|)
    decreases |polys|
  {
    if polys == [] then a
    else
      var prev := MarkAgeSource(a, centres, polys[..|polys| - 1], inside);
      var p := polys[|polys| - 1];
      seq(|a|, k requires 0 <= k < |a| =>
        seq(|centres|, c requires 0 <= c < |centres| => if inside(centres[c], p) then 1.0 else prev[k][c]))
  }

  /**
   * Applying the polygons in turn marks exactly the cells some polygon contains:
   * the order of the polygons does not matter, and unmarked cells keep their value.
   */
  lemma {:induction false} MarkAgeSourceSpec(a: Series2, centres: seq<(real, real)>, polys: seq<Polygon>,
                                             inside: ((real, real), Polygon) -> bool)
    requires Shape2(a, |a|, |centres|)
    ensures var r := MarkAgeSource(a, centres, polys, inside);
      forall k, c | 0 <= k < |a| && 0 <= c < |centres| ::
        r[k][c] == if exists i :: 0 <= i < |polys| && inside(centres[c], polys[i]) then 1.0 else a[k][c]
    decreases |polys|
  {
    if polys != [] {
      var init := polys[..|polys| - 1];
      MarkAgeSourceSpec(a, centres, init, inside);
      var r := MarkAgeSource(a, centres, polys, inside);
      forall k, c | 0 <= k < |a| && 0 <= c < |centres|
        ensures r[k][c] == if exists i :: 0 <= i < |polys| && inside(centres[c], polys[i]) then 1.0 else a[k][c]
      {
        if exists i :: 0 <= i < |init| && inside(centres[c], init[i]) {
          var i :| 0 <= i < |init| && inside(centres[c], init[i]);
          assert polys[i] == init[i];
        }
        if exists i :: 0 <= i < |polys| && inside(centres[c], polys[i]) {
          var i :| 0 <= i < |polys| && inside(centres[c], polys[i]);
          if i < |init| {
            assert init[i] == polys[i];
          }
        }
      }
    }
  }

  datatype ICError = NoPolygons

  class InitialCond {
    /** the mesh the initial condition lives on (the source derives the class from it) */
    const grd: Grid
    /** the instant, in seconds since 1970-01-01 */
    const time: int
    const uc: array3<real>
    const vc: array3<real>
    const T: array3<real>
    const S: array3<real>
    const h: array2<real>
    const agec: array3<real>
    const agealpha: array3<real>
    const agesource: array2<real>

    /** Every array has the shape `initArrays` gives it over the mesh, and no two arrays are the same object. */
    ghost predicate Valid() {
      var nk, nc := grd.Nkmax, grd.Nc;
      && Dims3(uc, 1, nk, nc) && Dims3(vc, 1, nk, nc) && Dims3(T, 1, nk, nc) && Dims3(S, 1, nk, nc)
      && Dims2(h, 1, nc) && Dims3(agec, 1, nk, nc) && Dims3(agealpha, 1, nk, nc) && Dims2(agesource, nk, nc)
      && uc != vc && uc != T && uc != S && uc != agec && uc != agealpha
      && vc != T && vc != S && vc != agec && vc != agealpha
      && T != S && T != agec && T != agealpha && S != agec && S != agealpha && agec != agealpha
      && h != agesource
    }

    function Arrays(): set<object> {
      {uc, vc, T, S, h, agec, agealpha, agesource}
    }

    /** The contents of every array. */
    function Snapshot(): ICFields
      reads Arrays()
    {
      ICFields(Snap3(uc), Snap3(vc), Snap3(T), Snap3(S), Snap2(h), Snap3(agec), Snap3(agealpha), Snap2(agesource))
    }

    /** The centre of every cell of the mesh. */
    function Centres(): (r: seq<(real, real)>)
      requires grd.Shape()
      ensures |r| == grd.Nc
      ensures forall c | 0 <= c < grd.Nc :: r[c] == (grd.xv[c], grd.yv[c])
    {
      seq(grd.Nc, c requires 0 <= c < grd.Nc => (grd.xv[c], grd.yv[c]))
    }

    /** `InitialCond(suntanspath, timestep)`: the mesh, the instant, and `initArrays`. */
    constructor (grd: Grid, time: int)
      ensures Valid() && this.grd == grd && this.time == time
      ensures Snapshot() == ZeroIC(grd.Nkmax, grd.Nc)
      ensures fresh(Arrays())
    {
      var nk, nc := grd.Nkmax, grd.Nc;
      var z3 := Zeros3(1, nk, nc);
      var uc' := NewArray3(z3, 1, nk, nc);
      var vc' := NewArray3(z3, 1, nk, nc);
      var T' := NewArray3(z3, 1, nk, nc);
      var S' := NewArray3(z3, 1, nk, nc);
      var h' := NewArray2(Zeros2(1, nc), 1, nc);
      var agec' := NewArray3(z3, 1, nk, nc);
      var agealpha' := NewArray3(z3, 1, nk, nc);
      var agesource' := NewArray2(Zeros2(nk, nc), nk, nc);
      this.grd, this.time := grd, time;
      uc, vc, T, S, h := uc', vc', T', S', h';
      agec, agealpha, agesource := agec', agealpha', agesource';
    }

    /** `roms2ic`, given the regional-model fields interpolated onto every cell: see `Roms2ICUpdate`. */
    method Roms2IC(src: RomsICSample, setUV: bool, seth: bool)
      requires Valid() && RomsICShaped(src, grd.Nkmax, grd.Nc)
      modifies T, S, uc, vc, h
      ensures Snapshot() == Roms2ICUpdate(old(Snapshot()), grd.Nkmax, grd.Nc, src, setUV, seth)
    {
      var nk, nc := grd.Nkmax, grd.Nc;
      Overwrite3(T, src.T);
      Overwrite3(S, src.S);
      Overwrite3(uc, if setUV then src.uc else Zeros3(1, nk, nc));
      Overwrite3(vc, if setUV then src.vc else Zeros3(1, nk, nc));
      Overwrite2(h, if seth then src.h else Zeros2(1, nc));
    }

    /** `oceanmodel2ic`, given the gridded-analysis fields interpolated onto every cell: see `OceanICUpdate`. */
    method OceanModel2IC(src: OceanICSample, setUV: bool, seth: bool)
      requires Valid() && OceanICShaped(src, grd.Nkmax, grd.Nc, seth)
      modifies T, S, h
      ensures Snapshot() == OceanICUpdate(old(Snapshot()), grd.Nkmax, grd.Nc, src, seth)
    {
      Overwrite3(T, src.T);
      Overwrite3(S, src.S);
      if seth {
        Overwrite2(h, src.ssh);
      }
    }

    /**
     * `setAgeSource`, given the polygons of a shapefile and the point-in-polygon
     * test: no polygons is an error and changes nothing; otherwise every layer of
     * each cell whose centre some polygon contains is set to 1.
     */
    method SetAgeSource(polys: seq<Polygon>, inside: ((real, real), Polygon) -> bool) returns (r: Result<(), ICError>)
      requires Valid() && grd.Shape()
      modifies agesource
      ensures r.Err? <==> polys == []
      ensures polys == [] ==> Snap2(agesource) == old(Snap2(agesource))
      ensures polys != [] ==> Snap2(agesource) == MarkAgeSource(old(Snap2(agesource)), Centres(), polys, inside)
    {
      if |polys| < 1 {
        return Err(NoPolygons);
      }
      ghost var a0 := Snap2(agesource);
      var centres := Centres();
      for i := 0 to |polys|
        invariant Snap2(agesource) == MarkAgeSource(a0, centres, polys[..i], inside)
      {
        ghost var prev := Snap2(agesource);
        var p := polys[i];
        forall k, c | 0 <= k < agesource.Length0 && 0 <= c < agesource.Length1 && inside(centres[c], p) {
          agesource[k, c] := 1.0;
        }
        assert polys[..i + 1][..i] == polys[..i];
        Ext2(Snap2(agesource), MarkAgeSource(a0, centres, polys[..i + 1], inside), agesource.Length0, agesource.Length1);
      }
      assert polys[..|polys|] == polys;
      r := Ok(());
    }
  }
}
