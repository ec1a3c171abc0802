/**
 * The per-patch attribute derivations (toolbox/addAttrFunctions.py): the minimum-mapping-unit
 * clip filter, the coordinate type and datum, the point attributes joined back to the patches,
 * the vegetation code, the park and patch name, and the overlap with the previous year.
 * Geometry tools (Clip, spatial joins, zonal statistics) are not computed: their outputs are
 * parameters.
 */
module AttrFunctions {
  import opened Wrappers
  import opened Values
  import opened FeatureClasses
  import opened AttrUtils

  function TextField(n: nat): FieldDef
  {
    FieldDef(TextKind, Some(n))
  }

  /** A text cell is no longer than its field's declared length. */
  predicate Fits(def: FieldDef, c: Cell)
  {
    match c
    case Some(Text(s)) => def.length.None? || |s| <= def.length.value
    case _ => true
  }

  // ---------------------------------------------------------------------------
  // clip_patches
  // ---------------------------------------------------------------------------

  /** The where clause `Shape_Area < 30*30*mmu`; a null area is not selected. */
  predicate BelowMmu(mmu: int, r: Feature)
  {
    match NumOf(Get(r.attrs, "Shape_Area"))
    case Some(a) => a < (30 * 30 * mmu) as real
    case None => false
  }

  function BelowMmuSel(mmu: int): Feature -> bool
  {
    (r: Feature) => BelowMmu(mmu, r)
  }

  /**
   * The patches after clip_patches, given the rows the Clip tool produced. Delete Features on the
   * layer removes the patches the where clause selects, and every patch when it selects none.
   */
  function ClippedRows(clipped: seq<Feature>, mmu: int, round: Cell -> Cell): seq<Feature>
  {
    SyncAreaPerim(Filter(clipped, Not(ActsOn(clipped, All, BelowMmuSel(mmu)))), round)
  }

  /**
   * Replaces the patches with the clipped patches minus those below the minimum mapping unit,
   * then brings area and perim up to date.
   */
  method ClipPatches(fc: FeatureClass, clipped: seq<Feature>, mmu: int, round: Cell -> Cell)
    requires fc.Valid() && Conforms(fc.schema, clipped)
    modifies fc
    ensures fc.Valid()
    ensures fc.schema.Keys == old(fc.schema.Keys) + {"area", "perim"}
    ensures fc.records == ClippedRows(clipped, mmu, round)
  {
    var clippedFc := new FeatureClass(fc.schema, clipped);
    clippedFc.DeleteFeatures(ActsOn(clippedFc.records, All, BelowMmuSel(mmu)));
    fc.schema, fc.records := clippedFc.schema, clippedFc.records;
    UpdateAreaPerim(fc, round);
  }

  /** Bringing area and perim up to date leaves the MMU test as it was. */
  lemma SyncRowKeepsMmuTest(mmu: int, r: Feature, round: Cell -> Cell)
    ensures BelowMmu(mmu, SyncRow(r, round)) == BelowMmu(mmu, r)
  {
    var a := r.attrs["area" := Update(Get(r.attrs, "area"), Get(r.attrs, "Shape_Area"), round)];
    assert "Shape_Area" != "area" && "Shape_Area" != "perim";
    assert Get(a, "Shape_Area") == Get(r.attrs, "Shape_Area");
    assert Get(SyncRow(r, round).attrs, "Shape_Area") == Get(a, "Shape_Area");
  }

  /** The patches clip_patches is meant to leave: those at or above the minimum mapping unit. */
  function IntendedClippedRows(clipped: seq<Feature>, mmu: int, round: Cell -> Cell): seq<Feature>
  {
    SyncAreaPerim(Filter(clipped, Not(BelowMmuSel(mmu))), round)
  }

  /**
   * clip_patches as written: when some clipped patch is below the threshold it leaves the
   * intended patches; when none is, the selection is empty and every patch is deleted.
   */
  lemma ClippedRowsMeaning(clipped: seq<Feature>, mmu: int, round: Cell -> Cell)
    ensures (exists i :: 0 <= i < |clipped| && BelowMmu(mmu, clipped[i])) ==>
              ClippedRows(clipped, mmu, round) == IntendedClippedRows(clipped, mmu, round)
    ensures (forall i :: 0 <= i < |clipped| ==> !BelowMmu(mmu, clipped[i])) ==>
              ClippedRows(clipped, mmu, round) == []
  {
    var acts := ActsOn(clipped, All, BelowMmuSel(mmu));
    if exists i :: 0 <= i < |clipped| && BelowMmu(mmu, clipped[i]) {
      var i :| 0 <= i < |clipped| && BelowMmu(mmu, clipped[i]);
      assert HasSelection(clipped, All, BelowMmuSel(mmu)) by {
        assert All(clipped[i]) && BelowMmuSel(mmu)(clipped[i]);
      }
      FilterSame(clipped, Not(acts), Not(BelowMmuSel(mmu)));
    } else {
      FilterEmpty(clipped, Not(acts));
    }
  }

  /** Clipping patches none of which is below the threshold deletes them all: one 1-hectare patch with mmu 5. */
  lemma ClipDeletesAllExample(round: Cell -> Cell)
    ensures var clipped := [Feature(0, map["Shape_Area" := Some(Real(10000.0))])];
      && !BelowMmu(5, clipped[0])
      && ClippedRows(clipped, 5, round) == []
      && |IntendedClippedRows(clipped, 5, round)| == 1
  {
    var clipped := [Feature(0, map["Shape_Area" := Some(Real(10000.0))])];
    assert Get(clipped[0].attrs, "Shape_Area") == Some(Real(10000.0));
    assert !BelowMmu(5, clipped[0]);
    ClippedRowsMeaning(clipped, 5, round);
    assert Not(BelowMmuSel(5))(clipped[0]);
    assert clipped[0] in Filter(clipped, Not(BelowMmuSel(5)));
  }

  /**
   * clip_patches with Delete Features skipped when nothing is below the threshold, as
   * del_select_patches guards its own Delete Features.
   */
  method ClipPatchesGuarded(fc: FeatureClass, clipped: seq<Feature>, mmu: int, round: Cell -> Cell)
    requires fc.Valid() && Conforms(fc.schema, clipped)
    modifies fc
    ensures fc.Valid()
    ensures fc.schema.Keys == old(fc.schema.Keys) + {"area", "perim"}
    ensures fc.records == IntendedClippedRows(clipped, mmu, round)
  {
    var clippedFc := new FeatureClass(fc.schema, clipped);
    if HasSelection(clippedFc.records, All, BelowMmuSel(mmu)) {
      clippedFc.DeleteFeatures(ActsOn(clippedFc.records, All, BelowMmuSel(mmu)));
      ClippedRowsMeaning(clipped, mmu, round);
    } else {
      FilterKeepsAll(clipped, Not(BelowMmuSel(mmu)));
    }
    fc.schema, fc.records := clippedFc.schema, clippedFc.records;
    UpdateAreaPerim(fc, round);
  }

  /**
   * No patch below the threshold survives the intended clip, every clipped patch at or above it
   * survives (with area and perim synced), and nothing else appears.
   */
  lemma IntendedClippedRowsMeaning(clipped: seq<Feature>, mmu: int, round: Cell -> Cell)
    ensures forall j :: 0 <= j < |IntendedClippedRows(clipped, mmu, round)| ==>
              !BelowMmu(mmu, IntendedClippedRows(clipped, mmu, round)[j])
    ensures forall i :: 0 <= i < |clipped| && !BelowMmu(mmu, clipped[i]) ==>
              SyncRow(clipped[i], round) in IntendedClippedRows(clipped, mmu, round)
    ensures forall j :: 0 <= j < |IntendedClippedRows(clipped, mmu, round)| ==>
              exists i :: 0 <= i < |clipped| && !BelowMmu(mmu, clipped[i]) &&
                IntendedClippedRows(clipped, mmu, round)[j] == SyncRow(clipped[i], round)
  {
    var kept := Filter(clipped, Not(BelowMmuSel(mmu)));
    var out := IntendedClippedRows(clipped, mmu, round);
    assert |out| == |kept|;
    forall j | 0 <= j < |out|
      ensures !BelowMmu(mmu, out[j])
      ensures exists i :: 0 <= i < |clipped| && !BelowMmu(mmu, clipped[i]) && out[j] == SyncRow(clipped[i], round)
    {
      assert kept[j] in kept;
      assert Not(BelowMmuSel(mmu))(kept[j]);
      assert out[j] == SyncRow(kept[j], round);
      SyncRowKeepsMmuTest(mmu, kept[j], round);
      var i :| 0 <= i < |clipped| && clipped[i] == kept[j];
      assert !BelowMmu(mmu, clipped[i]) && out[j] == SyncRow(clipped[i], round);
    }
    assert forall j :: 0 <= j < |out| ==>
      exists i :: 0 <= i < |clipped| && !BelowMmu(mmu, clipped[i]) && out[j] == SyncRow(clipped[i], round);
    forall i | 0 <= i < |clipped| && !BelowMmu(mmu, clipped[i])
      ensures SyncRow(clipped[i], round) in out
    {
      assert Not(BelowMmuSel(mmu))(clipped[i]);
      var j :| 0 <= j < |kept| && kept[j] == clipped[i];
      assert out[j] == SyncRow(clipped[i], round);
    }
  }

  // ---------------------------------------------------------------------------
  // add_coords
  // ---------------------------------------------------------------------------

  const CoordTypeField := TextField(13)
  const DatumField := TextField(5)

  /** The where clause `annualID IN (ids)`. */
  predicate InIds(r: Feature, ids: seq<int>)
  {
    exists k :: 0 <= k < |ids| && NumEquals(Get(r.attrs, "annualID"), ids[k])
  }

  function InIdsSel(ids: seq<int>): Feature -> bool
  {
    (r: Feature) => InIds(r, ids)
  }

  /** CoordType and Datum as add_coords leaves them, given the annualIDs that needed a centroid. */
  function CoordRows(rs: seq<Feature>, centroidIds: Option<seq<int>>): seq<Feature>
  {
    seq(|rs|, i requires 0 <= i < |rs| =>
      var centroid := centroidIds.Some? && InIds(rs[i], centroidIds.value);
      rs[i].(attrs := rs[i].attrs["CoordType" := Some(Text(if centroid then "Centroid" else "Central point"))]
                                 ["Datum" := Some(Text("NAD83"))]))
  }

  /**
   * add_coords with the list add_albers returned: None, or the annualIDs of the patches whose
   * central point could not be computed, so some patch is listed. The UTM and latitude/longitude
   * fields are not modelled.
   */
  method AddCoords(fc: FeatureClass, centroidIds: Option<seq<int>>)
    requires fc.Valid()
    requires centroidIds.Some? ==> exists i :: 0 <= i < |fc.records| && InIds(fc.records[i], centroidIds.value)
    modifies fc
    ensures fc.Valid()
    ensures fc.schema.Keys == old(fc.schema.Keys) + {"CoordType", "Datum"}
    ensures fc.records == CoordRows(old(fc.records), centroidIds)
  {
    ghost var rs := fc.records;
    fc.AddField("CoordType", CoordTypeField);
    fc.CalculateField("CoordType", CoordTypeField, All, Const(Some(Text("Central point"))));
    if centroidIds.Some? {
      fc.CalculateField("CoordType", CoordTypeField, ActsOn(fc.records, All, InIdsSel(centroidIds.value)),
                        Const(Some(Text("Centroid"))));
    }
    ghost var rs2 := fc.records;
    CoordTypeSteps(rs, centroidIds);
    fc.AddField("Datum", DatumField);
    fc.CalculateField("Datum", DatumField, All, Const(Some(Text("NAD83"))));
    DatumStep(rs, rs2, centroidIds);
  }

  /** Setting Datum after the CoordType passes gives the rows of add_coords. */
  lemma DatumStep(rs: seq<Feature>, rs2: seq<Feature>, centroidIds: Option<seq<int>>)
    requires |rs2| == |rs|
    requires forall i :: 0 <= i < |rs| ==>
      rs2[i] == rs[i].(attrs := rs[i].attrs["CoordType" :=
        Some(Text(if centroidIds.Some? && InIds(rs[i], centroidIds.value) then "Centroid" else "Central point"))])
    ensures AssignAll(AddNullAll(rs2, "Datum"), "Datum", All, Const(Some(Text("NAD83")))) == CoordRows(rs, centroidIds)
  {
    AddThenSetAll(rs2, "Datum", Some(Text("NAD83")));
  }

  /**
   * The two CoordType passes of add_coords: "Central point" everywhere, then "Centroid" on the
   * layer selection of the listed annualIDs, which holds some patch.
   */
  lemma CoordTypeSteps(rs: seq<Feature>, centroidIds: Option<seq<int>>)
    requires centroidIds.Some? ==> exists i :: 0 <= i < |rs| && InIds(rs[i], centroidIds.value)
    ensures var rs1 := AssignAll(AddNullAll(rs, "CoordType"), "CoordType", All, Const(Some(Text("Central point"))));
      var rs2 := if centroidIds.Some?
                 then AssignAll(rs1, "CoordType", ActsOn(rs1, All, InIdsSel(centroidIds.value)), Const(Some(Text("Centroid"))))
                 else rs1;
      && |rs2| == |rs|
      && forall i :: 0 <= i < |rs| ==>
           rs2[i] == rs[i].(attrs := rs[i].attrs["CoordType" :=
             Some(Text(if centroidIds.Some? && InIds(rs[i], centroidIds.value) then "Centroid" else "Central point"))])
  {
    var rs1 := AssignAll(AddNullAll(rs, "CoordType"), "CoordType", All, Const(Some(Text("Central point"))));
    AddThenSetAll(rs, "CoordType", Some(Text("Central point")));
    if centroidIds.Some? {
      var acts := ActsOn(rs1, All, InIdsSel(centroidIds.value));
      var rs2 := AssignAll(rs1, "CoordType", acts, Const(Some(Text("Centroid"))));
      assert HasSelection(rs1, All, InIdsSel(centroidIds.value)) by {
        var j :| 0 <= j < |rs| && InIds(rs[j], centroidIds.value);
        assert Get(rs1[j].attrs, "annualID") == Get(rs[j].attrs, "annualID");
        assert All(rs1[j]) && InIdsSel(centroidIds.value)(rs1[j]);
      }
      forall i | 0 <= i < |rs|
        ensures rs2[i] == rs[i].(attrs := rs[i].attrs["CoordType" :=
                  Some(Text(if InIds(rs[i], centroidIds.value) then "Centroid" else "Central point"))])
      {
        assert Get(rs1[i].attrs, "annualID") == Get(rs[i].attrs, "annualID");
        assert InIds(rs1[i], centroidIds.value) == InIds(rs[i], centroidIds.value);
        assert rs2[i] == Assign(rs1[i], "CoordType", acts, Const(Some(Text("Centroid"))));
      }
    }
  }

  /**
   * Every patch is "Centroid" exactly when its annualID is in the list, "Central point" otherwise
   * (all of them when there is no list); every patch gets Datum "NAD83"; both fit their declared
   * lengths; no other field changes.
   */
  lemma CoordRowsMeaning(rs: seq<Feature>, centroidIds: Option<seq<int>>)
    ensures var out := CoordRows(rs, centroidIds);
      && |out| == |rs|
      && (forall i :: 0 <= i < |rs| ==>
            (out[i].attrs["CoordType"] == Some(Text("Centroid")) <==>
             centroidIds.Some? && InIds(rs[i], centroidIds.value)))
      && (forall i :: 0 <= i < |rs| && centroidIds.None? ==> out[i].attrs["CoordType"] == Some(Text("Central point")))
      && (forall i :: 0 <= i < |rs| ==> out[i].attrs["Datum"] == Some(Text("NAD83")))
      && (forall i :: 0 <= i < |rs| ==>
            Fits(CoordTypeField, out[i].attrs["CoordType"]) && Fits(DatumField, out[i].attrs["Datum"]))
      && (forall i, f :: 0 <= i < |rs| && f != "CoordType" && f != "Datum" ==> Get(out[i].attrs, f) == Get(rs[i].attrs, f))
  {
    var out := CoordRows(rs, centroidIds);
    forall i | 0 <= i < |rs|
      ensures Fits(CoordTypeField, out[i].attrs["CoordType"]) && Fits(DatumField, out[i].attrs["Datum"])
      ensures out[i].attrs["CoordType"] == Some(Text("Centroid")) <==> centroidIds.Some? && InIds(rs[i], centroidIds.value)
    {
      assert |"Central point"| == 13 && |"Centroid"| == 8 && |"NAD83"| == 5;
      assert "Central point" != "Centroid" by { assert "Central point"[5] != "Centroid"[5]; }
    }
  }

  // ---------------------------------------------------------------------------
  // add_attrs_points, add_land_mgmt_wild, add_watershed
  // ---------------------------------------------------------------------------

  /** The value a spatial join gives field f of the point with geometry g. */
  type SpatialJoin = (string, Geom) -> Cell

  function JoinValue(sjoin: SpatialJoin, f: string): Feature -> Cell
  {
    (r: Feature) => sjoin(f, r.geom)
  }

  /** A feature class's rows seen as a join table. */
  function Table(rs: seq<Feature>): (t: seq<map<string, Cell>>)
    ensures |t| == |rs| && forall i :: 0 <= i < |rs| ==> t[i] == rs[i].attrs
  {
    seq(|rs|, i requires 0 <= i < |rs| => rs[i].attrs)
  }

  /** Joins field `src` by location, then renames it to `dst` (TEXT 50) with rename_field. */
  method JoinAndRename(pts: FeatureClass, sjoin: SpatialJoin, src: string, srcLen: nat, dst: string)
    requires pts.Valid() && src != dst
    modifies pts
    ensures pts.Valid()
    ensures src !in pts.schema && dst in pts.schema
    ensures pts.schema.Keys == old(pts.schema.Keys) - {src} + {dst}
    ensures |pts.records| == |old(pts.records)|
    ensures forall i :: 0 <= i < |pts.records| ==> pts.records[i].geom == old(pts.records)[i].geom
    ensures forall i :: 0 <= i < |pts.records| ==> Get(pts.records[i].attrs, dst) == sjoin(src, old(pts.records)[i].geom)
    ensures forall i, f :: 0 <= i < |pts.records| && f != src && f != dst ==>
              Get(pts.records[i].attrs, f) == Get(old(pts.records)[i].attrs, f)
  {
    ghost var rs := pts.records;
    pts.CalculateField(src, TextField(srcLen), All, JoinValue(sjoin, src));
    ghost var s1, rs1 := pts.schema, pts.records;
    var args := Single(src, dst, TextField(50));
    RenameField(pts, args);
    RenamedMeaning(s1, rs1, args);
    assert args.Olds() == [src] && args.News() == [dst];
    assert args.Olds()[..0] == [] && args.News()[..0] == [] && args.Defs()[..0] == [];
    assert (set f | f in args.Olds()) == {src};
    ghost var st := CopyFold((s1, rs1), args.Olds(), args.News(), args.Defs());
    assert CopyFold((s1, rs1), args.Olds()[..0], args.News()[..0], args.Defs()[..0]) == (s1, rs1);
    assert st == CopyStep((s1, rs1), src, dst, TextField(50));
    assert st.0.Keys == s1.Keys + {dst};
    assert pts.schema == st.0 - {src};
  }

  /** add_land_mgmt_wild: MANAGER and WildName joined from the containing polygon, MANAGER renamed LandMgmt. */
  method AddLandMgmtWild(pts: FeatureClass, sjoin: SpatialJoin)
    requires pts.Valid()
    modifies pts
    ensures pts.Valid()
    ensures "LandMgmt" in pts.schema && "WildName" in pts.schema && "MANAGER" !in pts.schema
    ensures |pts.records| == |old(pts.records)|
    ensures forall i :: 0 <= i < |pts.records| ==> pts.records[i].geom == old(pts.records)[i].geom
    ensures forall i :: 0 <= i < |pts.records| ==>
              Get(pts.records[i].attrs, "LandMgmt") == sjoin("MANAGER", old(pts.records)[i].geom) &&
              Get(pts.records[i].attrs, "WildName") == sjoin("WildName", old(pts.records)[i].geom)
    ensures forall i, f :: 0 <= i < |pts.records| && f !in {"MANAGER", "LandMgmt", "WildName"} ==>
              Get(pts.records[i].attrs, f) == Get(old(pts.records)[i].attrs, f)
  {
    pts.CalculateField("WildName", TextField(100), All, JoinValue(sjoin, "WildName"));
    JoinAndRename(pts, sjoin, "MANAGER", 100, "LandMgmt");
  }

  /** add_watershed: NAME joined from the intersecting watershed, renamed Watershed. */
  method AddWatershed(pts: FeatureClass, sjoin: SpatialJoin)
    requires pts.Valid()
    modifies pts
    ensures pts.Valid()
    ensures "Watershed" in pts.schema && "NAME" !in pts.schema
    ensures pts.schema.Keys == old(pts.schema.Keys) - {"NAME"} + {"Watershed"}
    ensures |pts.records| == |old(pts.records)|
    ensures forall i :: 0 <= i < |pts.records| ==> pts.records[i].geom == old(pts.records)[i].geom
    ensures forall i :: 0 <= i < |pts.records| ==> Get(pts.records[i].attrs, "Watershed") == sjoin("NAME", old(pts.records)[i].geom)
    ensures forall i, f :: 0 <= i < |pts.records| && f != "NAME" && f != "Watershed" ==>
              Get(pts.records[i].attrs, f) == Get(old(pts.records)[i].attrs, f)
  {
    JoinAndRename(pts, sjoin, "NAME", 120, "Watershed");
  }

  const PointFields: seq<string> := ["WildName", "LandMgmt", "Watershed", "InPark", "InBuffer"]
  const OptionalFields: seq<string> := ["Protected", "EastWest"]

  /** `[f for f in ["Protected", "EastWest"] if f not in existing_fields]`. */
  function JoinFields(existing: set<string>): (r: seq<string>)
    ensures forall f :: f in r <==> f in OptionalFields && f !in existing
    ensures |r| == 0 <==> "Protected" in existing && "EastWest" in existing
    ensures forall i, j :: 0 <= i < j < |r| ==> r[i] == "Protected" && r[j] == "EastWest"
  {
    var r := Filter(OptionalFields, (f: string) => f !in existing);
    assert OptionalFields[1..] == ["EastWest"];
    r
  }

  /**
   * The patches just before the optional fields are joined: when the points already held EastWest,
   * it is deleted from the patches; it is spatially re-joined to the points only, and being among
   * the points' fields it is not joined back, so the patches are left without it.
   */
  function BeforeOptionalJoin(optional: bool, existing: set<string>, schema: map<string, FieldDef>,
                              rs: seq<Feature>): (map<string, FieldDef>, seq<Feature>)
  {
    if optional && "EastWest" in existing then (schema - {"EastWest"}, DropAll(rs, {"EastWest"}))
    else (schema, rs)
  }

  /** The LEWI branch: Protected (SHORT) and EastWest (TEXT 4) are added where missing, and left null. */
  method AddMissingOptional(pts: FeatureClass)
    requires pts.Valid()
    modifies pts
    ensures pts.Valid()
    ensures pts.schema.Keys == old(pts.schema.Keys) + {"Protected", "EastWest"}
    ensures |pts.records| == |old(pts.records)|
    ensures forall i :: 0 <= i < |pts.records| ==> pts.records[i].geom == old(pts.records)[i].geom
    ensures forall i, f :: 0 <= i < |pts.records| ==> Get(pts.records[i].attrs, f) == Get(old(pts.records)[i].attrs, f)
  {
    var existing := pts.schema.Keys;
    if "Protected" !in existing {
      pts.AddField("Protected", ShortField);
    }
    if "EastWest" !in existing {
      pts.AddField("EastWest", TextField(4));
    }
  }

  /**
   * The branch for parks with protected areas and an east-west line: Protected is the 0/1 flag,
   * EastWest is deleted from both classes if the points had it and joined again by location.
   */
  method AddFromOptionalLayers(patches: FeatureClass, pts: FeatureClass, protectedGeoms: seq<Geom>,
                               sjoin: SpatialJoin, spatial: Spatial)
    requires patches.Valid() && pts.Valid() && patches != pts
    modifies patches, pts
    ensures patches.Valid() && pts.Valid()
    ensures pts.schema.Keys == old(pts.schema.Keys) + {"Protected", "EastWest"}
    ensures |pts.records| == |old(pts.records)|
    ensures forall i :: 0 <= i < |pts.records| ==>
              Get(pts.records[i].attrs, "Protected") ==
                Flag(RelatesToAny(spatial, Intersect, old(pts.records)[i].geom, protectedGeoms) &&
                     !AllRelate(old(pts.records), spatial, Intersect, protectedGeoms)) &&
              Get(pts.records[i].attrs, "EastWest") == sjoin("EastWest", old(pts.records)[i].geom)
    ensures forall i, f :: 0 <= i < |pts.records| && f != "Protected" && f != "EastWest" ==>
              Get(pts.records[i].attrs, f) == Get(old(pts.records)[i].attrs, f)
    ensures (patches.schema, patches.records) ==
              BeforeOptionalJoin(true, old(pts.schema.Keys), old(patches.schema), old(patches.records))
  {
    var existing := pts.schema.Keys;
    ghost var rs := pts.records;
    SelectCalculate(pts, protectedGeoms, Intersect, "Protected", spatial);
    if "EastWest" in existing {
      pts.DeleteFields(["EastWest"]);
      patches.DeleteFields(["EastWest"]);
      assert (set f | f in ["EastWest"]) == {"EastWest"};
    }
    ghost var rs2 := pts.records;
    pts.CalculateField("EastWest", TextField(4), All, JoinValue(sjoin, "EastWest"));
    OptionalRows(rs, rs2, protectedGeoms, sjoin, spatial);
  }

  /**
   * The points after the Protected pass, an optional drop of EastWest and the EastWest join:
   * Protected is the select_calculate flag, EastWest the joined value, every other value kept.
   */
  lemma OptionalRows(rs: seq<Feature>, rs2: seq<Feature>, protectedGeoms: seq<Geom>, sjoin: SpatialJoin, spatial: Spatial)
    requires |rs2| == |rs|
    requires forall i :: 0 <= i < |rs| ==>
      rs2[i] == FlagRows(rs, "Protected", spatial, Intersect, protectedGeoms)[i] ||
      rs2[i] == FlagRows(rs, "Protected", spatial, Intersect, protectedGeoms)[i].(attrs :=
                  FlagRows(rs, "Protected", spatial, Intersect, protectedGeoms)[i].attrs - {"EastWest"})
    ensures var out := AssignAll(rs2, "EastWest", All, JoinValue(sjoin, "EastWest"));
      && |out| == |rs|
      && (forall i :: 0 <= i < |rs| ==>
            Get(out[i].attrs, "Protected") ==
              Flag(RelatesToAny(spatial, Intersect, rs[i].geom, protectedGeoms) &&
                   !AllRelate(rs, spatial, Intersect, protectedGeoms)) &&
            Get(out[i].attrs, "EastWest") == sjoin("EastWest", rs[i].geom))
      && (forall i, f :: 0 <= i < |rs| && f != "Protected" && f != "EastWest" ==>
            Get(out[i].attrs, f) == Get(rs[i].attrs, f))
  {
    var rs1 := FlagRows(rs, "Protected", spatial, Intersect, protectedGeoms);
    FlagRowsMeaning(rs, "Protected", spatial, Intersect, protectedGeoms);
    var out := AssignAll(rs2, "EastWest", All, JoinValue(sjoin, "EastWest"));
    forall i | 0 <= i < |rs|
      ensures Get(out[i].attrs, "Protected") == Get(rs1[i].attrs, "Protected")
      ensures out[i].geom == rs[i].geom
      ensures forall f :: f != "EastWest" ==> Get(out[i].attrs, f) == Get(rs1[i].attrs, f)
    {
      assert out[i] == Assign(rs2[i], "EastWest", All, JoinValue(sjoin, "EastWest"));
    }
  }

  /**
   * The Protected/EastWest part of add_attrs_points. `optional` says that both protected_fc and
   * east_west_fc are given; the fields joined are decided on the point fields before this part.
   */
  method AddOptionalAttrs(patches: FeatureClass, pts: FeatureClass, zoneField: string, optional: bool,
                          protectedGeoms: seq<Geom>, sjoin: SpatialJoin, spatial: Spatial)
    requires patches.Valid() && pts.Valid() && patches != pts
    modifies patches, pts
    ensures patches.Valid() && pts.Valid()
    ensures pts.schema.Keys == old(pts.schema.Keys) + {"Protected", "EastWest"}
    ensures |pts.records| == |old(pts.records)|
    ensures forall i, f :: 0 <= i < |pts.records| && f != "Protected" && f != "EastWest" ==>
              Get(pts.records[i].attrs, f) == Get(old(pts.records)[i].attrs, f)
    ensures !optional ==> forall i, f :: 0 <= i < |pts.records| ==>
              Get(pts.records[i].attrs, f) == Get(old(pts.records)[i].attrs, f)
    ensures optional ==> forall i :: 0 <= i < |pts.records| ==>
              Get(pts.records[i].attrs, "Protected") ==
                Flag(RelatesToAny(spatial, Intersect, old(pts.records)[i].geom, protectedGeoms) &&
                     !AllRelate(old(pts.records), spatial, Intersect, protectedGeoms)) &&
              Get(pts.records[i].attrs, "EastWest") == sjoin("EastWest", old(pts.records)[i].geom)
    ensures var before := BeforeOptionalJoin(optional, old(pts.schema.Keys), old(patches.schema), old(patches.records));
            var fields := JoinFields(old(pts.schema.Keys));
            (patches.schema, patches.records) ==
              if |fields| == 0 then before
              else JoinFold(before.0, before.1, zoneField, Table(pts.records), zoneField, fields, pts.schema)
  {
    var existing := pts.schema.Keys;
    if !optional {
      AddMissingOptional(pts);
    } else {
      AddFromOptionalLayers(patches, pts, protectedGeoms, sjoin, spatial);
    }
    var fields := JoinFields(existing);
    if |fields| > 0 {
      patches.JoinField(zoneField, Table(pts.records), zoneField, fields, pts.schema);
    }
  }

  /**
   * The point attributes of row p, the i-th of the points `rs` before add_attrs_points: the values
   * the spatial joins give, and InPark and InBuffer as select_calculate leaves them.
   */
  ghost predicate PointAttrsOf(p: Feature, rs: seq<Feature>, i: int, parkGeoms: seq<Geom>, buffGeoms: seq<Geom>,
                               sjoin: SpatialJoin, spatial: Spatial)
    requires 0 <= i < |rs|
  {
    && Get(p.attrs, "InPark") ==
         Flag(RelatesToAny(spatial, Intersect, rs[i].geom, parkGeoms) && !AllRelate(rs, spatial, Intersect, parkGeoms))
    && Get(p.attrs, "InBuffer") ==
         Flag(RelatesToAny(spatial, Intersect, rs[i].geom, buffGeoms) && !AllRelate(rs, spatial, Intersect, buffGeoms))
    && Get(p.attrs, "Watershed") == sjoin("NAME", rs[i].geom)
    && Get(p.attrs, "LandMgmt") == sjoin("MANAGER", rs[i].geom)
    && Get(p.attrs, "WildName") == sjoin("WildName", rs[i].geom)
  }

  /** The point attributes of add_attrs_points: land management, wilderness, watershed, InPark, InBuffer. */
  method AddPointAttrs(pts: FeatureClass, parkGeoms: seq<Geom>, buffGeoms: seq<Geom>,
                       sjoin: SpatialJoin, spatial: Spatial)
    requires pts.Valid()
    modifies pts
    ensures pts.Valid()
    ensures forall f :: f in PointFields ==> f in pts.schema
    ensures |pts.records| == |old(pts.records)|
    ensures forall i :: 0 <= i < |pts.records| ==>
              PointAttrsOf(pts.records[i], old(pts.records), i, parkGeoms, buffGeoms, sjoin, spatial)
  {
    ghost var rs0 := pts.records;
    AddLandMgmtWild(pts, sjoin);
    ghost var rs1 := pts.records;
    AddWatershed(pts, sjoin);
    ghost var rs2 := pts.records;
    SelectCalculate(pts, parkGeoms, Intersect, "InPark", spatial);
    SelectCalculate(pts, buffGeoms, Intersect, "InBuffer", spatial);
    TwoFlags(rs2, rs0, parkGeoms, buffGeoms, spatial);
    forall i | 0 <= i < |pts.records|
      ensures PointAttrsOf(pts.records[i], rs0, i, parkGeoms, buffGeoms, sjoin, spatial)
    {
      assert rs2[i].geom == rs1[i].geom == rs0[i].geom;
      assert Get(pts.records[i].attrs, "Watershed") == Get(rs2[i].attrs, "Watershed");
      assert Get(pts.records[i].attrs, "LandMgmt") == Get(rs2[i].attrs, "LandMgmt") == Get(rs1[i].attrs, "LandMgmt");
      assert Get(pts.records[i].attrs, "WildName") == Get(rs2[i].attrs, "WildName") == Get(rs1[i].attrs, "WildName");
    }
  }

  /** The two select_calculate calls of add_attrs_points set InPark and InBuffer and keep every other field. */
  lemma TwoFlags(rs2: seq<Feature>, rs0: seq<Feature>, parkGeoms: seq<Geom>, buffGeoms: seq<Geom>, spatial: Spatial)
    requires |rs2| == |rs0| && forall i :: 0 <= i < |rs0| ==> rs2[i].geom == rs0[i].geom
    ensures var out := FlagRows(FlagRows(rs2, "InPark", spatial, Intersect, parkGeoms), "InBuffer", spatial, Intersect, buffGeoms);
      && |out| == |rs0|
      && forall i :: 0 <= i < |rs0| ==>
           && Get(out[i].attrs, "InPark") ==
                Flag(RelatesToAny(spatial, Intersect, rs0[i].geom, parkGeoms) && !AllRelate(rs0, spatial, Intersect, parkGeoms))
           && Get(out[i].attrs, "InBuffer") ==
                Flag(RelatesToAny(spatial, Intersect, rs0[i].geom, buffGeoms) && !AllRelate(rs0, spatial, Intersect, buffGeoms))
           && forall f :: f != "InPark" && f != "InBuffer" ==> Get(out[i].attrs, f) == Get(rs2[i].attrs, f)
  {
    var rs3 := FlagRows(rs2, "InPark", spatial, Intersect, parkGeoms);
    AllRelateSameGeoms(rs2, rs0, spatial, Intersect, parkGeoms);
    AllRelateSameGeoms(rs3, rs0, spatial, Intersect, buffGeoms);
  }

  /**
   * add_attrs_points: attributes computed on the central points, then joined to the patches by
   * `zone_field`. The spatial joins are `sjoin`; park, buffer and protected areas are geometries
   * tested with `spatial`. `joined` and `joinedSchema` are the point table as it stands when the
   * point fields are joined to the patches. Deleting the points afterwards is not modelled.
   */
  method AddAttrsPoints(patches: FeatureClass, pts: FeatureClass, zoneField: string,
                        parkGeoms: seq<Geom>, buffGeoms: seq<Geom>, optional: bool,
                        protectedGeoms: seq<Geom>, sjoin: SpatialJoin, spatial: Spatial)
    returns (ghost joined: seq<Feature>, ghost joinedSchema: map<string, FieldDef>)
    requires patches.Valid() && pts.Valid() && patches != pts
    modifies patches, pts
    ensures patches.Valid() && pts.Valid()
    ensures forall f :: f in PointFields || f in OptionalFields ==> f in pts.schema
    ensures |pts.records| == |old(pts.records)|
    ensures forall i :: 0 <= i < |pts.records| ==>
              PointAttrsOf(pts.records[i], old(pts.records), i, parkGeoms, buffGeoms, sjoin, spatial)
    ensures forall f :: f in PointFields ==> f in joinedSchema
    ensures |joined| == |pts.records|
    ensures forall i, f :: 0 <= i < |joined| && f != "Protected" && f != "EastWest" ==>
              Get(joined[i].attrs, f) == Get(pts.records[i].attrs, f)
    ensures var first := JoinFold(old(patches.schema), old(patches.records), zoneField, Table(joined), zoneField,
                                  PointFields, joinedSchema);
            var before := BeforeOptionalJoin(optional, joinedSchema.Keys, first.0, first.1);
            var fields := JoinFields(joinedSchema.Keys);
            (patches.schema, patches.records) ==
              if |fields| == 0 then before
              else JoinFold(before.0, before.1, zoneField, Table(pts.records), zoneField, fields, pts.schema)
  {
    ghost var rs0 := pts.records;
    AddPointAttrs(pts, parkGeoms, buffGeoms, sjoin, spatial);
    joined, joinedSchema := pts.records, pts.schema;
    patches.JoinField(zoneField, Table(pts.records), zoneField, PointFields, pts.schema);
    AddOptionalAttrs(patches, pts, zoneField, optional, protectedGeoms, sjoin, spatial);
    forall f | f in PointFields || f in OptionalFields ensures f in pts.schema {
      assert f in PointFields ==> f in joinedSchema;
    }
    PointFieldsKept(joined, pts.records);
    forall i | 0 <= i < |pts.records|
      ensures PointAttrsOf(pts.records[i], rs0, i, parkGeoms, buffGeoms, sjoin, spatial)
    {
      assert PointAttrsOf(joined[i], rs0, i, parkGeoms, buffGeoms, sjoin, spatial);
      assert "InPark" in PointFields && "InBuffer" in PointFields && "Watershed" in PointFields;
      assert "LandMgmt" in PointFields && "WildName" in PointFields;
    }
  }

  /** The optional stage, which writes only Protected and EastWest, keeps the point fields. */
  lemma PointFieldsKept(before: seq<Feature>, after: seq<Feature>)
    requires |after| == |before|
    requires forall i, f :: 0 <= i < |after| && f != "Protected" && f != "EastWest" ==>
               Get(after[i].attrs, f) == Get(before[i].attrs, f)
    ensures forall i, f :: 0 <= i < |after| && f in PointFields ==> Get(after[i].attrs, f) == Get(before[i].attrs, f)
  {
    assert forall f :: f in PointFields ==> f != "Protected" && f != "EastWest";
  }

  // ---------------------------------------------------------------------------
  // add_veg_type
  // ---------------------------------------------------------------------------

  /** Python's `int(x)` for a float: truncation toward zero. */
  function Trunc(x: real): int
  {
    if x >= 0.0 then x.Floor else -((-x).Floor)
  }

  /**
   * The expression `int(v) if v else None` on the majority value v; None when `int` raises.
   * An empty or null text gives null.
   */
  function VegValueOf(v: Cell): (r: Option<Cell>)
    ensures v.None? || v == Some(Text("")) ==> r == Some(None)
    ensures forall s :: v == Some(Text(s)) && s != "" ==> (r.Some? <==> PyInt(s).Some?)
  {
    match v
    case None => Some(None)
    case Some(Text(s)) =>
      if s == "" then Some(None)
      else (match PyInt(s)
        case Some(n) => Some(Some(Int(n)))
        case None => None)
    case Some(Int(n)) => Some(if n == 0 then None else Some(Int(n)))
    case Some(Real(x)) => Some(if x == 0.0 then None else Some(Int(Trunc(x))))
  }

  /** The code block `create_code(id)`: "L0" + str(id) below 10, "L" + str(id) otherwise. */
  function CreateCode(id: int): (code: string)
    ensures |code| >= 2 && code[0] == 'L'
  {
    if id < 10 then "L0" + IntToString(id) else "L" + IntToString(id)
  }

  /** For ids from 0 to 9 the code is "L0" and the single digit. */
  lemma CreateCodeZeroPadded(id: int)
    requires 0 <= id < 10
    ensures |CreateCode(id)| == 3 && CreateCode(id)[1] == '0' && CreateCode(id)[2] == DigitChar(id)
  {
    assert IntToString(id) == [DigitChar(id)];
  }

  /** The digits after "L" read back as the id, so the code determines the id. */
  lemma CreateCodeRoundTrip(id: nat)
    ensures AllDigits(CreateCode(id)[1..]) && ParseNat(CreateCode(id)[1..]) == id
  {
    var t := NatToString(id);
    ParseNatToString(id);
    if id < 10 {
      ParseNatLeadingZero(t);
      assert CreateCode(id)[1..] == "0" + t;
    } else {
      assert CreateCode(id)[1..] == t;
    }
  }

  /**
   * A code fits the 4-character VegCode field exactly for ids from -9 to 999: "L1000" and
   * "L0-10" are five characters long.
   */
  lemma CreateCodeFits(id: int)
    ensures Fits(TextField(4), Some(Text(CreateCode(id)))) <==> -10 < id < 1000
  {
    if id < 0 {
      assert CreateCode(id) == "L0" + ("-" + NatToString(-id));
      assert |NatToString(-id)| == 1 <==> -id < 10;
    } else if id < 10 {
      assert |IntToString(id)| == 1;
    } else {
      NatToStringWidth(id);
      assert CreateCode(id) == "L" + NatToString(id);
    }
  }

  /** The VegValue cell after the parse (null where the parse fails). */
  function ParsedVeg(v: Cell): (c: Cell)
    ensures c.Some? ==> c.value.Int?
    ensures VegValueOf(v).Some? ==> VegValueOf(v) == Some(c)
  {
    match VegValueOf(v)
    case Some(c) => c
    case None => None
  }

  /**
   * `create_code(!VegValue!)` as Calculate Field stores it in VegCode (TEXT, 4); None where the
   * expression raises (a null VegValue) or the code is longer than the field.
   */
  function VegCodeOf(v: Cell): Option<Cell>
  {
    match v
    case Some(Int(n)) =>
      var code := Some(Text(CreateCode(n)));
      if Fits(TextField(4), code) then Some(code) else None
    case _ => None
  }

  /** A VegCode is stored exactly for whole VegValues from -9 to 999, and it is create_code's text. */
  lemma VegCodeOfMeaning(v: Cell)
    ensures VegCodeOf(v).Some? <==> v.Some? && v.value.Int? && -10 < v.value.i < 1000
    ensures VegCodeOf(v).Some? ==> VegCodeOf(v).value == Some(Text(CreateCode(v.value.i)))
  {
    if v.Some? && v.value.Int? {
      CreateCodeFits(v.value.i);
    }
  }

  function ParsedVegOf(): Feature -> Cell
  {
    (r: Feature) => ParsedVeg(Get(r.attrs, "Veg_value_text"))
  }

  function VegCodeCell(): Feature -> Cell
  {
    (r: Feature) => match VegCodeOf(Get(r.attrs, "VegValue")) case Some(c) => c case None => None
  }

  /** Every patch's majority value passes `int(v) if v else None`. */
  predicate AllParse(rs: seq<Feature>, majority: Geom -> Cell)
  {
    forall i :: 0 <= i < |rs| ==> VegValueOf(majority(rs[i].geom)).Some?
  }

  /** `code` is what create_code gives for the whole number `value`. */
  ghost predicate IsCreatedCode(code: Cell, value: Cell)
  {
    exists n :: value == Some(Int(n)) && code == Some(Text(CreateCode(n)))
  }

  /** Every patch's VegValue is non-null and its code fits VegCode, so the LEWI calculation succeeds. */
  predicate AllCoded(rs: seq<Feature>, majority: Geom -> Cell)
  {
    forall i :: 0 <= i < |rs| ==> VegCodeOf(ParsedVeg(majority(rs[i].geom))).Some?
  }

  /** Every patch's VegValue joins a CODE (or none) that fits the 4-character VegCode field. */
  predicate CodesFit(rs: seq<Feature>, majority: Geom -> Cell, table: seq<map<string, Cell>>)
  {
    forall i :: 0 <= i < |rs| ==> Fits(TextField(4), Joined(table, "MCID", ParsedVeg(majority(rs[i].geom)), "CODE"))
  }

  function MajorityOf(majority: Geom -> Cell): Feature -> Cell
  {
    (r: Feature) => majority(r.geom)
  }

  /** The VegValue half of add_veg_type: parse the majority text, then drop the text field. */
  method AddVegValue(fc: FeatureClass, majority: Geom -> Cell) returns (ok: bool)
    requires fc.Valid()
    modifies fc
    ensures fc.Valid()
    ensures |fc.records| == |old(fc.records)|
    ensures forall i :: 0 <= i < |fc.records| ==> fc.records[i].geom == old(fc.records)[i].geom
    ensures ok <==> AllParse(old(fc.records), majority)
    ensures ok ==> "VegValue" in fc.schema
    ensures ok ==> fc.schema.Keys == (old(fc.schema.Keys) + {"VegValue"}) - {"Veg_value_text"}
    ensures ok ==> forall i :: 0 <= i < |fc.records| ==>
      Get(fc.records[i].attrs, "VegValue") == ParsedVeg(majority(old(fc.records)[i].geom))
  {
    ghost var rs := fc.records;
    fc.CalculateField("Veg_value_text", FieldDef(TextKind, None), All, MajorityOf(majority));
    ghost var rs1 := fc.records;
    assert forall i :: 0 <= i < |rs1| ==> Get(rs1[i].attrs, "Veg_value_text") == majority(rs[i].geom);
    ok := forall i :: 0 <= i < |fc.records| ==> VegValueOf(Get(fc.records[i].attrs, "Veg_value_text")).Some?;
    if !ok {
      return;
    }
    fc.CalculateField("VegValue", LongField, All, ParsedVegOf());
    ghost var rs2 := fc.records;
    fc.DeleteFields(["Veg_value_text"]);
    forall i | 0 <= i < |fc.records|
      ensures Get(fc.records[i].attrs, "VegValue") == ParsedVeg(majority(rs[i].geom))
    {
      assert Get(fc.records[i].attrs, "VegValue") == Get(rs2[i].attrs, "VegValue");
    }
  }

  /**
   * add_veg_type. `majority` is the zonal majority of the vegetation raster for a patch geometry
   * (as text); `lookup` is the park's veg type table, absent for LEWI. `ok` is false where a
   * Calculate Field would raise, including a VegCode longer than the field's four characters;
   * the field it was computing is then not written.
   */
  method AddVegType(fc: FeatureClass, majority: Geom -> Cell, lookup: Option<seq<map<string, Cell>>>)
    returns (ok: bool)
    requires fc.Valid()
    modifies fc
    ensures fc.Valid()
    ensures |fc.records| == |old(fc.records)|
    ensures ok ==> AllParse(old(fc.records), majority)
    ensures lookup.None? ==> (ok <==> AllParse(old(fc.records), majority) && AllCoded(old(fc.records), majority))
    ensures lookup.Some? && "CODE" !in old(fc.schema) ==>
      (ok <==> AllParse(old(fc.records), majority) && CodesFit(old(fc.records), majority, lookup.value))
    ensures ok ==> forall i :: 0 <= i < |fc.records| ==>
      Get(fc.records[i].attrs, "VegValue") == ParsedVeg(majority(old(fc.records)[i].geom))
    ensures ok ==> forall i :: 0 <= i < |fc.records| ==> Fits(TextField(4), Get(fc.records[i].attrs, "VegCode"))
    ensures ok && lookup.None? ==> forall i :: 0 <= i < |fc.records| ==>
      IsCreatedCode(Get(fc.records[i].attrs, "VegCode"), ParsedVeg(majority(old(fc.records)[i].geom)))
    ensures ok && lookup.Some? && "CODE" !in old(fc.schema) ==> forall i :: 0 <= i < |fc.records| ==>
      Get(fc.records[i].attrs, "VegCode") == Joined(lookup.value, "MCID", ParsedVeg(majority(old(fc.records)[i].geom)), "CODE")
  {
    ghost var rs := fc.records;
    ok := AddVegValue(fc, majority);
    if !ok {
      return;
    }
    ghost var s1, rs1 := fc.schema, fc.records;
    if lookup.Some? {
      ok := AddLookupVegCode(fc, lookup.value);
      if "CODE" !in s1 {
        assert forall i :: 0 <= i < |rs1| ==> Get(rs1[i].attrs, "VegValue") == ParsedVeg(majority(rs[i].geom));
      }
    } else {
      ok := AddComputedVegCode(fc);
      if !ok {
        assert !AllCoded(rs, majority) by {
          var i :| 0 <= i < |rs1| && VegCodeOf(Get(rs1[i].attrs, "VegValue")).None?;
          assert VegCodeOf(ParsedVeg(majority(rs[i].geom))).None?;
        }
        return;
      }
      forall i | 0 <= i < |fc.records|
        ensures IsCreatedCode(Get(fc.records[i].attrs, "VegCode"), ParsedVeg(majority(rs[i].geom)))
        ensures Fits(TextField(4), Get(fc.records[i].attrs, "VegCode"))
      {
        var v := Get(rs1[i].attrs, "VegValue");
        assert v == ParsedVeg(majority(rs[i].geom));
        assert VegCodeOf(v).Some?;
        var n := v.value.i;
        assert v == Some(Int(n));
        assert Get(fc.records[i].attrs, "VegCode") == Some(Text(CreateCode(n)));
      }
      assert AllCoded(rs, majority) by {
        forall i | 0 <= i < |rs|
          ensures VegCodeOf(ParsedVeg(majority(rs[i].geom))).Some?
        {
          assert VegCodeOf(Get(rs1[i].attrs, "VegValue")).Some?;
        }
      }
    }
  }

  /**
   * The branch of add_veg_type with a lookup table: CODE is joined from the table row whose MCID
   * is the patch's VegValue, then renamed VegCode (TEXT, 4); the copy raises when some CODE is
   * longer than the field.
   */
  method AddLookupVegCode(fc: FeatureClass, table: seq<map<string, Cell>>) returns (ok: bool)
    requires fc.Valid()
    modifies fc
    ensures fc.Valid()
    ensures |fc.records| == |old(fc.records)|
    ensures forall i :: 0 <= i < |fc.records| ==> Get(fc.records[i].attrs, "VegValue") == Get(old(fc.records)[i].attrs, "VegValue")
    ensures "CODE" !in old(fc.schema) ==>
      (ok <==> forall i :: 0 <= i < |old(fc.records)| ==>
                 Fits(TextField(4), Joined(table, "MCID", Get(old(fc.records)[i].attrs, "VegValue"), "CODE")))
    ensures ok ==> forall i :: 0 <= i < |fc.records| ==> Fits(TextField(4), Get(fc.records[i].attrs, "VegCode"))
    ensures ok && "CODE" !in old(fc.schema) ==> forall i :: 0 <= i < |fc.records| ==>
      Get(fc.records[i].attrs, "VegCode") == Joined(table, "MCID", Get(old(fc.records)[i].attrs, "VegValue"), "CODE")
  {
    ghost var s1, rs1 := fc.schema, fc.records;
    fc.JoinField("VegValue", table, "MCID", ["CODE"], map["CODE" := FieldDef(TextKind, None)]);
    ghost var s2, rs2 := fc.schema, fc.records;
    CodeJoined(s1, rs1, table);
    ok := forall i :: 0 <= i < |fc.records| ==> Fits(TextField(4), Get(fc.records[i].attrs, "CODE"));
    if !ok {
      return;
    }
    RenameField(fc, Single("CODE", "VegCode", TextField(4)));
    CodeRenamed(s2, rs2);
  }

  /** Joining CODE keeps VegValue, and a patch table without CODE gets the matching table row's CODE. */
  lemma CodeJoined(schema: map<string, FieldDef>, rs: seq<Feature>, table: seq<map<string, Cell>>)
    ensures var r := JoinFold(schema, rs, "VegValue", table, "MCID", ["CODE"], map["CODE" := FieldDef(TextKind, None)]).1;
      && |r| == |rs|
      && (forall i :: 0 <= i < |rs| ==> Get(r[i].attrs, "VegValue") == Get(rs[i].attrs, "VegValue"))
      && ("CODE" !in schema ==> forall i :: 0 <= i < |rs| ==>
            Get(r[i].attrs, "CODE") == Joined(table, "MCID", Get(rs[i].attrs, "VegValue"), "CODE"))
  {
    if "CODE" !in schema {
      JoinOne(schema, rs, "VegValue", table, "MCID", "CODE", map["CODE" := FieldDef(TextKind, None)]);
    }
  }

  /** Renaming CODE to VegCode copies every CODE into VegCode and keeps VegValue. */
  lemma CodeRenamed(schema: map<string, FieldDef>, rs: seq<Feature>)
    ensures var r := Renamed(schema, rs, Single("CODE", "VegCode", TextField(4))).1;
      && |r| == |rs|
      && forall i :: 0 <= i < |rs| ==>
           Get(r[i].attrs, "VegCode") == Get(rs[i].attrs, "CODE") && Get(r[i].attrs, "VegValue") == Get(rs[i].attrs, "VegValue")
  {
    var args := Single("CODE", "VegCode", TextField(4));
    RenamedMeaning(schema, rs, args);
    assert args.News()[0] == "VegCode" && args.Olds()[0] == "CODE";
    assert "VegValue" !in args.Olds() && "VegValue" !in args.News();
  }

  /**
   * The branch of add_veg_type without a lookup table (LEWI): VegCode (TEXT, 4) is added and
   * computed from VegValue by create_code; the calculation raises when some VegValue is null or
   * its code does not fit the field.
   */
  method AddComputedVegCode(fc: FeatureClass) returns (ok: bool)
    requires fc.Valid()
    modifies fc
    ensures fc.Valid()
    ensures |fc.records| == |old(fc.records)|
    ensures ok <==> forall i :: 0 <= i < |old(fc.records)| ==> VegCodeOf(Get(old(fc.records)[i].attrs, "VegValue")).Some?
    ensures forall i :: 0 <= i < |fc.records| ==> Get(fc.records[i].attrs, "VegValue") == Get(old(fc.records)[i].attrs, "VegValue")
    ensures ok ==> forall i :: 0 <= i < |fc.records| ==>
      Get(fc.records[i].attrs, "VegCode") == VegCodeOf(Get(old(fc.records)[i].attrs, "VegValue")).value
  {
    ghost var rs := fc.records;
    fc.AddField("VegCode", TextField(4));
    ghost var rs2 := fc.records;
    assert forall i :: 0 <= i < |rs2| ==> Get(rs2[i].attrs, "VegValue") == Get(rs[i].attrs, "VegValue");
    ok := forall i :: 0 <= i < |fc.records| ==> VegCodeOf(Get(fc.records[i].attrs, "VegValue")).Some?;
    if !ok {
      return;
    }
    fc.CalculateField("VegCode", TextField(4), All, VegCodeCell());
  }

  // ---------------------------------------------------------------------------
  // add_park_patch_name
  // ---------------------------------------------------------------------------

  /**
   * Python's `str(v)` on a cell: "None" for a null, the digits of an int, and for a whole float
   * below 10^16 in magnitude its digits followed by ".0". Other floats, which Python writes with
   * a fraction or an exponent, are not modelled (None).
   */
  function StrOf(v: Cell): (r: Option<string>)
    ensures r.Some? && !(v.Some? && v.value.Text?) ==> '_' !in r.value && |r.value| > 0
  {
    match v
    case None => Some("None")
    case Some(Int(n)) => Some(IntToString(n))
    case Some(Text(s)) => Some(s)
    case Some(Real(x)) =>
      if x == x.Floor as real && -10000000000000000.0 < x < 10000000000000000.0
      then Some(IntToString(x.Floor) + ".0") else None
  }

  /** `str(2001.0)` is "2001.0" and `str(2001)` is "2001". */
  lemma StrOfExample()
    ensures StrOf(Some(Real(2001.0))) == Some("2001.0")
    ensures StrOf(Some(Int(2001))) == Some("2001")
  {
    ExampleYearStrings();
    assert (2001.0).Floor == 2001;
    assert IntToString(2001) + ".0" == "2001.0";
  }

  /** The PatchName expression with `str` already applied to yod and annualID. */
  function PatchName(park: string, mmu: int, index: string, startYr: int, endYr: int,
                     yod: string, annualId: string): string
  {
    RunPrefix(park, mmu, index, startYr, endYr) + (yod + "_" + annualId)
  }

  /** The part of a PatchName shared by every patch of a run: `{park}_{mmu}_{index}_{start}_{end}_`. */
  function RunPrefix(park: string, mmu: int, index: string, startYr: int, endYr: int): string
  {
    park + "_" + IntToString(mmu) + "_" + index + "_" + IntToString(startYr) + "_" + IntToString(endYr) + "_"
  }

  /** The PatchName of one row; None where the expression raises (a null or numeric `index`). */
  function PatchNameOf(park: string, mmu: int, startYr: int, endYr: int, r: Feature): Option<Cell>
  {
    match (Get(r.attrs, "index"), StrOf(Get(r.attrs, "yod")), StrOf(Get(r.attrs, "annualID")))
    case (Some(Text(index)), Some(yod), Some(aid)) => Some(Some(Text(PatchName(park, mmu, index, startYr, endYr, yod, aid))))
    case _ => None
  }

  /** The row's PatchName can be stored: the expression succeeds and its text fits PatchName (TEXT, 50). */
  predicate PatchNameStored(park: string, mmu: int, startYr: int, endYr: int, r: Feature)
  {
    PatchNameOf(park, mmu, startYr, endYr, r).Some? && Fits(TextField(50), PatchNameOf(park, mmu, startYr, endYr, r).value)
  }

  function PatchNameCell(park: string, mmu: int, startYr: int, endYr: int): Feature -> Cell
  {
    (r: Feature) => match PatchNameOf(park, mmu, startYr, endYr, r) case Some(c) => c case None => None
  }

  /** The decimal strings of the years used in the PatchName example. */
  lemma ExampleYearStrings()
    ensures IntToString(1990) == "1990" && IntToString(2020) == "2020" && IntToString(2001) == "2001"
  {
    assert IntToString(1990) == "1990" by {
      assert NatToString(1) == "1";
      assert NatToString(19) == "19";
      assert NatToString(199) == "199";
    }
    assert IntToString(2020) == "2020" by {
      assert NatToString(2) == "2";
      assert NatToString(20) == "20";
      assert NatToString(202) == "202";
    }
    assert IntToString(2001) == "2001" by {
      assert NatToString(2) == "2";
      assert NatToString(20) == "20";
      assert NatToString(200) == "200";
    }
  }

  /** The name the PatchName expression builds for park PARK, mmu 5, index "7", 1990-2020, yod 2001, annualID 42. */
  lemma PatchNameExample()
    ensures PatchName("PARK", 5, "7", 1990, 2020, IntToString(2001), IntToString(42)) == "PARK_5_7_1990_2020_2001_42"
  {
    assert IntToString(5) == "5";
    assert IntToString(42) == "42" by {
      assert NatToString(4) == "4";
    }
    ExampleYearStrings();
    assert RunPrefix("PARK", 5, "7", 1990, 2020) == "PARK_5_7_1990_2020_";
  }

  /** Splitting at the first underscore: a prefix without '_' is determined by the string. */
  lemma SplitAtUnderscore(a: string, b: string, c: string, d: string)
    requires '_' !in a && '_' !in c
    requires a + "_" + b == c + "_" + d
    ensures a == c && b == d
  {
    var s := a + "_" + b;
    assert s[|a|] == '_' && s[|c|] == '_';
    assert forall k :: 0 <= k < |a| ==> s[k] == a[k];
    assert forall k :: 0 <= k < |c| ==> s[k] == c[k];
    assert |a| == |c|;
    assert a == s[..|a|] == c;
    assert b == s[|a| + 1..] == d;
  }

  /** Within one run (same park, mmu, index and years) the PatchName determines yod and annualID. */
  lemma PatchNameInjective(park: string, mmu: int, index: string, startYr: int, endYr: int,
                           yod1: int, aid1: int, yod2: int, aid2: int)
    requires PatchName(park, mmu, index, startYr, endYr, IntToString(yod1), IntToString(aid1)) ==
             PatchName(park, mmu, index, startYr, endYr, IntToString(yod2), IntToString(aid2))
    ensures yod1 == yod2 && aid1 == aid2
  {
    var prefix := RunPrefix(park, mmu, index, startYr, endYr);
    var s1 := IntToString(yod1) + "_" + IntToString(aid1);
    var s2 := IntToString(yod2) + "_" + IntToString(aid2);
    assert s1 == (prefix + s1)[|prefix|..] == (prefix + s2)[|prefix|..] == s2;
    SplitAtUnderscore(IntToString(yod1), IntToString(aid1), IntToString(yod2), IntToString(aid2));
    IntToStringInjective(yod1, yod2);
    IntToStringInjective(aid1, aid2);
  }

  /**
   * add_park_patch_name: Park is the park code on every row; PatchName is written when the
   * expression succeeds on every row and every name fits the field's 50 characters (`ok`), and is
   * otherwise left as Add Field left it.
   */
  method AddParkPatchName(fc: FeatureClass, park: string, mmu: int, startYr: int, endYr: int) returns (ok: bool)
    requires fc.Valid()
    modifies fc
    ensures fc.Valid()
    ensures "Park" in fc.schema && "PatchName" in fc.schema
    ensures |fc.records| == |old(fc.records)|
    ensures forall i :: 0 <= i < |fc.records| ==> fc.records[i].attrs["Park"] == Some(Text(park))
    ensures ok <==> forall i :: 0 <= i < |old(fc.records)| ==> PatchNameStored(park, mmu, startYr, endYr, old(fc.records)[i])
    ensures ok ==> forall i :: 0 <= i < |fc.records| ==>
              Some(fc.records[i].attrs["PatchName"]) == PatchNameOf(park, mmu, startYr, endYr, old(fc.records)[i])
    ensures ok ==> forall i :: 0 <= i < |fc.records| ==> Fits(TextField(50), fc.records[i].attrs["PatchName"])
  {
    ghost var rs := fc.records;
    fc.AddField("Park", TextField(4));
    fc.CalculateField("Park", TextField(4), All, Const(Some(Text(park))));
    fc.AddField("PatchName", TextField(50));
    PatchNameSteps(rs, park, mmu, startYr, endYr);
    ok := forall i :: 0 <= i < |fc.records| ==> PatchNameStored(park, mmu, startYr, endYr, fc.records[i]);
    if ok {
      fc.CalculateField("PatchName", TextField(50), All, PatchNameCell(park, mmu, startYr, endYr));
    }
  }

  /**
   * The rows after add_park_patch_name's Add Field and Calculate Field calls: Park is the park code,
   * the fields PatchName is computed from are untouched, and PatchName is then what the expression gives.
   */
  lemma PatchNameSteps(rs: seq<Feature>, park: string, mmu: int, startYr: int, endYr: int)
    ensures var rs1 := AddNullAll(AssignAll(AddNullAll(rs, "Park"), "Park", All, Const(Some(Text(park)))), "PatchName");
      var rs2 := AssignAll(rs1, "PatchName", All, PatchNameCell(park, mmu, startYr, endYr));
      && |rs1| == |rs| && |rs2| == |rs|
      && forall i :: 0 <= i < |rs| ==>
           && PatchNameOf(park, mmu, startYr, endYr, rs1[i]) == PatchNameOf(park, mmu, startYr, endYr, rs[i])
           && Get(rs1[i].attrs, "Park") == Some(Text(park)) && Get(rs2[i].attrs, "Park") == Some(Text(park))
           && "Park" in rs1[i].attrs && "Park" in rs2[i].attrs && "PatchName" in rs2[i].attrs
           && (PatchNameOf(park, mmu, startYr, endYr, rs[i]).Some? ==>
                 Some(rs2[i].attrs["PatchName"]) == PatchNameOf(park, mmu, startYr, endYr, rs[i]))
  {
    var rs0 := AssignAll(AddNullAll(rs, "Park"), "Park", All, Const(Some(Text(park))));
    AddThenSetAll(rs, "Park", Some(Text(park)));
    var rs1 := AddNullAll(rs0, "PatchName");
    var rs2 := AssignAll(rs1, "PatchName", All, PatchNameCell(park, mmu, startYr, endYr));
    forall i | 0 <= i < |rs|
      ensures PatchNameOf(park, mmu, startYr, endYr, rs1[i]) == PatchNameOf(park, mmu, startYr, endYr, rs[i])
      ensures Get(rs1[i].attrs, "Park") == Some(Text(park)) && Get(rs2[i].attrs, "Park") == Some(Text(park))
    {
      assert rs1[i] == AddNull(rs0[i], "PatchName");
      assert rs2[i] == Assign(rs1[i], "PatchName", All, PatchNameCell(park, mmu, startYr, endYr));
      assert Get(rs1[i].attrs, "index") == Get(rs[i].attrs, "index");
      assert Get(rs1[i].attrs, "yod") == Get(rs[i].attrs, "yod");
      assert Get(rs1[i].attrs, "annualID") == Get(rs[i].attrs, "annualID");
    }
  }

  // ---------------------------------------------------------------------------
  // add_overlap_prev
  // ---------------------------------------------------------------------------

  /** The layer definition of add_overlap_prev, used for both years. */
  predicate Eligible(eventsMask: bool, park: string, r: Feature)
  {
    if eventsMask then Get(r.attrs, "EventType").None?
    else if park != "LEWI" then NumEquals(Get(r.attrs, "InMask"), 0)
    else true
  }

  function EligibleSel(eventsMask: bool, park: string): Feature -> bool
  {
    (r: Feature) => Eligible(eventsMask, park, r)
  }

  /** The geometries of the eligible previous-year patches (the select features). */
  function EligibleGeoms(prev: seq<Feature>, eventsMask: bool, park: string): seq<Geom>
  {
    var kept := Filter(prev, EligibleSel(eventsMask, park));
    seq(|kept|, k requires 0 <= k < |kept| => kept[k].geom)
  }

  /** The selection made on the base layer: patches that overlap (-1 m) an eligible previous patch. */
  function OverlapSel(prev: seq<Feature>, eventsMask: bool, park: string, spatial: Spatial): Feature -> bool
  {
    (r: Feature) => RelatesToAny(spatial, IntersectInset, r.geom, EligibleGeoms(prev, eventsMask, park))
  }

  /** A base patch with geometry g overlaps (-1 m) some eligible previous patch. */
  predicate OverlapsPrev(g: Geom, prev: seq<Feature>, eventsMask: bool, park: string, spatial: Spatial)
  {
    exists k :: 0 <= k < |prev| && Eligible(eventsMask, park, prev[k]) && spatial(IntersectInset, g, prev[k].geom)
  }

  /** Selecting against the eligible previous geometries is testing each eligible previous patch. */
  lemma OverlapSelMeaning(g: Geom, prev: seq<Feature>, eventsMask: bool, park: string, spatial: Spatial)
    ensures OverlapSel(prev, eventsMask, park, spatial)(Feature(g, map[])) <==> OverlapsPrev(g, prev, eventsMask, park, spatial)
  {
    var kept := Filter(prev, EligibleSel(eventsMask, park));
    var geoms := EligibleGeoms(prev, eventsMask, park);
    if RelatesToAny(spatial, IntersectInset, g, geoms) {
      var m :| 0 <= m < |geoms| && spatial(IntersectInset, g, geoms[m]);
      assert kept[m] in kept;
      var k :| 0 <= k < |prev| && prev[k] == kept[m];
      assert Eligible(eventsMask, park, prev[k]);
    }
    if OverlapsPrev(g, prev, eventsMask, park, spatial) {
      var k :| 0 <= k < |prev| && Eligible(eventsMask, park, prev[k]) && spatial(IntersectInset, g, prev[k].geom);
      assert EligibleSel(eventsMask, park)(prev[k]);
      assert prev[k] in kept;
      var m :| 0 <= m < |kept| && kept[m] == prev[k];
      assert geoms[m] == prev[k].geom;
    }
  }

  /**
   * The base patches after add_overlap_prev: Calculate Field on the base layer writes 1 into its
   * selection, and into every eligible patch when no eligible patch overlaps.
   */
  function OverlapRows(rs: seq<Feature>, prev: seq<Feature>, park: string, eventsMask: bool, spatial: Spatial): seq<Feature>
  {
    AssignAll(rs, "OverlapPrv", ActsOn(rs, EligibleSel(eventsMask, park), OverlapSel(prev, eventsMask, park, spatial)),
              Const(Some(Int(1))))
  }

  method AddOverlapPrev(base: FeatureClass, prev: seq<Feature>, park: string, eventsMask: bool, spatial: Spatial)
    requires base.Valid() && "OverlapPrv" in base.schema
    modifies base
    ensures base.Valid() && base.schema == old(base.schema)
    ensures base.records == OverlapRows(old(base.records), prev, park, eventsMask, spatial)
  {
    base.CalculateField("OverlapPrv", ShortField,
                        ActsOn(base.records, EligibleSel(eventsMask, park), OverlapSel(prev, eventsMask, park, spatial)),
                        Const(Some(Int(1))));
  }

  /**
   * add_overlap_prev as written: OverlapPrv becomes 1 on the eligible base patches that overlap
   * an eligible previous patch -- and on every eligible base patch when none overlaps; every
   * other base patch keeps its OverlapPrv, and no other field changes.
   */
  lemma {:induction false} OverlapMeaning(rs: seq<Feature>, prev: seq<Feature>, park: string, eventsMask: bool,
                                          spatial: Spatial)
    ensures var out := OverlapRows(rs, prev, park, eventsMask, spatial);
      var noneOverlaps := forall j :: 0 <= j < |rs| && Eligible(eventsMask, park, rs[j]) ==>
                            !OverlapsPrev(rs[j].geom, prev, eventsMask, park, spatial);
      && |out| == |rs|
      && (forall i :: 0 <= i < |rs| ==>
            var flagged := Eligible(eventsMask, park, rs[i]) &&
                           (OverlapsPrev(rs[i].geom, prev, eventsMask, park, spatial) || noneOverlaps);
            out[i].attrs["OverlapPrv"] == if flagged then Some(Int(1)) else Get(rs[i].attrs, "OverlapPrv"))
      && (forall i, f :: 0 <= i < |rs| && f != "OverlapPrv" ==> Get(out[i].attrs, f) == Get(rs[i].attrs, f))
  {
    var layer := EligibleSel(eventsMask, park);
    var sel := OverlapSel(prev, eventsMask, park, spatial);
    var acts := ActsOn(rs, layer, sel);
    var out := OverlapRows(rs, prev, park, eventsMask, spatial);
    forall j | 0 <= j < |rs| ensures sel(rs[j]) <==> OverlapsPrev(rs[j].geom, prev, eventsMask, park, spatial) {
      OverlapSelMeaning(rs[j].geom, prev, eventsMask, park, spatial);
      assert sel(rs[j]) == sel(Feature(rs[j].geom, map[]));
    }
    var noneOverlaps := forall j :: 0 <= j < |rs| && Eligible(eventsMask, park, rs[j]) ==>
                          !OverlapsPrev(rs[j].geom, prev, eventsMask, park, spatial);
    assert HasSelection(rs, layer, sel) <==> !noneOverlaps;
    forall i | 0 <= i < |rs|
      ensures out[i] == Assign(rs[i], "OverlapPrv", acts, Const(Some(Int(1))))
      ensures acts(rs[i]) == (Eligible(eventsMask, park, rs[i]) &&
                              (OverlapsPrev(rs[i].geom, prev, eventsMask, park, spatial) || noneOverlaps))
    {
    }
  }

  /** A patch eligible in both years, with nothing before it that it overlaps, is flagged as overlapping. */
  lemma OverlapNoneExample(spatial: Spatial)
    ensures var rs := [Feature(0, map["OverlapPrv" := Some(Int(0))])];
      && !OverlapsPrev(rs[0].geom, [], false, "LEWI", spatial)
      && OverlapRows(rs, [], "LEWI", false, spatial)[0].attrs["OverlapPrv"] == Some(Int(1))
  {
    var rs := [Feature(0, map["OverlapPrv" := Some(Int(0))])];
    OverlapMeaning(rs, [], "LEWI", false, spatial);
  }

  /** The base patches add_overlap_prev is meant to leave: 1 on the eligible patches that overlap. */
  function IntendedOverlapRows(rs: seq<Feature>, prev: seq<Feature>, park: string, eventsMask: bool,
                               spatial: Spatial): seq<Feature>
  {
    AssignAll(rs, "OverlapPrv",
              (r: Feature) => Eligible(eventsMask, park, r) && OverlapSel(prev, eventsMask, park, spatial)(r),
              Const(Some(Int(1))))
  }

  /** add_overlap_prev with Calculate Field skipped when the selection is empty. */
  method AddOverlapPrevGuarded(base: FeatureClass, prev: seq<Feature>, park: string, eventsMask: bool, spatial: Spatial)
    requires base.Valid() && "OverlapPrv" in base.schema
    modifies base
    ensures base.Valid() && base.schema == old(base.schema)
    ensures base.records == IntendedOverlapRows(old(base.records), prev, park, eventsMask, spatial)
  {
    ghost var rs := base.records;
    var layer := EligibleSel(eventsMask, park);
    var sel := OverlapSel(prev, eventsMask, park, spatial);
    ghost var want := (r: Feature) => Eligible(eventsMask, park, r) && sel(r);
    if HasSelection(base.records, layer, sel) {
      base.CalculateField("OverlapPrv", ShortField, ActsOn(base.records, layer, sel), Const(Some(Int(1))));
      AssignSame(rs, "OverlapPrv", ActsOn(rs, layer, sel), want, Const(Some(Int(1))));
    } else {
      assert forall i :: 0 <= i < |rs| ==> "OverlapPrv" in rs[i].attrs && !want(rs[i]);
      AssignNone(rs, "OverlapPrv", want, Const(Some(Int(1))));
    }
  }

  /**
   * The intended flags: OverlapPrv becomes 1 exactly on the eligible base patches that overlap
   * some eligible previous patch; every other base patch keeps its OverlapPrv, and no other field
   * changes.
   */
  lemma {:induction false} IntendedOverlapMeaning(rs: seq<Feature>, prev: seq<Feature>, park: string, eventsMask: bool,
                                                  spatial: Spatial)
    ensures var out := IntendedOverlapRows(rs, prev, park, eventsMask, spatial);
      && |out| == |rs|
      && (forall i :: 0 <= i < |rs| ==>
            var flagged := Eligible(eventsMask, park, rs[i]) && OverlapsPrev(rs[i].geom, prev, eventsMask, park, spatial);
            out[i].attrs["OverlapPrv"] == if flagged then Some(Int(1)) else Get(rs[i].attrs, "OverlapPrv"))
      && (forall i, f :: 0 <= i < |rs| && f != "OverlapPrv" ==> Get(out[i].attrs, f) == Get(rs[i].attrs, f))
  {
    var sel := OverlapSel(prev, eventsMask, park, spatial);
    forall r: Feature ensures sel(r) <==> OverlapsPrev(r.geom, prev, eventsMask, park, spatial) {
      OverlapSelMeaning(r.geom, prev, eventsMask, park, spatial);
    }
  }

  /** When some eligible base patch overlaps, add_overlap_prev gives the intended flags. */
  lemma OverlapAsIntended(rs: seq<Feature>, prev: seq<Feature>, park: string, eventsMask: bool, spatial: Spatial)
    requires exists j :: 0 <= j < |rs| && Eligible(eventsMask, park, rs[j]) &&
                         OverlapsPrev(rs[j].geom, prev, eventsMask, park, spatial)
    ensures OverlapRows(rs, prev, park, eventsMask, spatial) == IntendedOverlapRows(rs, prev, park, eventsMask, spatial)
  {
    var layer := EligibleSel(eventsMask, park);
    var sel := OverlapSel(prev, eventsMask, park, spatial);
    var j :| 0 <= j < |rs| && Eligible(eventsMask, park, rs[j]) && OverlapsPrev(rs[j].geom, prev, eventsMask, park, spatial);
    OverlapSelMeaning(rs[j].geom, prev, eventsMask, park, spatial);
    assert sel(Feature(rs[j].geom, map[])) == sel(rs[j]);
    assert layer(rs[j]) && sel(rs[j]);
    AssignSame(rs, "OverlapPrv", ActsOn(rs, layer, sel),
               (r: Feature) => Eligible(eventsMask, park, r) && sel(r), Const(Some(Int(1))));
  }
}
