/**
 * The primary function of the Add Attributes tool (toolbox/addAttr.py): the inputs it takes from
 * the park geodatabase, which depend on the park, and the fixed order of the attribute stages it
 * runs on one year's patches. The stages themselves are modelled in AttrUtils and AttrFunctions;
 * here each is recorded with the inputs it is given.
 */
module AddAttr {
  import opened Wrappers
  import opened FeatureClasses

  /** The items of the park geodatabase the stages read; LEWI has no vegetation table, mask, protected areas or east/west polygons. */
  datatype ParkInputs = ParkInputs(
    studyArea: string, dem: string, slope: string, aspect: string, vegRaster: string,
    vegTypeTable: Option<string>, mask: Option<string>, protectedAreas: Option<string>, eastWest: Option<string>,
    landMgmtWild: string, parkBoundary: string, buffer: string, watershed: string)

  /** The paths add_attr_patches builds from `park_path` (the geodatabase path followed by the park prefix). */
  function ParkInputsFor(park: string, parkPath: string): ParkInputs
  {
    var lewi := park == "LEWI";
    ParkInputs(
      parkPath + "study_area_fc", parkPath + "dem_rst", parkPath + "slope_rst", parkPath + "aspect_rst",
      parkPath + "veg_rst",
      if lewi then None else Some(parkPath + "veg_type_tbl"),
      if lewi then None else Some(parkPath + "mask_fc"),
      if lewi then None else Some(parkPath + "protected_fc"),
      if lewi then None else Some(parkPath + "east_west_fc"),
      parkPath + "land_mgmt_wild_fc", parkPath + "park_bndry_fc", parkPath + "buff_fc", parkPath + "watershed_fc")
  }

  /**
   * Every input is an item of the park geodatabase with the park prefix; the four optional ones
   * are missing exactly for LEWI, and present, each with its own suffix, for every other park.
   */
  lemma ParkInputsMeaning(park: string, parkPath: string)
    ensures var p := ParkInputsFor(park, parkPath);
      && (park == "LEWI" <==> p.vegTypeTable.None?)
      && (park == "LEWI" <==> p.mask.None?)
      && (park == "LEWI" <==> p.protectedAreas.None?)
      && (park == "LEWI" <==> p.eastWest.None?)
      && (p.mask.Some? ==> p.mask.value == parkPath + "mask_fc")
      && (p.vegTypeTable.Some? ==> p.vegTypeTable.value == parkPath + "veg_type_tbl")
      && (p.protectedAreas.Some? ==> p.protectedAreas.value == parkPath + "protected_fc")
      && (p.eastWest.Some? ==> p.eastWest.value == parkPath + "east_west_fc")
      && parkPath <= p.studyArea && parkPath <= p.dem && parkPath <= p.slope && parkPath <= p.aspect
      && parkPath <= p.vegRaster && parkPath <= p.landMgmtWild && parkPath <= p.parkBoundary
      && parkPath <= p.buffer && parkPath <= p.watershed
  {
  }

  /** The attribute stages of add_attr_patches, each with the inputs it is given. */
  datatype Stage =
    | DeleteExisting                                              // del_existing_fields
    | ClipToStudyArea(studyArea: string, mmu: Option<int>)        // clip_patches
    | Coords                                                      // add_coords
    | CentralPoints                                               // create_central_points
    | PointAttrs(landMgmtWild: string, watershed: string, parkBoundary: string, buffer: string,
                 protectedAreas: Option<string>, eastWest: Option<string>)   // add_attrs_points
    | InMask(mask: string, rel: Relationship)                     // select_calculate on InMask
    | VegType(vegRaster: string, vegTypeTable: Option<string>)    // add_veg_type
    | ZonalStat(raster: string, stat: string, field: string)      // zonal_stats_rename_field
    | ZonalGeometry                                               // add_zonal_geometry

  /** The position of a stage kind in the fixed order. */
  function Rank(s: Stage): nat
  {
    match s
    case DeleteExisting => 0
    case ClipToStudyArea(_, _) => 1
    case Coords => 2
    case CentralPoints => 3
    case PointAttrs(_, _, _, _, _, _) => 4
    case InMask(_, _) => 5
    case VegType(_, _) => 6
    case ZonalStat(_, _, _) => 7
    case ZonalGeometry => 8
  }

  /** The stages run in the fixed order of their kinds. */
  predicate Ordered(stages: seq<Stage>)
  {
    forall i, j :: 0 <= i < j < |stages| ==> Rank(stages[i]) <= Rank(stages[j])
  }

  /** Stages that all have kinds between lo and hi. */
  predicate RanksWithin(stages: seq<Stage>, lo: nat, hi: nat)
  {
    forall x :: x in stages ==> lo <= Rank(x) <= hi
  }

  /** Two ordered runs of stages make an ordered run when the kinds of the first end where those of the second begin. */
  lemma OrderedConcat(a: seq<Stage>, b: seq<Stage>, lo: nat, m: nat, hi: nat)
    requires lo <= m <= hi
    requires Ordered(a) && Ordered(b) && RanksWithin(a, lo, m) && RanksWithin(b, m, hi)
    ensures Ordered(a + b) && RanksWithin(a + b, lo, hi)
  {
    var t := a + b;
    forall i, j | 0 <= i < j < |t|
      ensures Rank(t[i]) <= Rank(t[j])
    {
      if i < |a| <= j {
        assert a[i] in a && b[j - |a|] in b;
      }
    }
  }

  /** Stages of one kind are trivially in order. */
  lemma OrderedOneKind(stages: seq<Stage>, r: nat)
    requires RanksWithin(stages, r, r)
    ensures Ordered(stages)
  {
    forall i, j | 0 <= i < j < |stages|
      ensures Rank(stages[i]) <= Rank(stages[j])
    {
      assert stages[i] in stages && stages[j] in stages;
    }
  }

  /** The optional clipping stage. */
  function ClipPart(inputs: ParkInputs, clipPatches: bool, mmu: Option<int>): seq<Stage>
  {
    if clipPatches then [ClipToStudyArea(inputs.studyArea, mmu)] else []
  }

  /** The coordinate and point stages. */
  function PointPart(inputs: ParkInputs): seq<Stage>
  {
    [Coords, CentralPoints,
     PointAttrs(inputs.landMgmtWild, inputs.watershed, inputs.parkBoundary, inputs.buffer,
                inputs.protectedAreas, inputs.eastWest)]
  }

  /** The optional InMask stage. */
  function MaskPart(inputs: ParkInputs): seq<Stage>
  {
    if inputs.mask.Some? then [InMask(inputs.mask.value, CompletelyWithin)] else []
  }

  /** The raster and geometry stages. */
  function ZonalPart(inputs: ParkInputs): seq<Stage>
  {
    [VegType(inputs.vegRaster, inputs.vegTypeTable),
     ZonalStat(inputs.dem, "MEAN", "ElevMean"), ZonalStat(inputs.slope, "MEAN", "SlopeMean"),
     ZonalStat(inputs.aspect, "MAJORITY", "Aspect"), ZonalGeometry]
  }

  /**
   * add_attr_patches: deletes the derived fields, then runs the attribute stages in their fixed
   * order; clipping only when asked, InMask (completely within the mask) only for parks that have
   * a mask.
   */
  function AddAttrPatches(park: string, parkPath: string, clipPatches: bool, mmu: Option<int>): (stages: seq<Stage>)
    ensures |stages| > 0 && stages[0] == DeleteExisting && stages[|stages| - 1] == ZonalGeometry
    ensures ZonalStat(parkPath + "dem_rst", "MEAN", "ElevMean") in stages
  {
    var inputs := ParkInputsFor(park, parkPath);
    [DeleteExisting] + (ClipPart(inputs, clipPatches, mmu) + PointPart(inputs) + MaskPart(inputs) + ZonalPart(inputs))
  }

  /** The point stages and the raster stages are each in order, and their kinds do not overlap. */
  lemma PartsOrdered(inputs: ParkInputs)
    ensures Ordered(PointPart(inputs)) && RanksWithin(PointPart(inputs), 2, 4)
    ensures Ordered(ZonalPart(inputs)) && RanksWithin(ZonalPart(inputs), 6, 8)
  {
  }

  /** The stages run in the order of their kinds, and the derived fields are deleted first and only then. */
  lemma StagesOrdered(park: string, parkPath: string, clipPatches: bool, mmu: Option<int>)
    ensures Ordered(AddAttrPatches(park, parkPath, clipPatches, mmu))
    ensures DeleteExisting !in AddAttrPatches(park, parkPath, clipPatches, mmu)[1..]
  {
    var inputs := ParkInputsFor(park, parkPath);
    var clip, points, mask, zonal := ClipPart(inputs, clipPatches, mmu), PointPart(inputs), MaskPart(inputs), ZonalPart(inputs);
    PartsOrdered(inputs);
    OrderedOneKind([DeleteExisting], 0);
    OrderedOneKind(clip, 1);
    OrderedOneKind(mask, 5);
    OrderedConcat(clip, points, 1, 2, 4);
    OrderedConcat(clip + points, mask, 1, 5, 5);
    OrderedConcat(clip + points + mask, zonal, 1, 6, 8);
    var rest := clip + points + mask + zonal;
    OrderedConcat([DeleteExisting], rest, 0, 1, 8);
    assert AddAttrPatches(park, parkPath, clipPatches, mmu) == [DeleteExisting] + rest;
    assert ([DeleteExisting] + rest)[1..] == rest;
  }

  /** Clipping to the study area, with the minimum mapping unit, happens exactly when asked. */
  lemma StagesClip(park: string, parkPath: string, clipPatches: bool, mmu: Option<int>)
    ensures var stages := AddAttrPatches(park, parkPath, clipPatches, mmu);
      && (clipPatches <==> ClipToStudyArea(parkPath + "study_area_fc", mmu) in stages)
      && (forall s :: s in stages && s.ClipToStudyArea? ==> s == ClipToStudyArea(parkPath + "study_area_fc", mmu))
  {
    var inputs := ParkInputsFor(park, parkPath);
    var clip, points, mask, zonal := ClipPart(inputs, clipPatches, mmu), PointPart(inputs), MaskPart(inputs), ZonalPart(inputs);
    assert AddAttrPatches(park, parkPath, clipPatches, mmu) == [DeleteExisting] + (clip + points + mask + zonal);
    assert forall s :: s in [DeleteExisting] + points + mask + zonal ==> !s.ClipToStudyArea?;
  }

  /**
   * InMask on the park's mask, completely within, runs exactly for parks other than LEWI, whose
   * point stage also has no protected areas or east/west polygons.
   */
  lemma StagesForPark(park: string, parkPath: string, clipPatches: bool, mmu: Option<int>)
    ensures var stages := AddAttrPatches(park, parkPath, clipPatches, mmu);
      && (park != "LEWI" <==> InMask(parkPath + "mask_fc", CompletelyWithin) in stages)
      && (forall s :: s in stages && s.InMask? ==> s == InMask(parkPath + "mask_fc", CompletelyWithin))
      && (forall s :: s in stages && s.PointAttrs? ==>
            (s.protectedAreas.None? <==> park == "LEWI") && (s.eastWest.None? <==> park == "LEWI"))
  {
    var inputs := ParkInputsFor(park, parkPath);
    var clip, points, mask, zonal := ClipPart(inputs, clipPatches, mmu), PointPart(inputs), MaskPart(inputs), ZonalPart(inputs);
    assert AddAttrPatches(park, parkPath, clipPatches, mmu) == [DeleteExisting] + (clip + points + mask + zonal);
    assert forall s :: s in [DeleteExisting] + clip + zonal ==> !s.InMask? && !s.PointAttrs?;
    assert forall s :: s in points ==> !s.InMask?;
    assert forall s :: s in mask ==> !s.PointAttrs?;
  }
}
