/**
 * The event fields of the patches (toolbox/eventsFunctions.py): adding the event schema, the
 * automatic "Annual Variability" label for patches in the elevation or water mask, and copying
 * joined labels (`<field>_1`) over the patch's own event fields.
 */
module Events {
  import opened Wrappers
  import opened Values
  import opened FeatureClasses
  import opened AttrUtils

  const EventFieldNames: seq<string> := [
    "EventType", "ChangeType", "Confidence", "AltType", "ChangeDesc", "EventDate", "LabeledBy",
    "PriorRun", "PostDist", "DistName", "DistYear", "Split", "MapPatch"]

  const EventFieldDefs: seq<FieldDef> := [
    FieldDef(TextKind, Some(10)), FieldDef(TextKind, Some(25)), FieldDef(ShortKind, None),
    FieldDef(TextKind, Some(25)), FieldDef(TextKind, Some(500)), FieldDef(TextKind, Some(10)),
    FieldDef(TextKind, Some(50)), FieldDef(ShortKind, None), FieldDef(ShortKind, None),
    FieldDef(TextKind, Some(100)), FieldDef(ShortKind, None), FieldDef(ShortKind, None),
    FieldDef(TextKind, Some(50))]

  // ---------------------------------------------------------------------------
  // add_event_fields
  // ---------------------------------------------------------------------------

  /** The schema and rows after Add Field for each of the first |names| fields in turn. */
  function AddFieldsFold(schema: map<string, FieldDef>, rs: seq<Feature>, names: seq<string>,
                         defs: seq<FieldDef>): (map<string, FieldDef>, seq<Feature>)
    requires |names| == |defs|
    decreases |names|
  {
    if names == [] then (schema, rs)
    else
      var k := |names| - 1;
      var prev := AddFieldsFold(schema, rs, names[..k], defs[..k]);
      (if names[k] in prev.0 then prev.0 else prev.0[names[k] := defs[k]], AddNullAll(prev.1, names[k]))
  }

  /** Adding fields keeps every row and every existing value, gives each new field a null, and adds nothing else. */
  lemma {:induction false} AddFieldsFoldRows(schema: map<string, FieldDef>, rs: seq<Feature>, names: seq<string>,
                                             defs: seq<FieldDef>)
    requires |names| == |defs|
    ensures var r := AddFieldsFold(schema, rs, names, defs);
      && |r.1| == |rs|
      && (forall i :: 0 <= i < |rs| ==> r.1[i].geom == rs[i].geom)
      && (forall i, f :: 0 <= i < |rs| ==> Get(r.1[i].attrs, f) == Get(rs[i].attrs, f))
      && (forall i, f :: 0 <= i < |rs| ==> (f in r.1[i].attrs <==> f in rs[i].attrs || f in names))
    decreases |names|
  {
    if names != [] {
      var k := |names| - 1;
      AddFieldsFoldRows(schema, rs, names[..k], defs[..k]);
      var prev := AddFieldsFold(schema, rs, names[..k], defs[..k]).1;
      var r := AddFieldsFold(schema, rs, names, defs).1;
      assert r == AddNullAll(prev, names[k]);
      assert forall f :: f in names <==> f in names[..k] || f == names[k] by {
        assert names == names[..k] + [names[k]];
      }
      forall i, f | 0 <= i < |rs|
        ensures Get(r[i].attrs, f) == Get(rs[i].attrs, f)
        ensures f in r[i].attrs <==> f in rs[i].attrs || f in names
      {
        assert r[i] == AddNull(prev[i], names[k]);
        assert Get(prev[i].attrs, f) == Get(rs[i].attrs, f);
        assert f in prev[i].attrs <==> f in rs[i].attrs || f in names[..k];
        assert f in names <==> f in names[..k] || f == names[k];
      }
    }
  }

  /** Adding fields adds exactly the new names to the schema and keeps every existing definition. */
  lemma {:induction false} AddFieldsFoldKeys(schema: map<string, FieldDef>, rs: seq<Feature>, names: seq<string>,
                                             defs: seq<FieldDef>)
    requires |names| == |defs|
    ensures var r := AddFieldsFold(schema, rs, names, defs).0;
      && (forall f :: f in r <==> f in schema || f in names)
      && (forall f :: f in schema ==> r[f] == schema[f])
    decreases |names|
  {
    if names != [] {
      var k := |names| - 1;
      AddFieldsFoldKeys(schema, rs, names[..k], defs[..k]);
      var prev := AddFieldsFold(schema, rs, names[..k], defs[..k]).0;
      var r := AddFieldsFold(schema, rs, names, defs).0;
      assert r == if names[k] in prev then prev else prev[names[k] := defs[k]];
      assert forall f :: f in names <==> f in names[..k] || f == names[k] by {
        assert names == names[..k] + [names[k]];
      }
    }
  }

  /** Each new field gets the definition given with its first occurrence. */
  lemma {:induction false} AddFieldsFoldDefs(schema: map<string, FieldDef>, rs: seq<Feature>, names: seq<string>,
                                             defs: seq<FieldDef>)
    requires |names| == |defs|
    ensures var r := AddFieldsFold(schema, rs, names, defs).0;
      forall k :: 0 <= k < |names| && names[k] !in schema && names[k] !in names[..k] ==>
        names[k] in r && r[names[k]] == defs[k]
    decreases |names|
  {
    if names != [] {
      var k := |names| - 1;
      AddFieldsFoldDefs(schema, rs, names[..k], defs[..k]);
      AddFieldsFoldKeys(schema, rs, names[..k], defs[..k]);
      var prev := AddFieldsFold(schema, rs, names[..k], defs[..k]).0;
      var r := AddFieldsFold(schema, rs, names, defs).0;
      assert r == if names[k] in prev then prev else prev[names[k] := defs[k]];
      forall j | 0 <= j < |names| && names[j] !in schema && names[j] !in names[..j]
        ensures names[j] in r && r[names[j]] == defs[j]
      {
        if j < k {
          assert names[..k][..j] == names[..j];
          assert names[j] == names[..k][j];
          assert names[j] in prev && prev[names[j]] == defs[j];
        } else {
          assert names[k] !in names[..k];
          assert names[k] !in prev;
        }
      }
    }
  }

  /**
   * add_event_fields: the 13 event fields with their types and lengths, then Split = 0 on every
   * patch; the other new fields are left null.
   */
  method AddEventFields(fc: FeatureClass)
    requires fc.Valid()
    modifies fc
    ensures fc.Valid()
    ensures var added := AddFieldsFold(old(fc.schema), old(fc.records), EventFieldNames, EventFieldDefs);
      fc.schema == added.0 && fc.records == AssignAll(added.1, "Split", All, Const(Some(Int(0))))
  {
    ghost var s0, rs0 := fc.schema, fc.records;
    var i := 0;
    while i < |EventFieldNames|
      invariant 0 <= i <= |EventFieldNames|
      invariant fc.Valid()
      invariant (fc.schema, fc.records) == AddFieldsFold(s0, rs0, EventFieldNames[..i], EventFieldDefs[..i])
    {
      assert EventFieldNames[..i + 1][..i] == EventFieldNames[..i];
      assert EventFieldDefs[..i + 1][..i] == EventFieldDefs[..i];
      fc.AddField(EventFieldNames[i], EventFieldDefs[i]);
      i := i + 1;
    }
    assert EventFieldNames[..i] == EventFieldNames && EventFieldDefs[..i] == EventFieldDefs;
    fc.CalculateField("Split", FieldDef(ShortKind, None), All, Const(Some(Int(0))));
  }

  /**
   * After add_event_fields every patch has all 13 fields, Split is 0, and every other field keeps
   * its value: an event field that existed is not reset, a new one is null.
   */
  lemma EventFieldsMeaning(schema: map<string, FieldDef>, rs: seq<Feature>)
    ensures var added := AddFieldsFold(schema, rs, EventFieldNames, EventFieldDefs);
            var out := AssignAll(added.1, "Split", All, Const(Some(Int(0))));
      && |out| == |rs|
      && (forall f :: f in EventFieldNames ==> f in added.0)
      && (forall i, f :: 0 <= i < |rs| && f in EventFieldNames ==> f in out[i].attrs)
      && (forall i :: 0 <= i < |rs| ==> Get(out[i].attrs, "Split") == Some(Int(0)))
      && (forall i, f :: 0 <= i < |rs| && f != "Split" ==> Get(out[i].attrs, f) == Get(rs[i].attrs, f))
  {
    AddFieldsFoldRows(schema, rs, EventFieldNames, EventFieldDefs);
    AddFieldsFoldKeys(schema, rs, EventFieldNames, EventFieldDefs);
    AddFieldsFoldDefs(schema, rs, EventFieldNames, EventFieldDefs);
  }

  // ---------------------------------------------------------------------------
  // add_annual_var, label_elev_mask, label_water_mask
  // ---------------------------------------------------------------------------

  /** The layers add_annual_var is called on. */
  datatype MaskLayer =
    | ElevMask                                         // where clause `InMask = 1`
    | WaterMask(water: seq<Geom>, spatial: Spatial)    // COMPLETELY_WITHIN the water mask

  predicate InLayer(layer: MaskLayer, r: Feature)
  {
    match layer
    case ElevMask => NumEquals(Get(r.attrs, "InMask"), 1)
    case WaterMask(water, spatial) => RelatesToAny(spatial, CompletelyWithin, r.geom, water)
  }

  function LayerSel(layer: MaskLayer): Feature -> bool
  {
    (r: Feature) => InLayer(layer, r)
  }

  /** No patch of the table is in the layer. */
  predicate NoneInLayer(layer: MaskLayer, rs: seq<Feature>)
  {
    forall k :: 0 <= k < |rs| ==> !InLayer(layer, rs[k])
  }

  /**
   * Whether add_annual_var's Calculate Field calls act on patch r of the table rs: the patches of
   * the elevation layer's where clause; on the water layer, the patches selected as completely
   * within water, or every patch when none is, since the selection is then empty.
   */
  predicate Labelled(layer: MaskLayer, rs: seq<Feature>, r: Feature)
  {
    InLayer(layer, r) || (layer.WaterMask? && NoneInLayer(layer, rs))
  }

  /** The rows add_annual_var's Calculate Field calls act on. */
  function LayerRows(layer: MaskLayer, rs: seq<Feature>): (acts: Feature -> bool)
    ensures forall r :: acts(r) <==> Labelled(layer, rs, r)
  {
    match layer
    case ElevMask => LayerSel(layer)
    case WaterMask(_, _) => ActsOn(rs, All, LayerSel(layer))
  }

  const AnnualVarFields: seq<string> := ["EventType", "ChangeType", "Confidence", "EventDate", "LabeledBy", "PriorRun", "PostDist"]

  /**
   * The values add_annual_var writes; `today` is `str(date.today())`. The quoted "2" and "0"
   * are stored as numbers by the SHORT fields.
   */
  function AnnualVarValues(today: string): seq<Cell>
  {
    [Some(Text("Mask")), Some(Text("Annual Variability")), Some(Int(2)), Some(Text(today)),
     Some(Text("Geoprocessing")), Some(Int(0)), Some(Int(0))]
  }

  /**
   * One row after the first n Calculate Field calls of add_annual_var; `inLayer` says whether the
   * layer selects it. An unselected row keeps its value, which is null for a field that is new.
   */
  function LabelRow(r: Feature, inLayer: bool, today: string, n: nat): Feature
    requires n <= |AnnualVarFields|
  {
    if n == 0 then r
    else
      var p := LabelRow(r, inLayer, today, n - 1);
      var f := AnnualVarFields[n - 1];
      p.(attrs := p.attrs[f := if inLayer then AnnualVarValues(today)[n - 1] else Get(p.attrs, f)])
  }

  /** The rows after add_annual_var on a layer. */
  function LabelRows(rs: seq<Feature>, layer: MaskLayer, today: string): seq<Feature>
  {
    seq(|rs|, i requires 0 <= i < |rs| => LabelRow(rs[i], Labelled(layer, rs, rs[i]), today, |AnnualVarFields|))
  }

  /**
   * Labelling a row writes the first n annual-variability values when the row is in the layer and
   * changes no value otherwise; every other field, and the geometry, are kept.
   */
  lemma {:induction false} LabelRowMeaning(r: Feature, inLayer: bool, today: string, n: nat)
    requires n <= |AnnualVarFields|
    ensures LabelRow(r, inLayer, today, n).geom == r.geom
    ensures forall k :: 0 <= k < n ==>
      Get(LabelRow(r, inLayer, today, n).attrs, AnnualVarFields[k]) ==
        if inLayer then AnnualVarValues(today)[k] else Get(r.attrs, AnnualVarFields[k])
    ensures forall f :: f !in AnnualVarFields[..n] ==> Get(LabelRow(r, inLayer, today, n).attrs, f) == Get(r.attrs, f)
  {
    if n > 0 {
      LabelRowMeaning(r, inLayer, today, n - 1);
      assert AnnualVarFields[..n] == AnnualVarFields[..n - 1] + [AnnualVarFields[n - 1]];
      forall k | 0 <= k < n - 1 ensures AnnualVarFields[k] != AnnualVarFields[n - 1] {
      }
    }
  }

  /** Labelling does not move a row in or out of either layer. */
  lemma LabelRowKeepsLayer(r: Feature, inLayer: bool, today: string, n: nat, layer: MaskLayer)
    requires n <= |AnnualVarFields|
    ensures InLayer(layer, LabelRow(r, inLayer, today, n)) == InLayer(layer, r)
  {
    LabelRowMeaning(r, inLayer, today, n);
    assert "InMask" !in AnnualVarFields[..n];
  }

  /** The first n Calculate Field calls of add_annual_var. */
  function LabelSteps(rs: seq<Feature>, layer: MaskLayer, today: string, n: nat): seq<Feature>
    requires n <= |AnnualVarFields|
  {
    if n == 0 then rs
    else
      var prev := LabelSteps(rs, layer, today, n - 1);
      AssignAll(prev, AnnualVarFields[n - 1], LayerRows(layer, prev), Const(AnnualVarValues(today)[n - 1]))
  }

  /** Whether a patch is labelled depends only on which patches are in the layer. */
  lemma LabelledSame(layer: MaskLayer, rs1: seq<Feature>, rs2: seq<Feature>, r1: Feature, r2: Feature)
    requires |rs1| == |rs2| && forall k :: 0 <= k < |rs1| ==> InLayer(layer, rs1[k]) == InLayer(layer, rs2[k])
    requires InLayer(layer, r1) == InLayer(layer, r2)
    ensures Labelled(layer, rs1, r1) == Labelled(layer, rs2, r2)
  {
  }

  lemma {:induction false} LabelStepsRows(rs: seq<Feature>, layer: MaskLayer, today: string, n: nat)
    requires n <= |AnnualVarFields|
    ensures |LabelSteps(rs, layer, today, n)| == |rs|
    ensures forall i :: 0 <= i < |rs| ==>
      LabelSteps(rs, layer, today, n)[i] == LabelRow(rs[i], Labelled(layer, rs, rs[i]), today, n)
  {
    if n > 0 {
      LabelStepsRows(rs, layer, today, n - 1);
      var prev := LabelSteps(rs, layer, today, n - 1);
      forall k | 0 <= k < |rs| ensures InLayer(layer, prev[k]) == InLayer(layer, rs[k]) {
        LabelRowKeepsLayer(rs[k], Labelled(layer, rs, rs[k]), today, n - 1, layer);
      }
      forall i | 0 <= i < |rs|
        ensures LabelSteps(rs, layer, today, n)[i] == LabelRow(rs[i], Labelled(layer, rs, rs[i]), today, n)
      {
        var p := prev[i];
        LabelledSame(layer, prev, rs, p, rs[i]);
        assert LabelSteps(rs, layer, today, n)[i] == Assign(p, AnnualVarFields[n - 1], LayerRows(layer, prev),
                                                          Const(AnnualVarValues(today)[n - 1]));
      }
    }
  }

  /** add_annual_var: one Calculate Field per field, each on the layer's patches. */
  method AddAnnualVar(fc: FeatureClass, layer: MaskLayer, today: string)
    requires fc.Valid()
    modifies fc
    ensures fc.Valid()
    ensures forall f :: f in fc.schema <==> f in old(fc.schema) || f in AnnualVarFields
    ensures fc.records == LabelRows(old(fc.records), layer, today)
  {
    ghost var s0, rs0 := fc.schema, fc.records;
    var values := AnnualVarValues(today);
    var i := 0;
    while i < |AnnualVarFields|
      invariant 0 <= i <= |AnnualVarFields|
      invariant fc.Valid()
      invariant fc.records == LabelSteps(rs0, layer, today, i)
      invariant forall f :: f in fc.schema <==> f in s0 || f in AnnualVarFields[..i]
    {
      assert AnnualVarFields[..i + 1] == AnnualVarFields[..i] + [AnnualVarFields[i]];
      ghost var before := fc.records;
      fc.CalculateField(AnnualVarFields[i], FieldDef(TextKind, None), LayerRows(layer, fc.records), Const(values[i]));
      assert fc.records == AssignAll(before, AnnualVarFields[i], LayerRows(layer, before), Const(AnnualVarValues(today)[i]));
      i := i + 1;
    }
    assert AnnualVarFields[..i] == AnnualVarFields;
    LabelStepsRows(rs0, layer, today, i);
    assert forall k :: 0 <= k < |rs0| ==> fc.records[k] == LabelRows(rs0, layer, today)[k];
  }

  /** label_elev_mask: add_annual_var on the patches with InMask = 1. */
  method LabelElevMask(fc: FeatureClass, today: string)
    requires fc.Valid()
    modifies fc
    ensures fc.Valid()
    ensures fc.records == LabelRows(old(fc.records), ElevMask, today)
  {
    AddAnnualVar(fc, ElevMask, today);
  }

  /** label_water_mask: add_annual_var on the patches completely within the water mask. */
  method LabelWaterMask(fc: FeatureClass, water: seq<Geom>, spatial: Spatial, today: string)
    requires fc.Valid()
    modifies fc
    ensures fc.Valid()
    ensures fc.records == LabelRows(old(fc.records), WaterMask(water, spatial), today)
  {
    AddAnnualVar(fc, WaterMask(water, spatial), today);
  }

  /**
   * As written, label_water_mask labels a patch that lies outside the water mask when no patch is
   * completely within it: the empty selection leaves add_annual_var acting on the whole layer.
   */
  lemma WaterMaskEmptyExample(r: Feature, spatial: Spatial, today: string)
    ensures !InLayer(WaterMask([], spatial), r)
    ensures Get(LabelRows([r], WaterMask([], spatial), today)[0].attrs, "EventType") == Some(Text("Mask"))
  {
    var w := WaterMask([], spatial);
    assert NoneInLayer(w, [r]);
    LabelRowsMeaning([r], w, today);
  }

  /**
   * label_water_mask as intended: only the patches completely within the water mask receive the
   * seven annual-variability values; every other patch keeps every value, and no field other than
   * those seven changes. It calls add_annual_var only when the selection holds a patch.
   */
  method LabelWaterMaskGuarded(fc: FeatureClass, water: seq<Geom>, spatial: Spatial, today: string)
    requires fc.Valid()
    modifies fc
    ensures fc.Valid()
    ensures |fc.records| == |old(fc.records)|
    ensures forall i :: 0 <= i < |fc.records| ==> fc.records[i].geom == old(fc.records)[i].geom
    ensures forall i, k :: 0 <= i < |fc.records| && 0 <= k < |AnnualVarFields| ==>
      (InLayer(WaterMask(water, spatial), old(fc.records)[i]) ==> Get(fc.records[i].attrs, AnnualVarFields[k]) == AnnualVarValues(today)[k])
    ensures forall i, f :: 0 <= i < |fc.records| && !InLayer(WaterMask(water, spatial), old(fc.records)[i]) ==>
      Get(fc.records[i].attrs, f) == Get(old(fc.records)[i].attrs, f)
    ensures forall i, f :: 0 <= i < |fc.records| && f !in AnnualVarFields ==>
      Get(fc.records[i].attrs, f) == Get(old(fc.records)[i].attrs, f)
  {
    var w := WaterMask(water, spatial);
    ghost var rs := fc.records;
    if HasSelection(fc.records, All, LayerSel(w)) {
      AddAnnualVar(fc, w, today);
      LabelRowsMeaning(rs, w, today);
      forall k | 0 <= k < |rs| ensures Labelled(w, rs, rs[k]) == InLayer(w, rs[k]) {
      }
    }
  }

  /**
   * A patch in the layer holds exactly the seven annual-variability values; a patch outside it
   * keeps every value; every other field and the geometry are unchanged.
   */
  lemma LabelRowsMeaning(rs: seq<Feature>, layer: MaskLayer, today: string)
    ensures var out := LabelRows(rs, layer, today);
      && |out| == |rs|
      && (forall i :: 0 <= i < |rs| ==> out[i].geom == rs[i].geom)
      && (forall i :: 0 <= i < |rs| && Labelled(layer, rs, rs[i]) ==>
            && Get(out[i].attrs, "EventType") == Some(Text("Mask"))
            && Get(out[i].attrs, "ChangeType") == Some(Text("Annual Variability"))
            && Get(out[i].attrs, "Confidence") == Some(Int(2))
            && Get(out[i].attrs, "EventDate") == Some(Text(today))
            && Get(out[i].attrs, "LabeledBy") == Some(Text("Geoprocessing"))
            && Get(out[i].attrs, "PriorRun") == Some(Int(0))
            && Get(out[i].attrs, "PostDist") == Some(Int(0)))
      && (forall i, f :: 0 <= i < |rs| && !Labelled(layer, rs, rs[i]) ==> Get(out[i].attrs, f) == Get(rs[i].attrs, f))
      && (forall i, f :: 0 <= i < |rs| && f !in AnnualVarFields ==> Get(out[i].attrs, f) == Get(rs[i].attrs, f))
  {
    var out := LabelRows(rs, layer, today);
    var n := |AnnualVarFields|;
    assert AnnualVarFields[..n] == AnnualVarFields;
    forall i | 0 <= i < |rs| ensures out[i] == LabelRow(rs[i], Labelled(layer, rs, rs[i]), today, n) {
    }
    forall i | 0 <= i < |rs|
      ensures out[i].geom == rs[i].geom
      ensures forall k :: 0 <= k < n ==>
        Get(out[i].attrs, AnnualVarFields[k]) ==
          if Labelled(layer, rs, rs[i]) then AnnualVarValues(today)[k] else Get(rs[i].attrs, AnnualVarFields[k])
      ensures forall f :: f !in AnnualVarFields ==> Get(out[i].attrs, f) == Get(rs[i].attrs, f)
    {
      LabelRowMeaning(rs[i], Labelled(layer, rs, rs[i]), today, n);
    }
    forall i, f | 0 <= i < |rs| && !Labelled(layer, rs, rs[i]) ensures Get(out[i].attrs, f) == Get(rs[i].attrs, f) {
      if f in AnnualVarFields {
        var k :| 0 <= k < n && AnnualVarFields[k] == f;
      }
    }
    forall i | 0 <= i < |rs| && Labelled(layer, rs, rs[i])
      ensures Get(out[i].attrs, "EventType") == Some(Text("Mask"))
      ensures Get(out[i].attrs, "ChangeType") == Some(Text("Annual Variability"))
      ensures Get(out[i].attrs, "Confidence") == Some(Int(2))
      ensures Get(out[i].attrs, "EventDate") == Some(Text(today))
      ensures Get(out[i].attrs, "LabeledBy") == Some(Text("Geoprocessing"))
      ensures Get(out[i].attrs, "PriorRun") == Some(Int(0))
      ensures Get(out[i].attrs, "PostDist") == Some(Int(0))
    {
      assert AnnualVarFields[0] == "EventType" && AnnualVarFields[1] == "ChangeType";
      assert AnnualVarFields[2] == "Confidence" && AnnualVarFields[3] == "EventDate";
      assert AnnualVarFields[4] == "LabeledBy" && AnnualVarFields[5] == "PriorRun" && AnnualVarFields[6] == "PostDist";
    }
  }

  /**
   * Labelling with the elevation mask and then with the water mask (same date) gives every patch
   * in either mask the seven annual-variability values, as labelling it once would, and changes no
   * value of any other patch or of any other field.
   */
  lemma {:induction false} LabelBothMasks(rs: seq<Feature>, water: seq<Geom>, spatial: Spatial, today: string)
    ensures var out := LabelRows(LabelRows(rs, ElevMask, today), WaterMask(water, spatial), today);
      && |out| == |rs|
      && (forall i, k :: 0 <= i < |rs| && 0 <= k < |AnnualVarFields| ==>
            Get(out[i].attrs, AnnualVarFields[k]) ==
              if InLayer(ElevMask, rs[i]) || Labelled(WaterMask(water, spatial), rs, rs[i])
              then AnnualVarValues(today)[k] else Get(rs[i].attrs, AnnualVarFields[k]))
      && (forall i, f :: 0 <= i < |rs| && f !in AnnualVarFields ==> Get(out[i].attrs, f) == Get(rs[i].attrs, f))
  {
    var n := |AnnualVarFields|;
    var w := WaterMask(water, spatial);
    var once := LabelRows(rs, ElevMask, today);
    var out := LabelRows(once, w, today);
    assert AnnualVarFields[..n] == AnnualVarFields;
    forall k | 0 <= k < |rs| ensures InLayer(w, once[k]) == InLayer(w, rs[k]) {
      LabelRowKeepsLayer(rs[k], InLayer(ElevMask, rs[k]), today, n, w);
    }
    forall i | 0 <= i < |rs|
      ensures forall k :: 0 <= k < n ==>
        Get(out[i].attrs, AnnualVarFields[k]) ==
          if InLayer(ElevMask, rs[i]) || Labelled(w, rs, rs[i]) then AnnualVarValues(today)[k] else Get(rs[i].attrs, AnnualVarFields[k])
      ensures forall f :: f !in AnnualVarFields ==> Get(out[i].attrs, f) == Get(rs[i].attrs, f)
    {
      var e := InLayer(ElevMask, rs[i]);
      LabelRowMeaning(rs[i], e, today, n);
      LabelRowKeepsLayer(rs[i], e, today, n, w);
      assert once[i] == LabelRow(rs[i], e, today, n);
      LabelledSame(w, once, rs, once[i], rs[i]);
      LabelRowMeaning(once[i], Labelled(w, rs, rs[i]), today, n);
      assert out[i] == LabelRow(once[i], Labelled(w, rs, rs[i]), today, n);
    }
  }

  // ---------------------------------------------------------------------------
  // update_event_fields
  // ---------------------------------------------------------------------------

  const UpdatedFields: seq<string> := ["EventType", "ChangeType", "Confidence", "AltType", "ChangeType", "DistYear", "DistName"]
  const JoinedFields: seq<string> := ["EventType_1", "ChangeType_1", "Confidence_1", "AltType_1", "ChangeType_1", "DistYear_1", "DistName_1"]

  /** The Calculate Field calls of update_event_fields, as copy steps; a missing target would be created as text. */
  function UpdateArgs(): RenameArgs
  {
    Lists(JoinedFields, UpdatedFields, seq(|UpdatedFields|, _ => FieldDef(TextKind, None)))
  }

  /** Calculate Field `f = !o!` on every row is a copy step (its Add Field would add nothing more). */
  lemma CalculateIsCopyStep(schema: map<string, FieldDef>, rs: seq<Feature>, o: string, n: string, d: FieldDef)
    ensures CopyStep((schema, rs), o, n, d) ==
            (if n in schema then schema else schema[n := d], AssignAll(rs, n, All, CopyOf(o)))
  {
    var a := AssignAll(AddNullAll(rs, n), n, All, CopyOf(o));
    var b := AssignAll(rs, n, All, CopyOf(o));
    forall i | 0 <= i < |rs| ensures a[i] == b[i] {
      assert Get(AddNull(rs[i], n).attrs, o) == Get(rs[i].attrs, o);
      assert a[i].attrs == b[i].attrs;
    }
    assert a == b;
  }

  /**
   * update_event_fields: every listed event field takes the value of its `_1` field, whatever it
   * held before, then the `_1` fields are deleted. The `_1` fields must exist, as the expressions
   * read them.
   */
  method UpdateEventFields(fc: FeatureClass)
    requires fc.Valid()
    requires forall f :: f in JoinedFields ==> f in fc.schema
    modifies fc
    ensures fc.Valid()
    ensures (fc.schema, fc.records) == Renamed(old(fc.schema), old(fc.records), UpdateArgs())
  {
    var args := UpdateArgs();
    ghost var st0 := (fc.schema, fc.records);
    var i := 0;
    while i < |UpdatedFields|
      invariant 0 <= i <= |UpdatedFields|
      invariant fc.Valid()
      invariant (fc.schema, fc.records) == CopyFold(st0, JoinedFields[..i], UpdatedFields[..i], args.defs[..i])
    {
      assert JoinedFields[..i + 1][..i] == JoinedFields[..i];
      assert UpdatedFields[..i + 1][..i] == UpdatedFields[..i];
      assert args.defs[..i + 1][..i] == args.defs[..i];
      CalculateIsCopyStep(fc.schema, fc.records, JoinedFields[i], UpdatedFields[i], args.defs[i]);
      fc.CalculateField(UpdatedFields[i], args.defs[i], All, CopyOf(JoinedFields[i]));
      i := i + 1;
    }
    assert JoinedFields[..i] == JoinedFields && UpdatedFields[..i] == UpdatedFields && args.defs[..i] == args.defs;
    fc.DeleteFields(JoinedFields);
  }

  /**
   * After update_event_fields each of EventType, ChangeType, Confidence, AltType, DistYear and
   * DistName holds the joined value, the `_1` fields are gone, and every other field -- ChangeDesc
   * among them -- is unchanged.
   */
  lemma UpdateEventFieldsMeaning(schema: map<string, FieldDef>, rs: seq<Feature>)
    ensures var out := Renamed(schema, rs, UpdateArgs()).1;
      && |out| == |rs|
      && (forall i, k :: 0 <= i < |rs| && 0 <= k < |UpdatedFields| ==>
            Get(out[i].attrs, UpdatedFields[k]) == Get(rs[i].attrs, UpdatedFields[k] + "_1"))
      && (forall i, f :: 0 <= i < |rs| && f in JoinedFields ==> f !in out[i].attrs)
      && (forall i, f :: 0 <= i < |rs| && f !in JoinedFields && f !in UpdatedFields ==>
            Get(out[i].attrs, f) == Get(rs[i].attrs, f))
      && (forall i :: 0 <= i < |rs| ==> Get(out[i].attrs, "ChangeDesc") == Get(rs[i].attrs, "ChangeDesc"))
  {
    var args := UpdateArgs();
    UpdateArgsFacts();
    RenamedMeaning(schema, rs, args);
    var out := Renamed(schema, rs, args).1;
    forall i, k | 0 <= i < |rs| && 0 <= k < |UpdatedFields|
      ensures Get(out[i].attrs, UpdatedFields[k]) == Get(rs[i].attrs, UpdatedFields[k] + "_1")
    {
      assert Get(out[i].attrs, args.News()[k]) == Get(rs[i].attrs, args.Olds()[k]);
    }
  }

  /** The copy steps of update_event_fields read each `_1` field into the field of the same name, and leave ChangeDesc alone. */
  lemma UpdateArgsFacts()
    ensures UpdateArgs().WellFormed()
    ensures UpdateArgs().Olds() == JoinedFields && UpdateArgs().News() == UpdatedFields
    ensures forall k :: 0 <= k < |UpdatedFields| ==> JoinedFields[k] == UpdatedFields[k] + "_1"
    ensures forall j, k :: 0 <= j < |UpdatedFields| && 0 <= k < |UpdatedFields| && UpdatedFields[j] == UpdatedFields[k] ==>
              JoinedFields[j] == JoinedFields[k]
    ensures forall j, k :: 0 <= j < |UpdatedFields| && 0 <= k < |JoinedFields| ==> UpdatedFields[j] != JoinedFields[k]
    ensures "ChangeDesc" !in JoinedFields && "ChangeDesc" !in UpdatedFields
  {
  }
}
