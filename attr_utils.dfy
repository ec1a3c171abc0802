/**
 * The table utilities of the attribute tool (toolbox/addAttrUtils.py): renaming a field by
 * copying it, the two-pass 0/1 flag from a selection by location, removing previously
 * derived attribute fields, and keeping `area`/`perim` in step with the geometry.
 */
module AttrUtils {
  import opened Wrappers
  import opened Values
  import opened FeatureClasses

  const ShortField := FieldDef(ShortKind, None)
  const LongField := FieldDef(LongKind, None)

  /** The selection that holds every row. */
  predicate All(r: Feature)
  {
    true
  }

  /** The expression `!o!`: the row's value of field o. */
  function CopyOf(o: string): Feature -> Cell
  {
    (r: Feature) => Get(r.attrs, o)
  }

  /** A constant expression. */
  function Const(c: Cell): Feature -> Cell
  {
    (r: Feature) => c
  }

  /** Add Field followed by Calculate Field on every row sets the field to the constant in every row, whether it existed or not. */
  lemma AddThenSetAll(rs: seq<Feature>, name: string, c: Cell)
    ensures var out := AssignAll(AddNullAll(rs, name), name, All, Const(c));
      && |out| == |rs|
      && forall i :: 0 <= i < |rs| ==> out[i] == rs[i].(attrs := rs[i].attrs[name := c])
  {
    var out := AssignAll(AddNullAll(rs, name), name, All, Const(c));
    forall i | 0 <= i < |rs|
      ensures out[i] == rs[i].(attrs := rs[i].attrs[name := c])
    {
      assert out[i] == Assign(AddNull(rs[i], name), name, All, Const(c));
    }
  }

  // ---------------------------------------------------------------------------
  // rename_field
  // ---------------------------------------------------------------------------

  /** The arguments of rename_field: scalars, which it wraps into one-element lists, or lists. */
  datatype RenameArgs =
    | Single(oldField: string, newField: string, def: FieldDef)
    | Lists(oldFields: seq<string>, newFields: seq<string>, defs: seq<FieldDef>)
  {
    function Olds(): seq<string> { if Single? then [oldField] else oldFields }
    function News(): seq<string> { if Single? then [newField] else newFields }
    function Defs(): seq<FieldDef> { if Single? then [def] else defs }

    /** rename_field indexes the three lists in step. */
    predicate WellFormed()
    {
      |Olds()| == |News()| == |Defs()|
    }
  }

  /** Add Field for the new name, then Calculate Field `new = !old!` on every row. */
  function CopyStep(st: (map<string, FieldDef>, seq<Feature>), o: string, n: string, d: FieldDef)
    : (map<string, FieldDef>, seq<Feature>)
  {
    var schema := if n in st.0 then st.0 else st.0[n := d];
    (schema, AssignAll(AddNullAll(st.1, n), n, All, CopyOf(o)))
  }

  /** The copy loop of rename_field over the first |olds| fields. */
  function CopyFold(st: (map<string, FieldDef>, seq<Feature>), olds: seq<string>, news: seq<string>,
                    defs: seq<FieldDef>): (map<string, FieldDef>, seq<Feature>)
    requires |olds| == |news| == |defs|
    decreases |olds|
  {
    if olds == [] then st
    else
      var k := |olds| - 1;
      CopyStep(CopyFold(st, olds[..k], news[..k], defs[..k]), olds[k], news[k], defs[k])
  }

  /** rename_field's effect: every new field copied from its old field, then the old fields deleted. */
  function Renamed(schema: map<string, FieldDef>, rs: seq<Feature>, args: RenameArgs)
    : (map<string, FieldDef>, seq<Feature>)
    requires args.WellFormed()
  {
    var st := CopyFold((schema, rs), args.Olds(), args.News(), args.Defs());
    var drop := set f | f in args.Olds();
    (st.0 - drop, DropAll(st.1, drop))
  }

  method RenameField(fc: FeatureClass, args: RenameArgs)
    requires fc.Valid() && args.WellFormed()
    modifies fc
    ensures fc.Valid()
    ensures (fc.schema, fc.records) == Renamed(old(fc.schema), old(fc.records), args)
  {
    var olds, news, defs := args.Olds(), args.News(), args.Defs();
    ghost var st0 := (fc.schema, fc.records);
    var i := 0;
    while i < |olds|
      invariant 0 <= i <= |olds|
      invariant fc.Valid()
      invariant (fc.schema, fc.records) == CopyFold(st0, olds[..i], news[..i], defs[..i])
    {
      assert olds[..i + 1][..i] == olds[..i] && news[..i + 1][..i] == news[..i] && defs[..i + 1][..i] == defs[..i];
      fc.AddField(news[i], defs[i]);
      fc.CalculateField(news[i], defs[i], All, CopyOf(olds[i]));
      i := i + 1;
    }
    assert olds[..i] == olds && news[..i] == news && defs[..i] == defs;
    fc.DeleteFields(olds);
  }

  /** One copy step: the new field holds the old field's value, every other field keeps its own. */
  lemma CopyStepMeaning(st: (map<string, FieldDef>, seq<Feature>), o: string, n: string, d: FieldDef)
    ensures var next := CopyStep(st, o, n, d).1;
      && |next| == |st.1|
      && (forall i :: 0 <= i < |st.1| ==> next[i].geom == st.1[i].geom)
      && (forall i :: 0 <= i < |st.1| ==> Get(next[i].attrs, n) == Get(st.1[i].attrs, o))
      && (forall i, f :: 0 <= i < |st.1| && f != n ==> Get(next[i].attrs, f) == Get(st.1[i].attrs, f))
  {
  }

  /** The copy loop leaves the geometry and the number of rows alone and sets each new field. */
  lemma {:induction false} CopyFoldMeaning(st: (map<string, FieldDef>, seq<Feature>), olds: seq<string>,
                                           news: seq<string>, defs: seq<FieldDef>)
    requires |olds| == |news| == |defs|
    requires forall j, k :: 0 <= j < |news| && 0 <= k < |news| && news[j] == news[k] ==> olds[j] == olds[k]
    requires forall j, k :: 0 <= j < |news| && 0 <= k < |olds| ==> news[j] != olds[k]
    ensures |CopyFold(st, olds, news, defs).1| == |st.1|
    ensures forall i :: 0 <= i < |st.1| ==> CopyFold(st, olds, news, defs).1[i].geom == st.1[i].geom
    ensures forall i, j :: 0 <= i < |st.1| && 0 <= j < |news| ==>
              Get(CopyFold(st, olds, news, defs).1[i].attrs, news[j]) == Get(st.1[i].attrs, olds[j])
    ensures forall i, f :: 0 <= i < |st.1| && f !in news ==>
              Get(CopyFold(st, olds, news, defs).1[i].attrs, f) == Get(st.1[i].attrs, f)
    decreases |olds|
  {
    if olds != [] {
      var k := |olds| - 1;
      var olds', news', defs' := olds[..k], news[..k], defs[..k];
      assert forall j :: 0 <= j < k ==> news'[j] == news[j] && olds'[j] == olds[j];
      CopyFoldMeaning(st, olds', news', defs');
      var prev := CopyFold(st, olds', news', defs');
      CopyStepMeaning(prev, olds[k], news[k], defs[k]);
      var next := CopyFold(st, olds, news, defs);
      assert next == CopyStep(prev, olds[k], news[k], defs[k]);
      forall i, j | 0 <= i < |st.1| && 0 <= j < |news|
        ensures Get(next.1[i].attrs, news[j]) == Get(st.1[i].attrs, olds[j])
      {
        if j < k && news[j] != news[k] {
          assert Get(next.1[i].attrs, news[j]) == Get(prev.1[i].attrs, news'[j]);
        } else if j < k {
          assert olds[j] == olds[k];
          assert olds[k] !in news' by {
            forall j' | 0 <= j' < k ensures news'[j'] != olds[k] {
              assert news'[j'] == news[j'];
            }
          }
        } else {
          assert olds[k] !in news' by {
            forall j' | 0 <= j' < k ensures news'[j'] != olds[k] {
              assert news'[j'] == news[j'];
            }
          }
        }
      }
      forall i, f | 0 <= i < |st.1| && f !in news
        ensures Get(next.1[i].attrs, f) == Get(st.1[i].attrs, f)
      {
        assert f != news[k];
        assert f !in news' by {
          forall j' | 0 <= j' < k ensures news'[j'] != f {
            assert news'[j'] == news[j'];
          }
        }
      }
    }
  }

  /**
   * rename_field where no new name is an old name and a new name listed twice has the same old
   * name both times: each new field holds the old field's value on every row, the old fields are
   * gone, every other field and the geometry and the number of rows are unchanged.
   */
  lemma RenamedMeaning(schema: map<string, FieldDef>, rs: seq<Feature>, args: RenameArgs)
    requires args.WellFormed()
    requires forall j, k :: 0 <= j < |args.News()| && 0 <= k < |args.News()| && args.News()[j] == args.News()[k] ==>
               args.Olds()[j] == args.Olds()[k]
    requires forall j, k :: 0 <= j < |args.News()| && 0 <= k < |args.Olds()| ==>
               args.News()[j] != args.Olds()[k]
    ensures var r := Renamed(schema, rs, args).1;
      && |r| == |rs|
      && (forall i :: 0 <= i < |rs| ==> r[i].geom == rs[i].geom)
      && (forall i, j :: 0 <= i < |rs| && 0 <= j < |args.News()| ==>
            Get(r[i].attrs, args.News()[j]) == Get(rs[i].attrs, args.Olds()[j]))
      && (forall i, o :: 0 <= i < |rs| && o in args.Olds() ==> o !in r[i].attrs)
      && (forall i, f :: 0 <= i < |rs| && f !in args.Olds() && f !in args.News() ==>
            Get(r[i].attrs, f) == Get(rs[i].attrs, f))
    ensures forall o :: o in args.Olds() ==> o !in Renamed(schema, rs, args).0
  {
    CopyFoldMeaning((schema, rs), args.Olds(), args.News(), args.Defs());
    var r := Renamed(schema, rs, args).1;
    var st := CopyFold((schema, rs), args.Olds(), args.News(), args.Defs());
    forall i, j | 0 <= i < |rs| && 0 <= j < |args.News()|
      ensures Get(r[i].attrs, args.News()[j]) == Get(rs[i].attrs, args.Olds()[j])
    {
      assert args.News()[j] !in args.Olds();
      assert Get(r[i].attrs, args.News()[j]) == Get(st.1[i].attrs, args.News()[j]);
    }
  }

  // ---------------------------------------------------------------------------
  // select_calculate
  // ---------------------------------------------------------------------------

  /** The selection of Select Layer By Location with NOT_INVERT. */
  function Selected(spatial: Spatial, rel: Relationship, selectGeoms: seq<Geom>): Feature -> bool
  {
    (r: Feature) => RelatesToAny(spatial, rel, r.geom, selectGeoms)
  }

  /** The same selection with INVERT. */
  function Inverted(spatial: Spatial, rel: Relationship, selectGeoms: seq<Geom>): Feature -> bool
  {
    (r: Feature) => !RelatesToAny(spatial, rel, r.geom, selectGeoms)
  }

  /** The value select_calculate leaves in a row. */
  function Flag(b: bool): Cell
  {
    Some(Int(if b then 1 else 0))
  }

  /** Every feature relates to a select feature, so the INVERT selection is empty. */
  predicate AllRelate(rs: seq<Feature>, spatial: Spatial, rel: Relationship, selectGeoms: seq<Geom>)
  {
    forall k :: 0 <= k < |rs| ==> RelatesToAny(spatial, rel, rs[k].geom, selectGeoms)
  }

  /** Whether features relate depends on their geometry only. */
  lemma AllRelateSameGeoms(rs1: seq<Feature>, rs2: seq<Feature>, spatial: Spatial, rel: Relationship,
                           selectGeoms: seq<Geom>)
    requires |rs1| == |rs2|
    requires forall i :: 0 <= i < |rs1| ==> rs1[i].geom == rs2[i].geom
    ensures AllRelate(rs1, spatial, rel, selectGeoms) == AllRelate(rs2, spatial, rel, selectGeoms)
  {
  }

  /**
   * The rows after select_calculate. The NOT_INVERT pass writes 1 into its selection, and into
   * every row when no feature relates; the INVERT pass then writes 0 into its selection, and
   * into every row when every feature relates, because that selection is then empty.
   */
  function FlagRows(rs: seq<Feature>, field: string, spatial: Spatial, rel: Relationship,
                    selectGeoms: seq<Geom>): seq<Feature>
  {
    seq(|rs|, i requires 0 <= i < |rs| =>
      rs[i].(attrs := rs[i].attrs[field := Flag(RelatesToAny(spatial, rel, rs[i].geom, selectGeoms) &&
                                                !AllRelate(rs, spatial, rel, selectGeoms))]))
  }

  /** Selects by location, writes 1 into the selection, inverts it and writes 0. */
  method SelectCalculate(fc: FeatureClass, selectGeoms: seq<Geom>, rel: Relationship, field: string,
                         spatial: Spatial)
    requires fc.Valid()
    modifies fc
    ensures fc.Valid()
    ensures fc.schema == if field in old(fc.schema) then old(fc.schema) else old(fc.schema)[field := ShortField]
    ensures fc.records == FlagRows(old(fc.records), field, spatial, rel, selectGeoms)
  {
    ghost var rs := fc.records;
    fc.CalculateField(field, ShortField, ActsOn(fc.records, All, Selected(spatial, rel, selectGeoms)), Const(Some(Int(1))));
    fc.CalculateField(field, ShortField, ActsOn(fc.records, All, Inverted(spatial, rel, selectGeoms)), Const(Some(Int(0))));
    FlagPasses(rs, field, spatial, rel, selectGeoms);
  }

  /** The INVERT selection on rows with the original geometries is empty exactly when every feature relates. */
  lemma InvertedSelection(rs: seq<Feature>, mid: seq<Feature>, spatial: Spatial, rel: Relationship, selectGeoms: seq<Geom>)
    requires |mid| == |rs| && forall i :: 0 <= i < |rs| ==> mid[i].geom == rs[i].geom
    ensures HasSelection(mid, All, Inverted(spatial, rel, selectGeoms)) <==> !AllRelate(rs, spatial, rel, selectGeoms)
  {
    if !AllRelate(rs, spatial, rel, selectGeoms) {
      var k :| 0 <= k < |rs| && !RelatesToAny(spatial, rel, rs[k].geom, selectGeoms);
      assert All(mid[k]) && Inverted(spatial, rel, selectGeoms)(mid[k]);
    }
  }

  /** The two Calculate Field passes of select_calculate, each on its selection or on every row, leave FlagRows. */
  lemma FlagPasses(rs: seq<Feature>, field: string, spatial: Spatial, rel: Relationship, selectGeoms: seq<Geom>)
    ensures var mid := AssignAll(rs, field, ActsOn(rs, All, Selected(spatial, rel, selectGeoms)), Const(Some(Int(1))));
            AssignAll(mid, field, ActsOn(mid, All, Inverted(spatial, rel, selectGeoms)), Const(Some(Int(0))))
            == FlagRows(rs, field, spatial, rel, selectGeoms)
  {
    var sel, inv := Selected(spatial, rel, selectGeoms), Inverted(spatial, rel, selectGeoms);
    var acts1 := ActsOn(rs, All, sel);
    var mid := AssignAll(rs, field, acts1, Const(Some(Int(1))));
    var acts2 := ActsOn(mid, All, inv);
    var out := AssignAll(mid, field, acts2, Const(Some(Int(0))));
    var all := AllRelate(rs, spatial, rel, selectGeoms);
    InvertedSelection(rs, mid, spatial, rel, selectGeoms);
    forall i | 0 <= i < |rs|
      ensures out[i] == FlagRows(rs, field, spatial, rel, selectGeoms)[i]
    {
      var relates := RelatesToAny(spatial, rel, rs[i].geom, selectGeoms);
      var v1 := if acts1(rs[i]) then Some(Int(1)) else Get(rs[i].attrs, field);
      var v2 := if acts2(mid[i]) then Some(Int(0)) else v1;
      assert mid[i] == rs[i].(attrs := rs[i].attrs[field := v1]);
      assert out[i] == rs[i].(attrs := rs[i].attrs[field := v2]);
      assert v2 == Flag(relates && !all) by {
        if relates {
          assert All(rs[i]) && sel(rs[i]);
          assert acts1(rs[i]);
          assert !inv(mid[i]);
        } else {
          assert inv(mid[i]);
        }
      }
    }
  }

  /**
   * After select_calculate every row holds 0 or 1, never null, whatever the field held before. A
   * row holds 1 exactly when it relates to a select feature and some feature of the table does
   * not; so when every feature relates, every row holds 0. No other field and no geometry changes.
   */
  lemma FlagRowsMeaning(rs: seq<Feature>, field: string, spatial: Spatial, rel: Relationship,
                        selectGeoms: seq<Geom>)
    ensures var r := FlagRows(rs, field, spatial, rel, selectGeoms);
      && |r| == |rs|
      && (forall i :: 0 <= i < |rs| ==> field in r[i].attrs && r[i].attrs[field].Some?)
      && (forall i :: 0 <= i < |rs| ==>
            (r[i].attrs[field] == Some(Int(1)) <==>
             (exists k :: 0 <= k < |selectGeoms| && spatial(rel, rs[i].geom, selectGeoms[k])) &&
             (exists j :: 0 <= j < |rs| && forall k :: 0 <= k < |selectGeoms| ==> !spatial(rel, rs[j].geom, selectGeoms[k]))))
      && (forall i :: 0 <= i < |rs| ==>
            (r[i].attrs[field] == Some(Int(0)) <==>
             (forall k :: 0 <= k < |selectGeoms| ==> !spatial(rel, rs[i].geom, selectGeoms[k])) ||
             (forall j :: 0 <= j < |rs| ==> exists k :: 0 <= k < |selectGeoms| && spatial(rel, rs[j].geom, selectGeoms[k]))))
      && (forall i, f :: 0 <= i < |rs| && f != field ==> Get(r[i].attrs, f) == Get(rs[i].attrs, f))
      && (forall i :: 0 <= i < |rs| ==> r[i].geom == rs[i].geom)
  {
  }

  /** When every feature relates, select_calculate leaves 0 in every row, though each relates. */
  lemma FlagRowsAllRelate(rs: seq<Feature>, field: string, spatial: Spatial, rel: Relationship,
                          selectGeoms: seq<Geom>)
    requires AllRelate(rs, spatial, rel, selectGeoms)
    ensures forall i :: 0 <= i < |rs| ==>
      RelatesToAny(spatial, rel, rs[i].geom, selectGeoms) &&
      FlagRows(rs, field, spatial, rel, selectGeoms)[i].attrs[field] == Some(Int(0))
  {
  }

  /** A point inside the single select polygon: the one-row table whose flag should be 1 gets 0. */
  lemma FlagRowsAllRelateExample()
    ensures var rs := [Feature(0, map[])];
            var spatial := (rel: Relationship, g: Geom, h: Geom) => true;
      && RelatesToAny(spatial, Intersect, rs[0].geom, [1])
      && FlagRows(rs, "InPark", spatial, Intersect, [1])[0].attrs["InPark"] == Some(Int(0))
  {
    var rs := [Feature(0, map[])];
    var spatial := (rel: Relationship, g: Geom, h: Geom) => true;
    assert spatial(Intersect, rs[0].geom, [1][0]);
    assert AllRelate(rs, spatial, Intersect, [1]);
  }

  /** select_calculate overwrites: two tables with the same geometry end with the same flags. */
  lemma {:induction false} FlagRowsOverwrites(rs1: seq<Feature>, rs2: seq<Feature>, field: string,
                                              spatial: Spatial, rel: Relationship, selectGeoms: seq<Geom>)
    requires |rs1| == |rs2|
    requires forall i :: 0 <= i < |rs1| ==> rs1[i].geom == rs2[i].geom
    ensures forall i :: 0 <= i < |rs1| ==>
      FlagRows(rs1, field, spatial, rel, selectGeoms)[i].attrs[field] ==
      FlagRows(rs2, field, spatial, rel, selectGeoms)[i].attrs[field]
  {
    AllRelateSameGeoms(rs1, rs2, spatial, rel, selectGeoms);
  }

  /** The rows select_calculate is meant to leave: 1 where the feature relates, 0 where it does not. */
  function IntendedFlagRows(rs: seq<Feature>, field: string, spatial: Spatial, rel: Relationship,
                            selectGeoms: seq<Geom>): seq<Feature>
  {
    seq(|rs|, i requires 0 <= i < |rs| =>
      rs[i].(attrs := rs[i].attrs[field := Flag(RelatesToAny(spatial, rel, rs[i].geom, selectGeoms))]))
  }

  /** When some feature does not relate, select_calculate gives the intended flags. */
  lemma FlagRowsAsIntended(rs: seq<Feature>, field: string, spatial: Spatial, rel: Relationship,
                           selectGeoms: seq<Geom>)
    requires !AllRelate(rs, spatial, rel, selectGeoms)
    ensures FlagRows(rs, field, spatial, rel, selectGeoms) == IntendedFlagRows(rs, field, spatial, rel, selectGeoms)
  {
  }

  /** One Calculate Field of a constant into the rows `sel` picks, the others untouched. */
  ghost function PassRows(rs: seq<Feature>, field: string, sel: Feature -> bool, c: Cell): seq<Feature>
  {
    seq(|rs|, i requires 0 <= i < |rs| => if sel(rs[i]) then rs[i].(attrs := rs[i].attrs[field := c]) else rs[i])
  }

  /** A Calculate Field skipped when its selection is empty writes exactly into the selection. */
  lemma GuardedPass(rs: seq<Feature>, field: string, sel: Feature -> bool, c: Cell)
    requires forall i :: 0 <= i < |rs| ==> field in rs[i].attrs
    ensures (if HasSelection(rs, All, sel) then AssignAll(rs, field, ActsOn(rs, All, sel), Const(c)) else rs)
            == PassRows(rs, field, sel, c)
  {
    if HasSelection(rs, All, sel) {
      var out := AssignAll(rs, field, ActsOn(rs, All, sel), Const(c));
      forall i | 0 <= i < |rs| ensures out[i] == PassRows(rs, field, sel, c)[i] {
        assert rs[i].attrs[field := rs[i].attrs[field]] == rs[i].attrs;
      }
    } else {
      forall i | 0 <= i < |rs| ensures rs[i] == PassRows(rs, field, sel, c)[i] {
        assert !sel(rs[i]);
      }
    }
  }

  /**
   * select_calculate with each Calculate Field skipped when its selection is empty, the guard
   * del_select_patches puts before its Delete Features; Add Field creates the field first.
   */
  method SelectCalculateGuarded(fc: FeatureClass, selectGeoms: seq<Geom>, rel: Relationship, field: string,
                                spatial: Spatial)
    requires fc.Valid()
    modifies fc
    ensures fc.Valid()
    ensures fc.schema == if field in old(fc.schema) then old(fc.schema) else old(fc.schema)[field := ShortField]
    ensures fc.records == IntendedFlagRows(old(fc.records), field, spatial, rel, selectGeoms)
  {
    ghost var rs := fc.records;
    fc.AddField(field, ShortField);
    ghost var added := fc.records;
    GuardedPass(added, field, Selected(spatial, rel, selectGeoms), Some(Int(1)));
    if HasSelection(fc.records, All, Selected(spatial, rel, selectGeoms)) {
      fc.CalculateField(field, ShortField, ActsOn(fc.records, All, Selected(spatial, rel, selectGeoms)), Const(Some(Int(1))));
    }
    ghost var mid := fc.records;
    assert mid == PassRows(added, field, Selected(spatial, rel, selectGeoms), Some(Int(1)));
    GuardedPass(mid, field, Inverted(spatial, rel, selectGeoms), Some(Int(0)));
    if HasSelection(fc.records, All, Inverted(spatial, rel, selectGeoms)) {
      fc.CalculateField(field, ShortField, ActsOn(fc.records, All, Inverted(spatial, rel, selectGeoms)), Const(Some(Int(0))));
    }
    assert fc.records == PassRows(mid, field, Inverted(spatial, rel, selectGeoms), Some(Int(0)));
    GuardedPasses(rs, field, spatial, rel, selectGeoms);
  }

  /** The two guarded passes after Add Field leave the intended flags. */
  lemma GuardedPasses(rs: seq<Feature>, field: string, spatial: Spatial, rel: Relationship, selectGeoms: seq<Geom>)
    ensures PassRows(PassRows(AddNullAll(rs, field), field, Selected(spatial, rel, selectGeoms), Some(Int(1))),
                     field, Inverted(spatial, rel, selectGeoms), Some(Int(0)))
            == IntendedFlagRows(rs, field, spatial, rel, selectGeoms)
  {
    var added := AddNullAll(rs, field);
    var mid := PassRows(added, field, Selected(spatial, rel, selectGeoms), Some(Int(1)));
    var out := PassRows(mid, field, Inverted(spatial, rel, selectGeoms), Some(Int(0)));
    forall i | 0 <= i < |rs|
      ensures out[i] == IntendedFlagRows(rs, field, spatial, rel, selectGeoms)[i]
    {
      assert added[i].geom == mid[i].geom == rs[i].geom;
    }
  }

  /**
   * The intended flags: every row holds 1 if it relates to a select feature and 0 if not, never
   * null, and nothing else changes.
   */
  lemma IntendedFlagRowsMeaning(rs: seq<Feature>, field: string, spatial: Spatial, rel: Relationship,
                                selectGeoms: seq<Geom>)
    ensures var r := IntendedFlagRows(rs, field, spatial, rel, selectGeoms);
      && |r| == |rs|
      && (forall i :: 0 <= i < |rs| ==> field in r[i].attrs && r[i].attrs[field].Some?)
      && (forall i :: 0 <= i < |rs| ==>
            (r[i].attrs[field] == Some(Int(1)) <==>
             exists k :: 0 <= k < |selectGeoms| && spatial(rel, rs[i].geom, selectGeoms[k])))
      && (forall i :: 0 <= i < |rs| ==>
            (r[i].attrs[field] == Some(Int(0)) <==>
             forall k :: 0 <= k < |selectGeoms| ==> !spatial(rel, rs[i].geom, selectGeoms[k])))
      && (forall i, f :: 0 <= i < |rs| && f != field ==> Get(r[i].attrs, f) == Get(rs[i].attrs, f))
      && (forall i :: 0 <= i < |rs| ==> r[i].geom == rs[i].geom)
  {
  }

  // ---------------------------------------------------------------------------
  // del_existing_fields
  // ---------------------------------------------------------------------------

  /** The attribute fields the tool derives, and so deletes before deriving them again. */
  const AttrFields: seq<string> := [
    "CoordType", "X_Coord_m", "Y_Coord_m", "UTMX", "UTMY", "Latitude", "Longitude",
    "WildName", "LandMgmt", "Watershed", "InPark", "InBuffer", "InMask", "Protected",
    "EastWest", "VegCode", "ElevMean", "SlopeMean", "Aspect", "paratio"]

  /** `[f for f in candidates if f in fields]`: exactly the candidates the feature class has. */
  function FieldsToDelete(candidates: seq<string>, keys: set<string>): (r: seq<string>)
    ensures forall f :: f in r <==> f in candidates && f in keys
    ensures |r| == 0 <==> forall f :: f in candidates ==> f !in keys
  {
    var r := Filter(candidates, (f: string) => f in keys);
    FilterEmpty(candidates, (f: string) => f in keys);
    r
  }

  /** Removing names from every row depends only on the names the rows have. */
  lemma DropAllSame(schema: map<string, FieldDef>, rs: seq<Feature>, a: set<string>, b: set<string>)
    requires Conforms(schema, rs)
    requires forall f :: f in schema ==> (f in a <==> f in b)
    ensures DropAll(rs, a) == DropAll(rs, b)
  {
    forall i | 0 <= i < |rs| ensures rs[i].attrs - a == rs[i].attrs - b {
      assert (rs[i].attrs - a).Keys == (rs[i].attrs - b).Keys;
    }
  }

  /** Deletes those of `candidates` that the feature class has, in one Delete Field, if there are any. */
  method DeleteExisting(fc: FeatureClass, candidates: seq<string>)
    requires fc.Valid()
    modifies fc
    ensures fc.Valid()
    ensures fc.schema == old(fc.schema) - set f | f in candidates
    ensures fc.records == DropAll(old(fc.records), set f | f in candidates)
  {
    var toDelete := FieldsToDelete(candidates, fc.schema.Keys);
    ghost var s0, rs0 := fc.schema, fc.records;
    ghost var all := set f | f in candidates;
    if |toDelete| > 0 {
      fc.DeleteFields(toDelete);
      DropAllSame(s0, rs0, (set f | f in toDelete), all);
      assert s0 - (set f | f in toDelete) == s0 - all;
    } else {
      DropAllSame(s0, rs0, {}, all);
      forall i | 0 <= i < |rs0| ensures DropAll(rs0, {})[i] == rs0[i] {
        assert rs0[i].attrs - {} == rs0[i].attrs;
      }
      assert s0 - all == s0;
    }
  }

  /** del_existing_fields: every derived attribute field is gone, everything else is kept. */
  method DelExistingFields(fc: FeatureClass)
    requires fc.Valid()
    modifies fc
    ensures fc.Valid()
    ensures fc.schema == old(fc.schema) - set f | f in AttrFields
    ensures fc.records == DropAll(old(fc.records), set f | f in AttrFields)
  {
    DeleteExisting(fc, AttrFields);
  }

  /** A second del_existing_fields finds nothing left to delete. */
  lemma DelExistingFieldsIdempotent(candidates: seq<string>, keys: set<string>)
    ensures FieldsToDelete(candidates, keys - set f | f in candidates) == []
  {
  }

  // ---------------------------------------------------------------------------
  // update_area_perim
  // ---------------------------------------------------------------------------

  /** The code block `update(orig, new)`: keep orig when it equals the computed value, otherwise the computed value rounded. */
  function Update(orig: Cell, computed: Cell, round: Cell -> Cell): Cell
  {
    if PyEq(orig, computed) then orig else round(computed)
  }

  function UpdateFrom(field: string, shapeField: string, round: Cell -> Cell): Feature -> Cell
  {
    (r: Feature) => Update(Get(r.attrs, field), Get(r.attrs, shapeField), round)
  }

  function SyncRow(r: Feature, round: Cell -> Cell): Feature
  {
    var a := r.attrs["area" := Update(Get(r.attrs, "area"), Get(r.attrs, "Shape_Area"), round)];
    r.(attrs := a["perim" := Update(Get(a, "perim"), Get(a, "Shape_Length"), round)])
  }

  /** The rows after update_area_perim. */
  function SyncAreaPerim(rs: seq<Feature>, round: Cell -> Cell): seq<Feature>
  {
    seq(|rs|, i requires 0 <= i < |rs| => SyncRow(rs[i], round))
  }

  method UpdateAreaPerim(fc: FeatureClass, round: Cell -> Cell)
    requires fc.Valid()
    modifies fc
    ensures fc.Valid()
    ensures fc.schema.Keys == old(fc.schema.Keys) + {"area", "perim"}
    ensures fc.records == SyncAreaPerim(old(fc.records), round)
  {
    ghost var rs := fc.records;
    fc.CalculateField("area", LongField, All, UpdateFrom("area", "Shape_Area", round));
    fc.CalculateField("perim", LongField, All, UpdateFrom("perim", "Shape_Length", round));
    assert fc.records == SyncAreaPerim(rs, round);
  }

  /**
   * update_area_perim changes only area and perim, and running it twice stores the same values
   * as running it once, whatever the rounding function.
   */
  lemma SyncAreaPerimIdempotent(rs: seq<Feature>, round: Cell -> Cell)
    ensures SyncAreaPerim(SyncAreaPerim(rs, round), round) == SyncAreaPerim(rs, round)
    ensures forall i, f :: 0 <= i < |rs| && f != "area" && f != "perim" ==>
              Get(SyncAreaPerim(rs, round)[i].attrs, f) == Get(rs[i].attrs, f)
  {
    var once := SyncAreaPerim(rs, round);
    var twice := SyncAreaPerim(once, round);
    forall i | 0 <= i < |rs| ensures twice[i] == once[i] {
      var r := rs[i];
      var a1 := Update(Get(r.attrs, "area"), Get(r.attrs, "Shape_Area"), round);
      var p1 := Update(Get(r.attrs, "perim"), Get(r.attrs, "Shape_Length"), round);
      assert once[i].attrs == r.attrs["area" := a1]["perim" := p1];
      assert Update(a1, Get(r.attrs, "Shape_Area"), round) == a1;
      assert Update(p1, Get(r.attrs, "Shape_Length"), round) == p1;
      assert twice[i].attrs == once[i].attrs;
    }
  }
}
