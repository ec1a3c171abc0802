/**
 * A feature class of the geodatabase, as the attribute scripts see it: a schema of named,
 * typed fields and an ordered list of features, each a polygon (kept abstract) with one cell
 * per field. The geoprocessing primitives the scripts call on a whole table -- Add Field,
 * Calculate Field over the current selection, Delete Field, Delete Features and Join Field --
 * are the methods of the class. Spatial tests are not computed here: they are a function
 * `Spatial` handed in by the caller.
 */
module FeatureClasses {
  import opened Wrappers
  import opened Values

  datatype FieldKind = TextKind | ShortKind | LongKind | FloatKind | DoubleKind

  /** A field's type and, for text fields, its declared length. */
  datatype FieldDef = FieldDef(kind: FieldKind, length: Option<nat>)

  /** An opaque polygon (or point) geometry. */
  type Geom = nat

  datatype Feature = Feature(geom: Geom, attrs: map<string, Cell>)

  /** The overlap types of Select Layer By Location that the scripts use. */
  datatype Relationship =
    | Intersect          // "INTERSECT"
    | CompletelyWithin   // "COMPLETELY_WITHIN"
    | IntersectInset     // "INTERSECT" with a search distance of -1 meter

  /** `spatial(rel, g, h)`: geometry g is in relationship rel with geometry h. */
  type Spatial = (Relationship, Geom, Geom) -> bool

  /** g is selected by location against the features `others`. */
  predicate RelatesToAny(spatial: Spatial, rel: Relationship, g: Geom, others: seq<Geom>)
  {
    exists k :: 0 <= k < |others| && spatial(rel, g, others[k])
  }

  /** The value of a field in a row; an absent field reads as null. */
  function Get(attrs: map<string, Cell>, f: string): Cell
  {
    if f in attrs then attrs[f] else None
  }

  /** One row after Calculate Field: selected rows get `val`, the others keep their value (null if new). */
  function Assign(r: Feature, field: string, sel: Feature -> bool, val: Feature -> Cell): Feature
  {
    r.(attrs := r.attrs[field := if sel(r) then val(r) else Get(r.attrs, field)])
  }

  function AssignAll(rs: seq<Feature>, field: string, sel: Feature -> bool, val: Feature -> Cell): seq<Feature>
  {
    seq(|rs|, i requires 0 <= i < |rs| => Assign(rs[i], field, sel, val))
  }

  /** Two selections that agree on every row assign the same rows. */
  lemma AssignSame(rs: seq<Feature>, field: string, p: Feature -> bool, q: Feature -> bool, val: Feature -> Cell)
    requires forall i :: 0 <= i < |rs| ==> p(rs[i]) == q(rs[i])
    ensures AssignAll(rs, field, p, val) == AssignAll(rs, field, q, val)
  {
    assert forall i :: 0 <= i < |rs| ==> AssignAll(rs, field, p, val)[i] == AssignAll(rs, field, q, val)[i];
  }

  /** A selection that picks no row changes nothing when every row has the field. */
  lemma AssignNone(rs: seq<Feature>, field: string, p: Feature -> bool, val: Feature -> Cell)
    requires forall i :: 0 <= i < |rs| ==> !p(rs[i]) && field in rs[i].attrs
    ensures AssignAll(rs, field, p, val) == rs
  {
    forall i | 0 <= i < |rs| ensures AssignAll(rs, field, p, val)[i] == rs[i] {
      assert rs[i].attrs[field := rs[i].attrs[field]] == rs[i].attrs;
    }
  }

  function AddNull(r: Feature, field: string): Feature
  {
    if field in r.attrs then r else r.(attrs := r.attrs[field := None])
  }

  function AddNullAll(rs: seq<Feature>, field: string): seq<Feature>
  {
    seq(|rs|, i requires 0 <= i < |rs| => AddNull(rs[i], field))
  }

  function DropAll(rs: seq<Feature>, names: set<string>): seq<Feature>
  {
    seq(|rs|, i requires 0 <= i < |rs| => rs[i].(attrs := rs[i].attrs - names))
  }

  /** The complement of a selection. */
  function Not(sel: Feature -> bool): Feature -> bool
  {
    (r: Feature) => !sel(r)
  }

  /** Some row of the layer over `rs` whose definition query is `layer` is selected by `sel`. */
  predicate HasSelection(rs: seq<Feature>, layer: Feature -> bool, sel: Feature -> bool)
  {
    exists i :: 0 <= i < |rs| && layer(rs[i]) && sel(rs[i])
  }

  /**
   * The rows a geoprocessing tool run on a layer acts on. `layer` is the layer's definition
   * query and `sel` the selection made on it. Calculate Field and Delete Features act on the
   * selected rows of the layer, and on every row of the layer when none of them is selected.
   */
  function ActsOn(rs: seq<Feature>, layer: Feature -> bool, sel: Feature -> bool): (acts: Feature -> bool)
    ensures forall r :: acts(r) <==> layer(r) && (sel(r) || !HasSelection(rs, layer, sel))
  {
    if HasSelection(rs, layer, sel) then (r: Feature) => layer(r) && sel(r) else layer
  }

  /** Every row has exactly the fields of the schema. */
  ghost predicate Conforms(schema: map<string, FieldDef>, rs: seq<Feature>)
  {
    forall i :: 0 <= i < |rs| ==> rs[i].attrs.Keys == schema.Keys
  }

  // ---------------------------------------------------------------------------
  // Join Field
  // ---------------------------------------------------------------------------

  /** The name Join Field gives a joined field: a name already in the target gets the suffix `_1`. */
  function JoinName(keys: set<string>, f: string): string
  {
    if f in keys then f + "_1" else f
  }

  /** The index of the first table row whose key equals v. */
  function FirstMatch(table: seq<map<string, Cell>>, key: string, v: Cell): (k: Option<nat>)
    ensures k.Some? ==> k.value < |table| && PyEq(Get(table[k.value], key), v)
    ensures k.Some? ==> forall j :: 0 <= j < k.value ==> !PyEq(Get(table[j], key), v)
    ensures k.None? ==> forall j :: 0 <= j < |table| ==> !PyEq(Get(table[j], key), v)
    decreases |table|
  {
    if table == [] then None
    else if PyEq(Get(table[0], key), v) then Some(0)
    else match FirstMatch(table[1..], key, v)
      case None => None
      case Some(j) => Some(j + 1)
  }

  /** The value Join Field copies into a row: field f of the first matching table row; null keys never match. */
  function Joined(table: seq<map<string, Cell>>, joinField: string, key: Cell, f: string): Cell
  {
    if key.None? then None
    else match FirstMatch(table, joinField, key)
      case None => None
      case Some(k) => Get(table[k], f)
  }

  /** The schema and rows after joining `fields` one after the other. */
  function JoinFold(schema: map<string, FieldDef>, rs: seq<Feature>, inField: string,
                    table: seq<map<string, Cell>>, joinField: string, fields: seq<string>,
                    defs: map<string, FieldDef>): (r: (map<string, FieldDef>, seq<Feature>))
    requires forall f :: f in fields ==> f in defs
    ensures |r.1| == |rs|
    ensures Conforms(schema, rs) ==> Conforms(r.0, r.1)
    ensures forall i :: 0 <= i < |rs| ==> r.1[i].geom == rs[i].geom
    ensures forall i, g :: 0 <= i < |rs| && (forall f :: f in fields ==> g != f && g != f + "_1") ==>
              Get(r.1[i].attrs, g) == Get(rs[i].attrs, g)
    decreases |fields|
  {
    if fields == [] then (schema, rs)
    else
      var f := fields[0];
      var name := JoinName(schema.Keys, f);
      var rs' := seq(|rs|, i requires 0 <= i < |rs| =>
                   rs[i].(attrs := rs[i].attrs[name := Joined(table, joinField, Get(rs[i].attrs, inField), f)]));
      assert forall i, g :: 0 <= i < |rs| && g != name ==> Get(rs'[i].attrs, g) == Get(rs[i].attrs, g);
      assert forall h :: h in fields[1..] ==> h in fields;
      assert f in fields && (name == f || name == f + "_1");
      JoinFold(schema[name := defs[f]], rs', inField, table, joinField, fields[1..], defs)
  }

  /**
   * Joining one field the target lacks: the schema gains it with its definition, and every row
   * gets that field of its first matching table row, keyed by the row's `inField`.
   */
  lemma JoinOne(schema: map<string, FieldDef>, rs: seq<Feature>, inField: string,
                table: seq<map<string, Cell>>, joinField: string, f: string, defs: map<string, FieldDef>)
    requires f in defs && f !in schema
    ensures var r := JoinFold(schema, rs, inField, table, joinField, [f], defs);
      && r.0 == schema[f := defs[f]]
      && forall i :: 0 <= i < |rs| ==> Get(r.1[i].attrs, f) == Joined(table, joinField, Get(rs[i].attrs, inField), f)
  {
    assert [f][1..] == [];
  }

  class FeatureClass {
    var schema: map<string, FieldDef>
    var records: seq<Feature>

    ghost predicate Valid()
      reads this
    {
      Conforms(schema, records)
    }

    constructor (schema0: map<string, FieldDef>, records0: seq<Feature>)
      requires Conforms(schema0, records0)
      ensures Valid() && schema == schema0 && records == records0
    {
      schema := schema0;
      records := records0;
    }

    /** Add Field: a new nullable field, null on every row; a name already present is left alone. */
    method AddField(name: string, def: FieldDef)
      requires Valid()
      modifies this
      ensures Valid()
      ensures schema == if name in old(schema) then old(schema) else old(schema)[name := def]
      ensures records == AddNullAll(old(records), name)
    {
      if name !in schema {
        schema := schema[name := def];
      }
      records := AddNullAll(records, name);
    }

    /**
     * Calculate Field on the rows it acts on, `rows`: every row of a feature class, the rows of
     * a layer's definition query, or `ActsOn` of a layer with a selection. Those rows get `val`;
     * a field that does not exist yet is created with `def`, null elsewhere.
     */
    method CalculateField(name: string, def: FieldDef, rows: Feature -> bool, val: Feature -> Cell)
      requires Valid()
      modifies this
      ensures Valid()
      ensures schema == if name in old(schema) then old(schema) else old(schema)[name := def]
      ensures records == AssignAll(old(records), name, rows, val)
    {
      records := AssignAll(records, name, rows, val);
      if name !in schema {
        schema := schema[name := def];
      }
    }

    /** Delete Field: the named fields leave the schema and every row. */
    method DeleteFields(names: seq<string>)
      requires Valid()
      modifies this
      ensures Valid()
      ensures schema == old(schema) - set f | f in names
      ensures records == DropAll(old(records), set f | f in names)
    {
      var drop := set f | f in names;
      schema := schema - drop;
      records := DropAll(records, drop);
    }

    /**
     * Delete Features on the rows it acts on, `rows` (as for Calculate Field): those rows are
     * removed, the others keep their order.
     */
    method DeleteFeatures(rows: Feature -> bool)
      requires Valid()
      modifies this
      ensures Valid()
      ensures schema == old(schema)
      ensures records == Filter(old(records), Not(rows))
    {
      var kept := Filter(records, Not(rows));
      forall i | 0 <= i < |kept| ensures kept[i].attrs.Keys == schema.Keys {
        assert kept[i] in records;
      }
      records := kept;
    }

    /**
     * Join Field: for each field of `fields`, every row gets that field of the first table row
     * whose `joinField` equals the row's `inField` (null when none does).
     */
    method JoinField(inField: string, table: seq<map<string, Cell>>, joinField: string,
                     fields: seq<string>, defs: map<string, FieldDef>)
      requires Valid()
      requires forall f :: f in fields ==> f in defs
      modifies this
      ensures Valid()
      ensures (schema, records) == JoinFold(old(schema), old(records), inField, table, joinField, fields, defs)
    {
      var r := JoinFold(schema, records, inField, table, joinField, fields, defs);
      schema, records := r.0, r.1;
    }
  }
}
