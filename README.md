# Landscape change patches: attributes, event labels and export

This project models the ArcGIS toolbox of the LandscapeChange GeoTools repository. The toolbox
turns the yearly change-patch shapefiles of a LandTrendr run into one cumulative "changeDB"
feature class per park, and it exports that feature class for review and for Google Earth Engine.

The model covers three tools and the helper modules they call:

- **Add Attributes to Patches.** It keeps the shapefiles whose names end in a four-digit year and
  decides where the run starts: a fresh run, a resumed run, or a given year. For each year it
  converts the shapefile and adds the attributes:
  - it optionally clips the patches to the study area and drops those below the minimum mapping
    unit;
  - it adds the coordinate type and datum;
  - it joins the point attributes (land management, wilderness, watershed, in-park, in-buffer,
    protected, east/west);
  - it adds the in-mask flag and the vegetation code.

  It then labels events (event fields, and the "Annual Variability" label for patches in the
  elevation or water mask), flags patches that overlap the previous year, and appends the year to
  changeDB. Finally it writes Park and PatchName and renames changeDB after its first and last
  year of detection.
- **Export Patches.** For each chosen feature class it extracts the attribute table, cleans it or
  cuts it down to the event rows, and validates it:
  - change types must be in the lookup vocabulary;
  - Confidence must be in range and come with an AltType where needed;
  - PatchNames must be unique;
  - required fields must have values.

  It writes a CSV that never overwrites an existing file, or a shapefile folder for Earth Engine,
  and the run fails when any export was refused.
- **Event fields.** The utilities add the event schema, label mask patches and copy joined labels
  over a patch's own event fields.

A feature class is a `class` (`FeatureClasses.FeatureClass`). Its schema and ordered rows are
fields, and its geoprocessing primitives are methods: Add Field, Calculate Field, Delete Field,
Delete Features and Join Field. The attribute scripts are methods on it. Calculate Field and
Delete Features act on the rows of a layer: its where clause, and its selection if one was made.
As in ArcGIS, a layer whose selection is empty is acted on whole.
Each method is proved against a pure function of the old table, and lemmas state what that
function means.

The driver scripts' geoprocessing calls are recorded as a trace of `Action`s, year by year. Lemmas
about that trace state:

- the order of the calls;
- which feature class each year is compared with;
- how changeDB is created once and then appended to.

Geometry, rasters and the file system are parameters:

- a `Spatial` relation;
- spatial-join and zonal-majority functions;
- the set of existing paths.

## Model

| member | source | states |
|---|---|---|
| Values.NatToString | toolbox/AddAttributesToPatches.py:234 | `str(n)` of a natural number is a non-empty digit string, without a leading zero, of one digit exactly below 10 |
| Values.IntToString | toolbox/AddAttributesToPatches.py:234 | `str(i)` is non-empty and holds no underscore, so it can be split off at `_` |
| Values.ParseNatToString | toolbox/AddAttributesToPatches.py:113 | reading the digits of `str(n)` gives back n |
| Values.IntToStringRoundTrip | toolbox/AddAttributesToPatches.py:113 | `int(str(i)) == i` for every integer, negative ones included |
| Values.IntToStringInjective | toolbox/AddAttributesToPatches.py:234 | distinct years give distinct decimal texts |
| Values.Filter | toolbox/AddAttributesToPatches.py:64 | a list comprehension keeps only elements of the list that pass, and every element that passes |
| Values.FilterSnoc | toolbox/AddAttributesToPatches.py:64 | the comprehension scans left to right: the kept elements of `s + [x]` are those of s, then x if it passes |
| Values.FilterEmpty | toolbox/expPatchesFunctions.py:302 | the kept list is empty exactly when no element passes |
| Values.Count | toolbox/expPatchesFunctions.py:266-269 | the number of occurrences is zero exactly when the element is absent |
| Paths.Join | toolbox/ExportPatches.py:78 | `os.path.join` puts exactly one separator between folder and name, and the name is the tail |
| Paths.Basename | toolbox/AddAttributesToPatches.py:50 | the base name is the tail of the path after its last separator and holds no separator |
| Paths.BasenameJoin | toolbox/ExportPatches.py:75 | the base name of a joined path is the joined name when that name has no separator |
| Paths.DropLast | toolbox/AddAttributesToPatches.py:159 | `s[:-n]` is s without its last n characters, or empty for a short s |
| Paths.Prefix | toolbox/ExportPatches.py:61 | `s[:n]` is a prefix of s of length min(n, \|s\|) |
| Paths.Suffix | toolbox/ExportPatches.py:76 | `s[-n:]` is the last min(n, \|s\|) characters of s |
| Paths.Slice | toolbox/AddAttributesToPatches.py:64 | `s[-8:-4]` is the four characters before the extension for a long name and empty for one of four characters or fewer |
| Paths.Ones | toolbox/ExportPatches.py:82 | k renamings add k copies of "_1", 2k characters |
| FeatureClasses.FirstMatch | toolbox/addAttrFunctions.py:419-428 | Join Field takes the first table row whose key equals the patch's, and no earlier row matches; none when no row does |
| FeatureClasses.JoinFold | toolbox/addAttrFunctions.py:488-498 | joining keeps the number of rows, their geometry, conformance to the schema and every field not joined |
| FeatureClasses.FeatureClass.constructor | toolbox/AddAttributesToPatches.py:164-166 | a converted feature class holds the given schema and rows |
| FeatureClasses.FeatureClass.AddField | toolbox/AddAttributesToPatches.py:199-204 | Add Field adds a nullable field, null on every row, and leaves a field that exists alone |
| FeatureClasses.FeatureClass.CalculateField | toolbox/addAttrUtils.py:96-111 | Calculate Field writes the expression into the rows it acts on and only those; a new field is created and null elsewhere |
| FeatureClasses.FeatureClass.DeleteFields | toolbox/addAttrUtils.py:70-73 | Delete Field removes the named fields from the schema and every row |
| FeatureClasses.ActsOn | toolbox/addAttrFunctions.py:49-58 | a tool on a layer acts on the layer's selected rows, or on every layer row when the selection is empty |
| FeatureClasses.FeatureClass.DeleteFeatures | toolbox/addAttrFunctions.py:50-58 | Delete Features removes the rows it acts on and keeps the others in order |
| FeatureClasses.FeatureClass.JoinField | toolbox/addAttrFunctions.py:488-498 | Join Field leaves the table as the join of the fields one after the other |
| AttrUtils.AddThenSetAll | toolbox/addAttrUtils.py:51-67 | Add Field then Calculate Field on every row sets the field in every row, whether it existed or not, and changes nothing else |
| AttrUtils.RenameField | toolbox/addAttrUtils.py:32-73 | rename_field (scalars wrapped into lists) leaves the table as the copy loop followed by the delete |
| AttrUtils.CopyStepMeaning | toolbox/addAttrUtils.py:51-67 | one copy step gives the new field the old field's value on every row and keeps every other field |
| AttrUtils.CopyFoldMeaning | toolbox/addAttrUtils.py:51-67 | the copy loop keeps rows and geometry and sets each new field from its old one |
| AttrUtils.RenamedMeaning | toolbox/addAttrUtils.py:32-73 | after rename_field each new field holds its old field's value, the old fields are gone and every other field is unchanged |
| AttrUtils.SelectCalculate | toolbox/addAttrUtils.py:76-129 | select_calculate as written: Add Field, 1 into the selection (or every row if it is empty), then 0 into the inverted selection (or every row if it is empty) |
| AttrUtils.FlagRowsMeaning | toolbox/addAttrUtils.py:96-129 | as written: a row holds 1 exactly when it relates and some row does not, 0 exactly when it does not relate or every row relates; never null, nothing else changes |
| AttrUtils.FlagRowsOverwrites | toolbox/addAttrUtils.py:96-129 | the flag overwrites whatever the field held: the same geometries give the same flags |
| AttrUtils.FlagRowsAllRelate | toolbox/addAttrUtils.py:114-129 | when every feature relates, the inverted selection is empty and every row ends with 0 although it relates |
| AttrUtils.FlagRowsAllRelateExample | toolbox/addAttrUtils.py:114-129 | illustration: one point inside the one select polygon gets InPark 0 |
| AttrUtils.FlagRowsAsIntended | toolbox/addAttrUtils.py:96-129 | when some feature does not relate, the as-written flags are the intended ones |
| AttrUtils.SelectCalculateGuarded | toolbox/addAttrUtils.py:76-129 | with each Calculate Field skipped on an empty selection, the table ends with the intended flags |
| AttrUtils.IntendedFlagRowsMeaning | toolbox/addAttrUtils.py:79-82 | intended: every row holds 1 exactly when it relates to a select feature and 0 exactly when it does not; never null, nothing else changes |
| AttrUtils.FieldsToDelete | toolbox/addAttrUtils.py:233 | the fields to delete are exactly the derived fields the feature class has |
| AttrUtils.DeleteExisting | toolbox/addAttrUtils.py:233-244 | the derived fields that exist are deleted, and nothing else changes |
| AttrUtils.DelExistingFields | toolbox/addAttrUtils.py:198-244 | del_existing_fields removes every derived attribute field and keeps every other field and row |
| AttrUtils.DelExistingFieldsIdempotent | toolbox/addAttrUtils.py:198-244 | a second del_existing_fields finds nothing to delete |
| AttrUtils.DropAllSame | toolbox/addAttrUtils.py:236-244 | deleting names the rows lack changes nothing |
| AttrUtils.UpdateAreaPerim | toolbox/addAttrUtils.py:288-320 | update_area_perim leaves the rows as area and perim synced with the geometry |
| AttrUtils.SyncAreaPerimIdempotent | toolbox/addAttrUtils.py:297-320 | only area and perim change, and a second run stores the same values as the first |
| AttrFunctions.ClipPatches | toolbox/addAttrFunctions.py:24-71 | clip_patches as written: the clipped patches minus the rows Delete Features acts on (those below 30*30*mmu, or all when none is), with area and perim updated |
| AttrFunctions.SyncRowKeepsMmuTest | toolbox/addAttrFunctions.py:43-71 | updating area and perim does not change the minimum-mapping-unit test |
| AttrFunctions.ClippedRowsMeaning | toolbox/addAttrFunctions.py:43-71 | as written: when some clipped patch is below the threshold the result is the intended one; when none is, no patch is left |
| AttrFunctions.ClipDeletesAllExample | toolbox/addAttrFunctions.py:49-58 | illustration: a single 1-hectare patch with mmu 5 is deleted, though the intended result keeps it |
| AttrFunctions.ClipPatchesGuarded | toolbox/addAttrFunctions.py:24-71 | with Delete Features skipped on an empty selection, the patches become the intended clipped patches |
| AttrFunctions.IntendedClippedRowsMeaning | toolbox/addAttrFunctions.py:40-58 | intended: no patch below the threshold survives, every clipped patch at or above it does (area and perim synced), and nothing else appears |
| AttrFunctions.AddCoords | toolbox/addAttrFunctions.py:268-355 | add_coords leaves CoordType and Datum as the two passes and the datum give them |
| AttrFunctions.CoordTypeSteps | toolbox/addAttrFunctions.py:277-318 | "Central point" on every row, then "Centroid" on the rows whose annualID add_albers listed |
| AttrFunctions.CoordRowsMeaning | toolbox/addAttrFunctions.py:277-355 | a patch is "Centroid" exactly when its annualID is listed, every patch gets "NAD83", both fit their lengths, and no other field changes |
| AttrFunctions.Table | toolbox/addAttrFunctions.py:419-428 | a feature class read as a join table has one entry per row holding that row's attributes |
| AttrFunctions.JoinAndRename | toolbox/addAttrFunctions.py:504-530 | the joined source field is renamed: the target holds the joined value, the source is gone, other fields stay |
| AttrFunctions.AddLandMgmtWild | toolbox/addAttrFunctions.py:504-530 | LandMgmt holds the joined MANAGER, WildName the joined name, and MANAGER is gone |
| AttrFunctions.AddWatershed | toolbox/addAttrFunctions.py:533-557 | Watershed holds the joined NAME, and NAME is gone |
| AttrFunctions.JoinFields | toolbox/addAttrFunctions.py:485 | exactly those of Protected and EastWest missing from the points' field list (read at :431) are joined, in that order |
| AttrFunctions.AddMissingOptional | toolbox/addAttrFunctions.py:435-452 | without protected areas or east/west polygons, Protected and EastWest are added where missing and left null |
| AttrFunctions.AddFromOptionalLayers | toolbox/addAttrFunctions.py:453-481 | Protected is the as-written select_calculate flag against the protected areas (1 on intersecting points unless all intersect), and EastWest is dropped if present and joined again by location |
| AttrFunctions.AddOptionalAttrs | toolbox/addAttrFunctions.py:431-498 | the optional part picks its branch by the layers given, with Protected as select_calculate leaves it, and then joins the missing fields back to the patches |
| AttrFunctions.AddPointAttrs | toolbox/addAttrFunctions.py:386-416 | each point gets LandMgmt, WildName and Watershed from the joins and the as-written InPark and InBuffer flags of select_calculate |
| AttrFunctions.AddAttrsPoints | toolbox/addAttrFunctions.py:386-501 | the points hold the point attributes (WildName included); the patches are the zone join of those points' point fields, then the optional stage, then the join of the missing optional fields from the final points |
| AttrFunctions.PointFieldsKept | toolbox/addAttrFunctions.py:431-481 | the optional stage writes only Protected and EastWest and keeps the other point fields |
| AttrFunctions.VegValueOf | toolbox/addAttrFunctions.py:575-586 | `int(v) if v else None`: null for an empty or null text, the whole number for a digit text, failure otherwise |
| AttrFunctions.CreateCode | toolbox/addAttrFunctions.py:619-624 | create_code begins with "L" and is at least two characters long |
| AttrFunctions.CreateCodeZeroPadded | toolbox/addAttrFunctions.py:619-624 | ids 0 to 9 give "L0" and the digit |
| AttrFunctions.CreateCodeRoundTrip | toolbox/addAttrFunctions.py:619-624 | the digits after "L" read back as the id |
| Values.NatToStringWidth | toolbox/addAttrFunctions.py:619-624 | `str(n)` has at most two digits exactly below 100 and at most three exactly below 1000 |
| AttrFunctions.CreateCodeFits | toolbox/addAttrFunctions.py:603-624 | a code fits the four-character VegCode field exactly for ids from -9 to 999 ("L1000" and "L0-10" have five characters) |
| AttrFunctions.VegCodeOfMeaning | toolbox/addAttrFunctions.py:603-624 | a VegCode can be stored exactly for a whole VegValue from -9 to 999, and it is then create_code of that value |
| AttrFunctions.ParsedVeg | toolbox/addAttrFunctions.py:575-586 | the parsed VegValue is the parse result, or null where the parse fails |
| AttrFunctions.AddVegValue | toolbox/addAttrFunctions.py:572-586 | VegValue is the parsed majority on every row when every parse succeeds, and the text field is gone |
| AttrFunctions.AddVegType | toolbox/addAttrFunctions.py:560-625 | succeeds exactly when every majority parses and every VegCode fits four characters: create_code of VegValue without a table, the joined CODE with one (for patches without a CODE field); VegValue is the parsed majority; a failing calculation writes nothing |
| FeatureClasses.JoinOne | toolbox/addAttrFunctions.py:591-600 | joining one new field adds it to the schema and gives each row that field of the first table row matching its key |
| AttrFunctions.CodeJoined | toolbox/addAttrFunctions.py:591-600 | joining CODE keeps VegValue, and a table without CODE gets the CODE of the row whose MCID is the VegValue |
| AttrFunctions.CodeRenamed | toolbox/addAttrFunctions.py:602 | renaming CODE to VegCode copies every CODE and keeps VegValue |
| AttrFunctions.AddLookupVegCode | toolbox/addAttrFunctions.py:589-602 | VegCode is the CODE of the first table row whose MCID is the VegValue; the rename succeeds exactly when every such CODE fits four characters; VegValue is kept |
| AttrFunctions.AddComputedVegCode | toolbox/addAttrFunctions.py:603-625 | VegCode is create_code of VegValue on every row exactly when every VegValue is non-null and its code fits the four-character field |
| AttrFunctions.ExampleYearStrings | toolbox/addAttrFunctions.py:694-708 | the year texts of the PatchName example |
| AttrFunctions.PatchNameExample | toolbox/addAttrFunctions.py:694-708 | the PatchName of a worked example, field by field |
| AttrFunctions.SplitAtUnderscore | toolbox/addAttrFunctions.py:694-708 | two texts without `_` joined by `_` split back uniquely |
| AttrFunctions.PatchNameInjective | toolbox/addAttrFunctions.py:694-708 | within one run the PatchName determines the yod and the annualID |
| AttrFunctions.AddParkPatchName | toolbox/addAttrFunctions.py:666-708 | Park is the park code on every row; PatchName is the expression's value on every row exactly when it succeeds on all of them and every name fits the 50-character field |
| AttrFunctions.PatchNameSteps | toolbox/addAttrFunctions.py:677-708 | writing Park leaves the fields PatchName reads untouched, so PatchName is computed from the original values |
| AttrFunctions.StrOf | toolbox/addAttrFunctions.py:706 | `str` of a number or null is non-empty text without `_` |
| AttrFunctions.StrOfExample | toolbox/addAttrFunctions.py:706 | `str(2001.0)` is "2001.0" and `str(2001)` is "2001" |
| AttrFunctions.AddOverlapPrev | toolbox/addAttrFunctions.py:711-756 | add_overlap_prev as written sets OverlapPrv to 1 on the rows Calculate Field acts on in the eligible base layer |
| AttrFunctions.OverlapMeaning | toolbox/addAttrFunctions.py:728-756 | as written: OverlapPrv is 1 on eligible base patches that overlap an eligible previous patch, and on every eligible base patch when none does; every other value is kept |
| AttrFunctions.OverlapSelMeaning | toolbox/addAttrFunctions.py:741-748 | selecting against the eligible previous geometries is testing each eligible previous patch |
| AttrFunctions.OverlapNoneExample | toolbox/addAttrFunctions.py:741-756 | illustration: a LEWI patch with no previous patches gets OverlapPrv 1 |
| AttrFunctions.AddOverlapPrevGuarded | toolbox/addAttrFunctions.py:711-756 | with Calculate Field skipped on an empty selection, the base ends with the intended flags |
| AttrFunctions.IntendedOverlapMeaning | toolbox/addAttrFunctions.py:728-756 | intended: OverlapPrv is 1 exactly on eligible base patches that overlap an eligible previous patch; every other value is kept |
| AttrFunctions.OverlapAsIntended | toolbox/addAttrFunctions.py:741-756 | when some eligible base patch overlaps, the as-written flags are the intended ones |
| Events.AddFieldsFoldRows | toolbox/eventsFunctions.py:28-35 | adding fields keeps every row and value and gives each new field a null |
| Events.AddFieldsFoldKeys | toolbox/eventsFunctions.py:28-35 | the schema gains exactly the new names and keeps every definition it had |
| Events.AddFieldsFoldDefs | toolbox/eventsFunctions.py:21-35 | each new field gets the type and length listed with it |
| Events.AddEventFields | toolbox/eventsFunctions.py:14-43 | the 13 event fields are added, then Split is set to 0 on every patch |
| Events.EventFieldsMeaning | toolbox/eventsFunctions.py:14-43 | afterwards every patch has all 13 fields, Split is 0, an existing event field keeps its value and a new one is null |
| Events.LabelRowMeaning | toolbox/eventsFunctions.py:99-105 | a row the calls act on gets the annual-variability values and any other row keeps its values; geometry and other fields are unchanged |
| Events.LabelRowKeepsLayer | toolbox/eventsFunctions.py:46-83 | labelling does not move a patch into or out of a mask layer |
| Events.LabelStepsRows | toolbox/eventsFunctions.py:99-105 | the Calculate Field calls act row by row on the same rows each time |
| Events.AddAnnualVar | toolbox/eventsFunctions.py:86-105 | the seven fields are in the schema and the rows are labelled where the calls act on the layer |
| Events.LabelElevMask | toolbox/eventsFunctions.py:46-57 | the annual-variability label is applied to the patches with InMask = 1 |
| Events.LabelWaterMask | toolbox/eventsFunctions.py:60-83 | as written: the label is applied to the patches completely within the water mask, or to every patch when none is |
| Events.LabelRowsMeaning | toolbox/eventsFunctions.py:86-105 | a labelled patch (in the layer, or any patch when no patch is within water) holds exactly "Mask", "Annual Variability", 2, today, "Geoprocessing", 0, 0; any other patch keeps every value |
| Events.LabelBothMasks | toolbox/AddAttributesToPatches.py:184-192 | labelling with the elevation mask and then the water mask labels every patch in either mask (every patch when none is within water) once and changes nothing else |
| Events.WaterMaskEmptyExample | toolbox/eventsFunctions.py:67-83 | illustration: with no water polygon, a patch outside the mask is still labelled "Mask" |
| Events.LabelWaterMaskGuarded | toolbox/eventsFunctions.py:60-83 | with add_annual_var skipped on an empty selection, exactly the patches within water get the seven values and nothing else changes |
| Events.CalculateIsCopyStep | toolbox/eventsFunctions.py:137-143 | Calculate Field `f = !f_1!` on every row is a copy step |
| Events.UpdateEventFields | toolbox/eventsFunctions.py:108-146 | update_event_fields leaves the table as the copies followed by deleting the `_1` fields |
| Events.UpdateEventFieldsMeaning | toolbox/eventsFunctions.py:108-146 | each updated event field holds its `_1` value, the `_1` fields are gone, and ChangeDesc and every other field are unchanged |
| Events.UpdateArgsFacts | toolbox/eventsFunctions.py:116-134 | the two lists are in step, each joined name is the field name plus `_1`, the lists are disjoint, and ChangeDesc is in neither |
| ExpPatches.ExtractData | toolbox/expPatchesFunctions.py:62-102 | extract_data returns the frame of the requested fields in order |
| ExpPatches.ExtractedMeaning | toolbox/expPatchesFunctions.py:73-100 | one row per feature, holding the feature's value where the field exists and pd.NA where it does not |
| ExpPatches.NoLineBreaksMeaning | toolbox/expPatchesFunctions.py:122 | replacing line breaks keeps the length and every other character and leaves none |
| ExpPatches.CleanCellMeaning | toolbox/expPatchesFunctions.py:115-122 | a cell becomes pd.NA exactly when it was pd.NA, a 0 in Confidence or DistYear or a " " in the five text fields; other texts lose their line breaks; other values are kept |
| ExpPatches.CleanDataMeaning | toolbox/expPatchesFunctions.py:105-124 | clean_data keeps columns and rows and cleans every cell; pd.NA exactly where it was or a placeholder was |
| ExpPatches.CsvFrameNA | toolbox/expPatchesFunctions.py:96-122 | in the CSV frame a cell is pd.NA exactly when the feature class lacks the field or holds a placeholder; other texts are the feature's, without line breaks |
| ExpPatches.CheckChangeTypesAllNull | toolbox/expPatchesFunctions.py:153-154 | all-null ChangeType passes whatever AltType holds |
| ExpPatches.CheckChangeTypesFails | toolbox/expPatchesFunctions.py:143-205 | the corrected check (pd.NA read as null): otherwise it fails exactly when a ChangeType or AltType is set and outside the vocabulary and " " |
| ExpPatches.MismatchesInvalid | toolbox/expPatchesFunctions.py:127-192 | every reported mismatch is a non-null value outside the valid values |
| ExpPatches.CheckChangeTypesReportsInvalid | toolbox/expPatchesFunctions.py:177-192 | nulls are never reported |
| ExpPatches.CheckChangeTypesRaises | toolbox/expPatchesFunctions.py:127-192 | as written, the check raises exactly when some ChangeType is set and some ChangeType or AltType is pd.NA; otherwise it agrees with the corrected check |
| ExpPatches.CleanedChangeTypesRaise | toolbox/expPatchesFunctions.py:96-192 | on the CSV frame it raises exactly when some ChangeType is set and some patch has a " " ChangeType or AltType, or the feature class lacks one of them |
| ExpPatches.ShapefileFrame | toolbox/expPatchesFunctions.py:96-122 | illustration: the cleaned rows of a shapefile-imported table |
| ExpPatches.FrameChangeTypes | toolbox/expPatchesFunctions.py:127-192 | illustration: a frame with "Fire" and pd.NA rows raises as written and passes the corrected check |
| ExpPatches.ShapefileChangeTypes | toolbox/expPatchesFunctions.py:96-192 | illustration: the same for any field list holding ChangeType and AltType |
| ExpPatches.ChangeTypesNaExample | toolbox/expPatchesFunctions.py:96-192 | illustration: the CSV export of that table raises as written, while no change type is invalid |
| ExpPatches.CheckConfidence | toolbox/expPatchesFunctions.py:208-256 | the check fails exactly when an event row has Confidence outside 1 to 3 or, for Earth Engine, below 3 without an AltType |
| ExpPatches.PatchNames | toolbox/expPatchesFunctions.py:266-269 | one PatchName per row |
| ExpPatches.CountTwice | toolbox/expPatchesFunctions.py:266-269 | a name occurs at least twice exactly when another position holds it |
| ExpPatches.CheckDuplicatePatchNamesFails | toolbox/expPatchesFunctions.py:259-282 | the check fails exactly when two different rows share a PatchName |
| ExpPatches.DuplicatePatchNamesListed | toolbox/expPatchesFunctions.py:266-269 | the list holds only repeated names, and the name of every row whose name another row shares |
| ExpPatches.CheckFieldsHaveValues | toolbox/expPatchesFunctions.py:285-311 | the missing fields in listed order; the check fails exactly when a listed field is null or " " in some row |
| ExpPatches.GeeRowsMeaning | toolbox/expPatchesFunctions.py:41-43 | the Earth Engine frame keeps exactly the event rows other than Mask and Model, in order |
| ExpPatches.PrimaryValidation | toolbox/expPatchesFunctions.py:22-59 | the prepared frame, refused exactly when any of the three checks fails, all of them run |
| ExpPatches.ValueFields | toolbox/expPatchesFunctions.py:612-620 | the export fields except AltType, ChangeDesc, DistYear and DistName |
| ExpPatches.ExportPatchesCsv | toolbox/expPatchesFunctions.py:450-515 | with the corrected change-type check, the cleaned frame is written to the path exactly when validation passes; the result says whether it was refused |
| ExpPatches.ShpFolder | toolbox/expPatchesFunctions.py:421-433 | the first folder name of the "_GEE", "_GEE_1", ... sequence that does not exist; every earlier one exists |
| ExpPatches.ShpResultNeverTrue | toolbox/expPatchesFunctions.py:628-636 | as written, the result is never True and is None exactly when the export is refused |
| ExpPatches.ExportPatchesShp | toolbox/expPatchesFunctions.py:518-636 | refused exactly when validation fails or a required field lacks a value; otherwise a new folder is made |
| ExportPatches.FeatureClassesToExport | toolbox/ExportPatches.py:30-38 | the selection, wrapped into a list if single, or every feature class when nothing is selected |
| ExportPatches.CsvFileName | toolbox/ExportPatches.py:75-77 | the file name ends in ".csv" |
| ExportPatches.SaveFolderChoice | toolbox/ExportPatches.py:61-72 | the park folder is used exactly when the output folder holds one for the park code |
| ExportPatches.CsvNameAt | toolbox/ExportPatches.py:81-82 | after k collisions the name is 2k characters longer |
| ExportPatches.CsvNameNext | toolbox/ExportPatches.py:82 | one renaming turns the k-th name into the (k+1)-th |
| ExportPatches.CsvNameZero | toolbox/ExportPatches.py:77 | the name before any collision is the original name |
| ExportPatches.FirstFreeFromMeaning | toolbox/ExportPatches.py:81-83 | the loop as written ends on a free path with the k-th or a later name |
| ExportPatches.CsvPathAsWrittenLeavesSaveFolder | toolbox/ExportPatches.py:78-83 | as written, a collision in the save folder sends the file to a renamed path directly under the output folder |
| ExportPatches.FirstFreeFromStops | toolbox/ExportPatches.py:81 | a free path ends the loop |
| ExportPatches.ExampleRenamed | toolbox/ExportPatches.py:82 | the first renaming of an example name |
| ExportPatches.ExampleFree | toolbox/ExportPatches.py:83 | that renamed path does not exist in the example |
| ExportPatches.CsvPathAsWrittenExample | toolbox/ExportPatches.py:78-83 | with the park folder holding the CSV, the as-written path lands outside the park folder |
| ExportPatches.CsvOutPath | toolbox/ExportPatches.py:78-83 | the first free name of the "_1" sequence in the save folder; every earlier one exists |
| ExportPatches.GeeFlagAsWrittenNeverTruthy | toolbox/ExportPatches.py:91-92 | as written, OR-ing the Earth Engine results never makes the flag truthy |
| ExportPatches.GeeFlagAsWrittenExample | toolbox/ExportPatches.py:90-96 | one refused Earth Engine export and the run does not fail |
| ExportPatches.RefusedStep | toolbox/ExportPatches.py:87-92 | refusals among n+1 feature classes are those among n and the next one's |
| ExportPatches.WrittenStep | toolbox/ExportPatches.py:81-86 | a CSV written to a free path is new and distinct from the earlier ones, which still exist |
| ExportPatches.FlagsStep | toolbox/ExportPatches.py:87-92 | OR-ing in the next flag keeps each run flag equal to "some export so far was refused" |
| ExportPatches.ExportOne | toolbox/ExportPatches.py:49-92 | each flag is set exactly when that export is chosen and refused; a written CSV is at a path that did not exist |
| ExportPatches.ExportRun | toolbox/ExportPatches.py:30-96 | the run fails exactly when some chosen export was refused; CSVs are new, distinct files and no existing path is lost |
| AddAttr.ParkInputsMeaning | toolbox/addAttr.py:36-70 | every input carries the park prefix; the veg table, mask, protected areas and east/west polygons are missing exactly for LEWI |
| AddAttr.AddAttrPatches | toolbox/addAttr.py:28-108 | the stages start with deleting the derived fields, end with zonal geometry, and include the elevation statistics |
| AddAttr.StagesOrdered | toolbox/addAttr.py:32-108 | the stages run in their fixed order, and the derived fields are deleted first and only then |
| AddAttr.StagesClip | toolbox/addAttr.py:73-75 | clipping to the study area with the mmu happens exactly when asked |
| AddAttr.StagesForPark | toolbox/addAttr.py:85-97 | InMask on the park mask runs exactly for parks other than LEWI, whose point stage has no protected or east/west layers |
| AddAttributesToPatches.Park | toolbox/AddAttributesToPatches.py:50 | the park code is at most the first four characters of the park geodatabase's name |
| AddAttributesToPatches.YearShpsMeaning | toolbox/AddAttributesToPatches.py:62-64 | exactly the listed names ending in a year are kept, in listed order |
| AddAttributesToPatches.IsYearShpMeaning | toolbox/AddAttributesToPatches.py:64 | the test looks at the four characters before the extension; names of four characters or fewer fail |
| AddAttributesToPatches.YearShpExamples | toolbox/AddAttributesToPatches.py:64 | illustration: `change_1990.shp` passes; `change.shp` and `patches_final.shp` do not |
| AddAttributesToPatches.IndexOf | toolbox/AddAttributesToPatches.py:91-93 | `list.index`: the first position of the name, or an error exactly when it is absent |
| AddAttributesToPatches.MaxOf | toolbox/AddAttributesToPatches.py:84 | `max` is an element and at least every element |
| AddAttributesToPatches.MinOf | toolbox/AddAttributesToPatches.py:227 | `min` is an element and at most every element |
| AddAttributesToPatches.StartIndex | toolbox/AddAttributesToPatches.py:86-96 | the start index is in range, and strictly so when resuming or given a year |
| AddAttributesToPatches.StartIndexMeaning | toolbox/AddAttributesToPatches.py:86-96 | it fails exactly when a name to look up is missing; otherwise it is the first position of the given year, or else of the year after changeDB's last |
| AddAttributesToPatches.ResumeFcsMeaning | toolbox/AddAttributesToPatches.py:105-125 | resuming fails exactly when there are not two `change_*` feature classes or the first does not end in the last year |
| AddAttributesToPatches.ResumeYearExample | toolbox/AddAttributesToPatches.py:113 | illustration: `int("change_2005"[-4:])` is 2005 |
| AddAttributesToPatches.Resolve | toolbox/AddAttributesToPatches.py:86-130 | the start exists exactly when the index lookup and, when resuming, the resume block succeed |
| AddAttributesToPatches.Setup | toolbox/AddAttributesToPatches.py:66-141 | a start index is at most the number of year files |
| AddAttributesToPatches.SetupFresh | toolbox/AddAttributesToPatches.py:66-75 | a fresh run starts at index 0 with no base and nothing to reuse |
| AddAttributesToPatches.SetupAborts | toolbox/AddAttributesToPatches.py:79-125 | resuming or starting at a year stops exactly in the error cases of the source |
| AddAttributesToPatches.ResolveErr | toolbox/AddAttributesToPatches.py:86-125 | once changeDB's last year is known, the setup stops exactly when a year file to start with is missing or, resuming, the two `change_*` feature classes are not found or the first does not end in that year |
| AddAttributesToPatches.SetupIndex | toolbox/AddAttributesToPatches.py:86-96 | the loop starts at the given year's file, or else at the file of the year after changeDB's last |
| AddAttributesToPatches.SetupBase | toolbox/AddAttributesToPatches.py:105-141 | which feature class is reused and which is the base, for each way of starting; with a start year, changeDB has yods, the selected year is its last, and the base is named after that year |
| AddAttributesToPatches.SetupAsWritten | toolbox/AddAttributesToPatches.py:128-130 | as written, the setup succeeds and starts exactly as the corrected one; only a start year's base is named after the start year |
| AddAttributesToPatches.SeedCollides | toolbox/AddAttributesToPatches.py:128-220 | as written, a start year without resuming makes the base the first year's own feature class: that year is compared with itself, deleted, and then appended to changeDB |
| AddAttributesToPatches.SelfBaseYear | toolbox/AddAttributesToPatches.py:195-220 | a first year whose base is its own feature class compares it with itself, deletes it, and ends by appending it |
| AddAttributesToPatches.SeedDistinct | toolbox/AddAttributesToPatches.py:128-141 | with the base named after changeDB's last year, the first year is compared with another feature class exactly when the start year is not that last year |
| AddAttributesToPatches.SeedBaseMeaning | toolbox/AddAttributesToPatches.py:131-141 | the intended base holds exactly changeDB's patches of its last year, and equals the copied base exactly when changeDB holds no other year |
| AddAttributesToPatches.SeedBaseKeepsEarlierYears | toolbox/AddAttributesToPatches.py:131-141 | as written, a changeDB patch of another year is in the copied base and not in the intended one |
| AddAttributesToPatches.AllYears | toolbox/AddAttributesToPatches.py:144 | one entry per year file |
| AddAttributesToPatches.AllPatches | toolbox/AddAttributesToPatches.py:144 | one entry per year file |
| AddAttributesToPatches.TraceMeaning | toolbox/AddAttributesToPatches.py:144-220 | the trace holds one entry per processed year, that year's calls |
| AddAttributesToPatches.TraceAt | toolbox/AddAttributesToPatches.py:144-220 | each trace entry is its year's calls |
| AddAttributesToPatches.TraceStep | toolbox/AddAttributesToPatches.py:144-220 | finishing a year appends its calls |
| AddAttributesToPatches.ProcessedMeaning | toolbox/AddAttributesToPatches.py:216-220 | changeDB receives one feature class per year, that year's patches |
| AddAttributesToPatches.ProcessedStep | toolbox/AddAttributesToPatches.py:216-220 | finishing a year appends its feature class |
| AddAttributesToPatches.LoopStep | toolbox/AddAttributesToPatches.py:195-196 | one turn extends the calls and the added feature classes, and the base becomes the year's patches |
| AddAttributesToPatches.LoopStart | toolbox/AddAttributesToPatches.py:71-75 | before the loop nothing is done and the base is the one setup chose |
| AddAttributesToPatches.YearCalls | toolbox/AddAttributesToPatches.py:146-220 | the loop body makes exactly the year's calls on the year's feature class |
| AddAttributesToPatches.YearTurn | toolbox/AddAttributesToPatches.py:144-220 | a turn appends the year, moves prev_fc and base_fc on, and changeDB then exists |
| AddAttributesToPatches.ProcessYears | toolbox/AddAttributesToPatches.py:144-220 | the loop's calls, its added feature classes and its last base are the specification's |
| AddAttributesToPatches.AssembleLayout | toolbox/AddAttributesToPatches.py:151-220 | where each part of a year's calls sits |
| AddAttributesToPatches.AssembleOrder | toolbox/AddAttributesToPatches.py:184-209 | every label call comes before every overlap comparison |
| AddAttributesToPatches.AssembleLabels | toolbox/AddAttributesToPatches.py:184-192 | the label calls of a year are those of its label part |
| AddAttributesToPatches.AssembleStoreLast | toolbox/AddAttributesToPatches.py:216-220 | only the last call stores into changeDB |
| AddAttributesToPatches.YearParts | toolbox/AddAttributesToPatches.py:151-220 | a year's calls are assembled from its parts |
| AddAttributesToPatches.LabelStepsMeaning | toolbox/AddAttributesToPatches.py:184-192 | event fields first, the elevation mask only outside LEWI, the water mask last, and only with events_mask |
| AddAttributesToPatches.YearInput | toolbox/AddAttributesToPatches.py:151-166 | a resumed first year resets the reused feature class; every other year converts its shapefile |
| AddAttributesToPatches.OverlapRotation | toolbox/AddAttributesToPatches.py:195-212 | year i is compared with year i-1, the first year with the start's base (with a start year, the copy of changeDB's last year, see SeedCollides and SeedDistinct), and on a fresh run with nothing |
| AddAttributesToPatches.LabelsBeforeOverlap | toolbox/AddAttributesToPatches.py:184-212 | labels come before the overlap comparison; the elevation mask runs exactly outside LEWI with events_mask |
| AddAttributesToPatches.ChangeDbOnce | toolbox/AddAttributesToPatches.py:216-220 | changeDB is created by the first processed year when missing and appended to otherwise, by the last call only |
| AddAttributesToPatches.StepsStoreLast | toolbox/AddAttributesToPatches.py:216-220 | a year assembled from its steps stores into changeDB by its last call only |
| AddAttributesToPatches.StepsNoStore | toolbox/AddAttributesToPatches.py:184-212 | neither the label nor the overlap calls store into changeDB |
| AddAttributesToPatches.FinalNameInjective | toolbox/AddAttributesToPatches.py:234 | within one park the final name determines the start and end years |
| AddAttributesToPatches.Run | toolbox/AddAttributesToPatches.py:19-236 | with the start year's base named after changeDB's last year, the tool aborts exactly in the setup's error cases and when no base or no yod is left at the end; otherwise the prelude (select and copy of changeDB with a start year, else nothing), the calls, the feature classes added, min and max of changeDB's yods, the new name and the final Delete, PatchName and Rename calls |

## Left out

- **Geometry and rasters.** These are not computed: Clip, spatial joins, Select Layer By Location, zonal statistics, central points and coordinates. `Spatial`, `SpatialJoin` and the majority function are parameters. add_utm_dd, add_albers (its returned list is a parameter of AddCoords), create_central_points, add_zonal_geometry, add_paratio and add_lat_long_wgs84 are recorded only as a stage or an action.
- **zonal_stats_rename_field** appears only as a stage of AddAttr, with its raster, statistic and field.
- **del_select_patches** is not modelled. It belongs to the select-patches tool, which is not part of this model.
- **Thin drivers.** AddAttrToSelectPatchesExportCSV.py and JoinLabelsToPatches.py are not part of this model.
- **File system.** set_default_gdb_workspace, shapefile conversion, CopyFeatures, Append, Delete, Rename, mkdir and `to_csv` are recorded or reduced to a set of existing paths. No file contents are modelled.
- **Inputs given as parameters.** These are read from outside and passed in:
  - the change-type vocabulary read from the lookup table;
  - `date.today()`;
  - the folder listings;
  - the yod values read from changeDB and each processed feature class (`yodsOf`).
- **Floating point.** Areas, perimeters and rounding are abstract (`round` is a parameter). `int(x)` of a float is truncation toward zero.
- **Python and pandas semantics.**
  - A frame cell is a Python value or pd.NA (`ExpPatches.FrameCell`). Null tests read pd.NA and None alike. Column dtypes are not modelled: a comparison such as `Confidence < 1` reads pd.NA as null.
  - `isdigit` is limited to ASCII digits.
  - `int()` accepts no surrounding whitespace.
  - Paths are joined with "/".
- **Join Field naming.** A joined name already in the table gets the suffix `_1` only, which is the only case the scripts meet.
- AddAttributesToPatches.Run: uses the corrected base name of the Findings row for :128-166. As written, a run given a start year and not resuming deletes the first year's patches before appending them, and so errors at :220; SeedCollides states the calls that lead there, and Run does not report that error. A start year equal to changeDB's last year makes the same self-comparison with the corrected name (SeedDistinct), and Run does not report that either.
- AddAttributesToPatches.Run: a resume whose first feature class's year is not changeDB's last would crash later on a None patches_fc. Here it is the abort ResumePatchesUnset. Deleting a None base_fc at the end is the abort NoBaseToDelete.
- AddAttributesToPatches.ProcessYears: the calls are recorded in order, not executed. Their effects on a feature class are modelled by the AttrUtils, AttrFunctions and Events methods.
- AddAttr.AddAttrPatches: records the stages it runs with their inputs and does not run them.
- AttrFunctions.AddAttrsPoints: deleting the central points afterwards is not modelled.
- AttrFunctions.AddCoords: the UTM and latitude/longitude fields are not modelled, only CoordType and Datum.
- AttrFunctions.AddCoords: requires that a list returned by add_albers names at least one patch of the table. add_albers builds it from the table's own annualIDs, and it is not modelled.
- AttrFunctions.AddParkPatchName: `str` of a float yod or annualID is modelled only for whole values below 10^16 in magnitude (`2001.0` gives "2001.0"). Any other float counts as a failing calculation.
- ExpPatches.ExportPatchesCsv: uses the corrected change-type check, which reads pd.NA as null. As written, check_change_types raises TypeError once some ChangeType is set and a ChangeType or AltType is pd.NA (a cleaned " ", or a field the feature class lacks), and the tool stops without writing; CheckChangeTypesAsWritten and the Findings row state this.
- ExpPatches.ExportPatchesShp: uses the same corrected check. As written it raises when the feature class lacks AltType (or ChangeType is pd.NA) and some ChangeType is set.
- ExportPatches.ExportRun: an export that raises ends the source's whole run. The model uses the corrected check, so no export raises.
- FeatureClasses.FeatureClass.CalculateField: does not check a text value against the field's length. The overflow is modelled where the scripts compute the value: VegCode (four characters) and PatchName (50). Values joined from other layers (WildName, LandMgmt, Watershed, EastWest) come from fields whose lengths are not modelled.
- AttrFunctions.AddParkPatchName: Park (four characters) is not checked against the park code's length. Its one caller passes the first four characters of the geodatabase name.
- AttrFunctions.AddVegType: when the patches already hold a CODE field, Join Field names the joined one CODE_1 and renames the old CODE. For that case the model states only that every VegCode fits.
- **Selections and the corrections.** The tool members model the code as written, including the ArcGIS rule that a tool run on a layer with an empty selection acts on every row of the layer. The `Guarded` members and the `Intended` definitions are the corrected behaviour listed under Findings, and no tool member calls them.
- **Messages.** Logging and error messages (`AddMessage`, `AddError`) are not modelled. Only the outcome is.

## Findings

| source | as written | input that shows it | evidently intended | confidence | as-written member | corrected member |
|---|---|---|---|---|---|---|
| toolbox/expPatchesFunctions.py:628-636 with toolbox/ExportPatches.py:91-92 | export_patches_shp returns nothing when validation fails, so `no_export_gee or None` stays falsy and the run never fails for a refused Earth Engine export | one feature class whose Earth Engine export is refused: the flag stays falsy and the tool ends without error | return the flag on both paths, so that the run fails when an export was refused | not executed | ExpPatches.ShpResultNeverTrue, ExportPatches.GeeFlagAsWrittenNeverTruthy, ExportPatches.GeeFlagAsWrittenExample | ExpPatches.ExportPatchesShp, ExportPatches.ExportRun |
| toolbox/ExportPatches.py:81-83 | after a collision the renamed CSV path is rebuilt under `csv_out_folder`, not the park (or Patches_CSV) save folder | `out/PARK/PARK_patches_1990_2020.csv` exists: the file is written to `out/PARK_patches_1990_2020_1.csv` | keep the save folder and insert "_1" until the name is free | not executed | ExportPatches.CsvPathAsWrittenLeavesSaveFolder, ExportPatches.CsvPathAsWrittenExample | ExportPatches.CsvOutPath |
| toolbox/addAttrUtils.py:114-129 | the inverted selection is empty when every point relates, so Calculate Field writes 0 into every row | every central point inside the park: InPark is 0 on all of them | skip the second Calculate Field when nothing is selected, leaving 1 on every point | not executed | AttrUtils.FlagRowsMeaning, AttrUtils.FlagRowsAllRelate, AttrUtils.FlagRowsAllRelateExample | AttrUtils.SelectCalculateGuarded, AttrUtils.IntendedFlagRowsMeaning |
| toolbox/addAttrFunctions.py:49-58 | when no clipped patch is below the MMU the selection is empty and Delete Features deletes every patch | one clipped patch of 10000 m² with mmu 5 (threshold 4500 m²): no patch is left | delete only when something is selected, as del_select_patches does | not executed | AttrFunctions.ClippedRowsMeaning, AttrFunctions.ClipDeletesAllExample | AttrFunctions.ClipPatchesGuarded, AttrFunctions.IntendedClippedRowsMeaning |
| toolbox/addAttrFunctions.py:741-756 | when no eligible base patch overlaps the previous year, Calculate Field sets OverlapPrv to 1 on every eligible base patch | a LEWI base patch and no previous patches: OverlapPrv becomes 1 | set OverlapPrv only on the overlapping patches | not executed | AttrFunctions.OverlapMeaning, AttrFunctions.OverlapNoneExample | AttrFunctions.AddOverlapPrevGuarded, AttrFunctions.IntendedOverlapMeaning |
| toolbox/eventsFunctions.py:67-83 | when no patch is completely within water, add_annual_var labels every patch as annual variability | an empty water mask: every patch gets EventType "Mask" | label only the patches within water | not executed | Events.LabelRowsMeaning, Events.WaterMaskEmptyExample | Events.LabelWaterMaskGuarded |
| toolbox/expPatchesFunctions.py:115-137 | clean_data turns a " " ChangeType or AltType into pd.NA, and `df_row[col] not in valid_values` cannot turn a comparison with pd.NA into a bool, so check_change_types raises TypeError | a feature class imported from a shapefile, ChangeType "Fire" on one patch and " " on another: the CSV export stops with TypeError | read pd.NA like None, as a null that is not checked | not executed | ExpPatches.CheckChangeTypesRaises, ExpPatches.CleanedChangeTypesRaise, ExpPatches.ChangeTypesNaExample | ExpPatches.CheckChangeTypesFails, ExpPatches.CheckChangeTypesReportsInvalid, ExpPatches.ExportPatchesCsv |
| toolbox/AddAttributesToPatches.py:128-166 | with a start year and no resume, the base is `change_{shp_yr}` in the default geodatabase, the name the start year's shapefile is then converted to: the first year is compared with itself, Delete at :212 removes it, and Append at :220 reads a feature class that no longer exists | start year 2005 with changeDB present and `change_2005.shp` listed: `add_overlap_prev(X, X)`, `Delete(X)`, `Append(X, changeDB)` | name the base after changeDB's last year, the year it holds, as the resume block expects | not executed | AddAttributesToPatches.SetupAsWritten, AddAttributesToPatches.SeedCollides | AddAttributesToPatches.SeedDistinct, AddAttributesToPatches.SetupBase, AddAttributesToPatches.Run |
| toolbox/AddAttributesToPatches.py:131-141 | SelectLayerByAttribute is applied to the changeDB path, and CopyFeatures of that path copies every year of changeDB into the base | changeDB holding patches of 2019 and 2020: the 2019 patches are also in the base | copy only the patches of changeDB's last year | not executed | AddAttributesToPatches.SeedBaseKeepsEarlierYears | AddAttributesToPatches.SeedBaseMeaning |
