/**
 * The Add Attributes to Patches tool (toolbox/AddAttributesToPatches.py): it keeps the year
 * shapefiles of a LandTrendr run, works out where to start (a fresh run, resuming an interrupted
 * run, or a given year), then for each year converts the shapefile, adds the attributes, labels
 * events, flags overlap with the previous year and adds the year to the cumulative changeDB
 * feature class, and finally names the patches and renames changeDB after its first and last
 * year of detection.
 *
 * The geoprocessing calls are recorded as `Action`s in the order the tool makes them; what each
 * does to a feature class is modelled in AddAttr, AttrFunctions and Events. The listing of the
 * patches folder, the yod values read from changeDB and the `change_*` feature classes of the
 * default geodatabase are inputs.
 */
module AddAttributesToPatches {
  import opened Wrappers
  import opened Values
  import opened Paths
  import opened FeatureClasses
  import AttrFunctions

  /** The tool's parameters, and the default geodatabase of the project. */
  datatype Inputs = Inputs(
    patchesFolder: string, resumePrev: bool, shpYr: string, parkGdb: string, clipPatches: bool,
    mmu: int, runGdb: string, eventsMask: bool, defaultGdb: string)

  /** The park code: the first four characters of the park geodatabase's name. */
  function Park(inp: Inputs): (park: string)
    ensures park <= Basename(inp.parkGdb) && |park| <= 4
  {
    Prefix(Basename(inp.parkGdb), 4)
  }

  /** The cumulative feature class in the run geodatabase. */
  function ChangeDb(inp: Inputs): string
  {
    Join(inp.runGdb, Park(inp) + "_changeDB")
  }

  /** The park geodatabase path with the park prefix of its items. */
  function ParkPath(inp: Inputs): string
  {
    Join(inp.parkGdb, Park(inp) + "_")
  }

  // ---------------------------------------------------------------------------
  // The year shapefiles
  // ---------------------------------------------------------------------------

  /** A shapefile name whose characters `[-8:-4]` are all digits (and there is at least one). */
  predicate IsYearShp(name: string)
  {
    var y := Slice(name, 8, 4);
    |y| > 0 && AllDigits(y)
  }

  function YearShpSel(): string -> bool
  {
    name => IsYearShp(name)
  }

  /** The listed shapefiles that end in a year, in listed order. */
  function YearShps(listed: seq<string>): seq<string>
  {
    Filter(listed, YearShpSel())
  }

  /** Exactly the listed names ending in a year are kept, and appending a name to the listing appends it or nothing. */
  lemma YearShpsMeaning(listed: seq<string>, name: string)
    ensures name in YearShps(listed) <==> name in listed && IsYearShp(name)
    ensures YearShps(listed + [name]) == YearShps(listed) + (if IsYearShp(name) then [name] else [])
  {
    FilterSnoc(listed, name, YearShpSel());
  }

  /** For a name of at least eight characters the test is on the four characters before the extension. */
  lemma IsYearShpMeaning(name: string)
    ensures |name| >= 8 ==> (IsYearShp(name) <==> AllDigits(name[|name| - 8..|name| - 4]))
    ensures |name| <= 4 ==> !IsYearShp(name)
    ensures IsYearShp(name) ==> |name| > 4
  {
  }

  /** `change_1990.shp` is a year file; `change.shp` and `patches_final.shp` are not. */
  lemma YearShpExamples()
    ensures IsYearShp("change_1990.shp")
    ensures !IsYearShp("change.shp")
    ensures !IsYearShp("patches_final.shp")
  {
    assert Slice("change_1990.shp", 8, 4) == "1990";
    assert Slice("change.shp", 8, 4)[0] == 'a' && !IsDigit('a');
    assert Slice("patches_final.shp", 8, 4)[0] == 'i' && !IsDigit('i');
  }

  /** The name of a year's shapefile. */
  function ShpName(yr: string): string
  {
    "change_" + yr + ".shp"
  }

  // ---------------------------------------------------------------------------
  // Where to start
  // ---------------------------------------------------------------------------

  /** `s.index(x)`: the first position of x, or None where Python raises ValueError. */
  function IndexOf(s: seq<string>, x: string): (r: Option<nat>)
    ensures r.None? <==> x !in s
    ensures r.Some? ==> r.value < |s| && s[r.value] == x && x !in s[..r.value]
  {
    if |s| == 0 then None
    else if s[0] == x then Some(0)
    else
      var r := IndexOf(s[1..], x);
      assert s[1..][..if r.Some? then r.value else 0] == s[..if r.Some? then r.value + 1 else 1][1..];
      if r.None? then None else Some(r.value + 1)
  }

  /** `max(s)`. */
  function MaxOf(s: seq<int>): (m: int)
    requires |s| > 0
    ensures m in s && forall x :: x in s ==> x <= m
  {
    if |s| == 1 then s[0]
    else
      var m := MaxOf(s[1..]);
      assert forall x :: x in s ==> x == s[0] || x in s[1..];
      if s[0] > m then s[0] else m
  }

  /** `min(s)`. */
  function MinOf(s: seq<int>): (m: int)
    requires |s| > 0
    ensures m in s && forall x :: x in s ==> m <= x
  {
    if |s| == 1 then s[0]
    else
      var m := MinOf(s[1..]);
      assert forall x :: x in s ==> x == s[0] || x in s[1..];
      if s[0] < m then s[0] else m
  }

  /** Why the tool stops with an error. */
  datatype Abort =
    | ChangeDbMissing       // resuming or starting at a year without changeDB
    | NoYods                // max()/min() of an empty yod list
    | YearFileNotFound      // the year to resume or start with has no shapefile
    | ResumeFcsNotFound     // not exactly two `change_*` feature classes to resume from
    | ResumeFcNotYear       // int() of the first one's last four characters raises
    | ResumePatchesUnset    // its year is not changeDB's last, so patches_fc stays None
    | NoBaseToDelete        // nothing was processed, so base_fc is None at the final Delete

  /**
   * Where the loop starts: the index into the year files, the base feature class the first
   * processed year is compared with, the feature class a resumed run reuses, and the changeDB
   * year selected before the base is seeded when a start year is given.
   */
  datatype Start = Start(yrIndex: nat, base: Option<string>, resumed: Option<string>, seedYear: Option<int>)

  /**
   * The try block: the index of `change_{last+1}.shp` when resuming, overridden by that of
   * `change_{shp_yr}.shp` when a year is given; a name that is not listed stops the tool.
   */
  function StartIndex(inp: Inputs, shps: seq<string>, lastYr: int): (r: Result<nat, Abort>)
    ensures r.Ok? ==> r.value <= |shps|
    ensures r.Ok? && (inp.resumePrev || inp.shpYr != "") ==> r.value < |shps|
  {
    var resumeIdx := IndexOf(shps, ShpName(IntToString(lastYr + 1)));
    var givenIdx := IndexOf(shps, ShpName(inp.shpYr));
    if inp.resumePrev && resumeIdx.None? then Err(YearFileNotFound)
    else if inp.shpYr != "" && givenIdx.None? then Err(YearFileNotFound)
    else if inp.shpYr != "" then Ok(givenIdx.value)
    else if inp.resumePrev then Ok(resumeIdx.value)
    else Ok(0)
  }

  /**
   * The start index fails exactly when a name to look up is not listed; otherwise it is the
   * first position of the given year's shapefile, or else of the year after changeDB's last.
   */
  lemma StartIndexMeaning(inp: Inputs, shps: seq<string>, lastYr: int)
    requires inp.resumePrev || inp.shpYr != ""
    ensures var r := StartIndex(inp, shps, lastYr);
      var want := if inp.shpYr != "" then ShpName(inp.shpYr) else ShpName(IntToString(lastYr + 1));
      && (r.Err? <==> (inp.resumePrev && ShpName(IntToString(lastYr + 1)) !in shps) || (inp.shpYr != "" && ShpName(inp.shpYr) !in shps))
      && (r.Ok? ==> r.value < |shps| && shps[r.value] == want && want !in shps[..r.value])
  {
  }

  /**
   * The resume block: exactly two `change_*` feature classes, the first ending in changeDB's
   * last year, give the base to compare with and the patches to reuse.
   */
  function ResumeFcs(gdb: string, fcs: seq<string>, lastYr: int): Result<(string, string), Abort>
  {
    if |fcs| != 2 then Err(ResumeFcsNotFound)
    else
      var prevYr := PyInt(Suffix(fcs[0], 4));
      if prevYr.None? then Err(ResumeFcNotYear)
      else if prevYr.value != lastYr then Err(ResumePatchesUnset)
      else Ok((Join(gdb, fcs[0]), Join(gdb, fcs[1])))
  }

  /** Resuming fails exactly when there are not two feature classes or the first does not end in the last year. */
  lemma ResumeFcsMeaning(gdb: string, fcs: seq<string>, lastYr: int)
    ensures ResumeFcs(gdb, fcs, lastYr).Err? <==> |fcs| != 2 || PyInt(Suffix(fcs[0], 4)) != Some(lastYr)
    ensures ResumeFcs(gdb, fcs, lastYr).Ok? ==> ResumeFcs(gdb, fcs, lastYr).value == (Join(gdb, fcs[0]), Join(gdb, fcs[1]))
  {
  }

  /** The resume year `int(s[-4:])` of a feature class named after a four-digit year. */
  lemma ResumeYearExample()
    ensures PyInt(Suffix("change_2005", 4)) == Some(2005)
  {
    assert Suffix("change_2005", 4) == "2005";
    assert NatToString(2005) == "2005";
    IntToStringRoundTrip(2005);
  }

  /**
   * The end of the setup, once changeDB's last year is known: the start index and the resume
   * block's result decide the start, the first error stopping the tool.
   */
  function Resolve(inp: Inputs, idx: Result<nat, Abort>, resume: Result<(string, string), Abort>, lastYr: int)
    : (r: Result<Start, Abort>)
    ensures r.Ok? ==> idx.Ok? && r.value.yrIndex == idx.value
    ensures r.Err? <==> idx.Err? || (inp.resumePrev && resume.Err?)
  {
    if idx.Err? then Err(idx.error)
    else if inp.resumePrev && resume.Err? then Err(resume.error)
    else
      var resumed := if inp.resumePrev then Some(resume.value.1) else None;
      if inp.shpYr != "" then
        Ok(Start(idx.value, Some(SeedName(inp.defaultGdb, lastYr)), resumed, Some(lastYr)))
      else
        Ok(Start(idx.value, if inp.resumePrev then Some(resume.value.0) else None, resumed, None))
  }

  /**
   * The base seeded from changeDB when a start year is given, named after the year it holds:
   * changeDB's last year, as the resume block expects of the first `change_*` feature class.
   */
  function SeedName(gdb: string, lastYr: int): string
  {
    Join(gdb, "change_" + IntToString(lastYr))
  }

  /** As written, the seeded base is named after the start year, which is the name its shapefile converts to. */
  function SeedNameAsWritten(gdb: string, shpYr: string): string
  {
    Join(gdb, "change_" + shpYr)
  }

  /**
   * The start of the run. `dbYods` is None when changeDB does not exist, otherwise its yod
   * values; `fcs` the `change_*` feature classes of the default geodatabase.
   */
  function Setup(inp: Inputs, shps: seq<string>, dbYods: Option<seq<int>>, fcs: seq<string>): (r: Result<Start, Abort>)
    ensures r.Ok? ==> r.value.yrIndex <= |shps|
  {
    if !inp.resumePrev && inp.shpYr == "" then Ok(Start(0, None, None, None))
    else if dbYods.None? then Err(ChangeDbMissing)
    else if |dbYods.value| == 0 then Err(NoYods)
    else
      var lastYr := MaxOf(dbYods.value);
      Resolve(inp, StartIndex(inp, shps, lastYr), ResumeFcs(inp.defaultGdb, fcs, lastYr), lastYr)
  }

  /** The setup as written: the same, except that a start year's base is named after that year. */
  function SetupAsWritten(inp: Inputs, shps: seq<string>, dbYods: Option<seq<int>>, fcs: seq<string>): (r: Result<Start, Abort>)
    ensures r.Ok? <==> Setup(inp, shps, dbYods, fcs).Ok?
    ensures r.Ok? ==> (r.value.yrIndex == Setup(inp, shps, dbYods, fcs).value.yrIndex
                       && r.value.resumed == Setup(inp, shps, dbYods, fcs).value.resumed)
  {
    var r := Setup(inp, shps, dbYods, fcs);
    if r.Ok? && inp.shpYr != "" then Ok(r.value.(base := Some(SeedNameAsWritten(inp.defaultGdb, inp.shpYr)))) else r
  }

  /** A fresh run starts at the first year file with nothing to compare with. */
  lemma SetupFresh(inp: Inputs, shps: seq<string>, dbYods: Option<seq<int>>, fcs: seq<string>)
    requires !inp.resumePrev && inp.shpYr == ""
    ensures Setup(inp, shps, dbYods, fcs) == Ok(Start(0, None, None, None))
  {
  }

  /**
   * Resuming or starting at a year stops exactly when changeDB is missing or empty, a year file
   * to start with is not listed, or (resuming) there are not exactly two `change_*` feature
   * classes whose first ends in changeDB's last year.
   */
  lemma SetupAborts(inp: Inputs, shps: seq<string>, dbYods: Option<seq<int>>, fcs: seq<string>)
    requires inp.resumePrev || inp.shpYr != ""
    ensures dbYods.None? ==> Setup(inp, shps, dbYods, fcs) == Err(ChangeDbMissing)
    ensures dbYods == Some([]) ==> Setup(inp, shps, dbYods, fcs) == Err(NoYods)
    ensures dbYods.Some? && |dbYods.value| > 0 ==>
      var lastYr := MaxOf(dbYods.value);
      (Setup(inp, shps, dbYods, fcs).Err? <==>
        || (inp.resumePrev && ShpName(IntToString(lastYr + 1)) !in shps)
        || (inp.shpYr != "" && ShpName(inp.shpYr) !in shps)
        || (inp.resumePrev && (|fcs| != 2 || PyInt(Suffix(fcs[0], 4)) != Some(lastYr))))
  {
    if dbYods.None? {
    } else if |dbYods.value| == 0 {
    } else {
      var lastYr := MaxOf(dbYods.value);
      assert Setup(inp, shps, dbYods, fcs) == Resolve(inp, StartIndex(inp, shps, lastYr), ResumeFcs(inp.defaultGdb, fcs, lastYr), lastYr);
      ResolveErr(inp, shps, fcs, lastYr);
    }
  }

  /** Once changeDB's last year is known, the setup stops exactly when a year file or the resume pair is missing. */
  lemma ResolveErr(inp: Inputs, shps: seq<string>, fcs: seq<string>, lastYr: int)
    requires inp.resumePrev || inp.shpYr != ""
    ensures Resolve(inp, StartIndex(inp, shps, lastYr), ResumeFcs(inp.defaultGdb, fcs, lastYr), lastYr).Err? <==>
        || (inp.resumePrev && ShpName(IntToString(lastYr + 1)) !in shps)
        || (inp.shpYr != "" && ShpName(inp.shpYr) !in shps)
        || (inp.resumePrev && (|fcs| != 2 || PyInt(Suffix(fcs[0], 4)) != Some(lastYr)))
  {
    var idx := StartIndex(inp, shps, lastYr);
    var resume := ResumeFcs(inp.defaultGdb, fcs, lastYr);
    assert idx.Err? <==> (inp.resumePrev && ShpName(IntToString(lastYr + 1)) !in shps)
                         || (inp.shpYr != "" && ShpName(inp.shpYr) !in shps) by {
      StartIndexMeaning(inp, shps, lastYr);
    }
    assert resume.Err? <==> |fcs| != 2 || PyInt(Suffix(fcs[0], 4)) != Some(lastYr) by {
      ResumeFcsMeaning(inp.defaultGdb, fcs, lastYr);
    }
  }

  /**
   * After a successful setup that resumes or is given a year: the loop starts at the first
   * occurrence of the given year's shapefile, or else of the year after changeDB's last, and
   * resuming needs the latter listed even when a year is given.
   */
  lemma SetupIndex(inp: Inputs, shps: seq<string>, dbYods: Option<seq<int>>, fcs: seq<string>)
    requires inp.resumePrev || inp.shpYr != ""
    requires Setup(inp, shps, dbYods, fcs).Ok?
    ensures dbYods.Some? && |dbYods.value| > 0
    ensures var st := Setup(inp, shps, dbYods, fcs).value;
      var lastYr := MaxOf(dbYods.value);
      var want := if inp.shpYr != "" then ShpName(inp.shpYr) else ShpName(IntToString(lastYr + 1));
      && st.yrIndex < |shps| && shps[st.yrIndex] == want && want !in shps[..st.yrIndex]
      && (inp.resumePrev ==> ShpName(IntToString(lastYr + 1)) in shps)
  {
    var lastYr := MaxOf(dbYods.value);
    var idx := StartIndex(inp, shps, lastYr);
    var want := if inp.shpYr != "" then ShpName(inp.shpYr) else ShpName(IntToString(lastYr + 1));
    assert idx.Ok? && Setup(inp, shps, dbYods, fcs).value.yrIndex == idx.value by {
      assert Setup(inp, shps, dbYods, fcs) == Resolve(inp, idx, ResumeFcs(inp.defaultGdb, fcs, lastYr), lastYr);
    }
    assert idx.value < |shps| && shps[idx.value] == want && want !in shps[..idx.value]
           && (inp.resumePrev ==> ShpName(IntToString(lastYr + 1)) in shps) by {
      StartIndexMeaning(inp, shps, lastYr);
    }
  }

  /**
   * After a successful setup: a resumed run reuses the second `change_*` feature class and
   * compares with the first, unless a start year is given, whose base is named after that year
   * and seeded from changeDB after selecting changeDB's last year (see SeedBaseAsWritten).
   */
  lemma SetupBase(inp: Inputs, shps: seq<string>, dbYods: Option<seq<int>>, fcs: seq<string>)
    requires Setup(inp, shps, dbYods, fcs).Ok?
    ensures var st := Setup(inp, shps, dbYods, fcs).value;
      && (st.resumed.Some? <==> inp.resumePrev)
      && (inp.resumePrev ==> st.resumed == Some(Join(inp.defaultGdb, fcs[1])))
      && (inp.resumePrev && inp.shpYr == "" ==> st.base == Some(Join(inp.defaultGdb, fcs[0])))
      && (inp.shpYr != "" ==>
            dbYods.Some? && |dbYods.value| > 0 &&
            st.base == Some(SeedName(inp.defaultGdb, MaxOf(dbYods.value))) && st.seedYear == Some(MaxOf(dbYods.value)))
      && (st.base.None? <==> !inp.resumePrev && inp.shpYr == "")
  {
    if inp.resumePrev {
      ResumeFcsMeaning(inp.defaultGdb, fcs, MaxOf(dbYods.value));
    }
  }

  // ---------------------------------------------------------------------------
  // Seeding the base from changeDB
  // ---------------------------------------------------------------------------

  /** SQL `yod = {year}` on changeDB. */
  function YodIs(year: int): Feature -> bool
  {
    (r: Feature) => NumEquals(Get(r.attrs, "yod"), year)
  }

  /**
   * The rows of the base as the tool writes them: the selection by `yod = {lastYr}` is made on
   * the changeDB path, so CopyFeatures of that path copies every row of changeDB, of every year.
   */
  function SeedBaseAsWritten(db: seq<Feature>, lastYr: int): seq<Feature>
  {
    db
  }

  /** The base as the comment above the selection intends: changeDB's patches of its last year. */
  function SeedBase(db: seq<Feature>, lastYr: int): seq<Feature>
  {
    Filter(db, YodIs(lastYr))
  }

  /**
   * The intended base holds exactly changeDB's patches whose yod is the last year, in changeDB's
   * order; it equals the base the tool writes exactly when changeDB holds no other year.
   */
  lemma SeedBaseMeaning(db: seq<Feature>, lastYr: int)
    ensures forall r :: r in SeedBase(db, lastYr) <==> r in db && NumEquals(Get(r.attrs, "yod"), lastYr)
    ensures (forall i :: 0 <= i < |db| ==> NumEquals(Get(db[i].attrs, "yod"), lastYr)) <==>
            SeedBase(db, lastYr) == SeedBaseAsWritten(db, lastYr)
  {
    if forall i :: 0 <= i < |db| ==> NumEquals(Get(db[i].attrs, "yod"), lastYr) {
      FilterKeepsAll(db, YodIs(lastYr));
    }
    if SeedBase(db, lastYr) == SeedBaseAsWritten(db, lastYr) {
      forall i | 0 <= i < |db| ensures NumEquals(Get(db[i].attrs, "yod"), lastYr) {
        assert db[i] in SeedBase(db, lastYr);
      }
    }
  }

  /** As written, a patch of an earlier year in changeDB is copied into the base. */
  lemma SeedBaseKeepsEarlierYears(db: seq<Feature>, lastYr: int, i: nat)
    requires i < |db| && !NumEquals(Get(db[i].attrs, "yod"), lastYr)
    ensures db[i] in SeedBaseAsWritten(db, lastYr) && db[i] !in SeedBase(db, lastYr)
  {
  }

  // ---------------------------------------------------------------------------
  // The year loop
  // ---------------------------------------------------------------------------

  /** The geoprocessing calls the tool makes, with the feature classes they act on. */
  datatype Action =
    | SelectYear(db: string, yod: int)                        // SelectLayerByAttribute `yod = …` on the changeDB path
    | CopyAll(db: string, fc: string)                         // CopyFeatures of the changeDB path
    | ResetFields(fc: string)                                 // del_existing_fields
    | Convert(shp: string, fc: string)                        // FeatureClassToGeodatabase
    | AddAttributes(fc: string, clip: bool, mmu: int)         // add_attr_patches
    | AddParatio(fc: string)                                  // add_paratio
    | AddEventFields(fc: string)                              // add_event_fields
    | LabelElevMask(fc: string)                               // label_elev_mask
    | LabelWaterMask(fc: string, water: string)               // label_water_mask
    | AddOverlapField(fc: string)                             // AddField OverlapPrv
    | OverlapPrev(fc: string, prev: string, park: string, eventsMask: bool)   // add_overlap_prev
    | Delete(fc: string)                                      // Delete
    | CreateChangeDb(fc: string, db: string)                  // CopyFeatures into changeDB
    | AppendToChangeDb(fc: string, db: string)                // Append to changeDB
    | AddParkPatchName(db: string, park: string, mmu: int, startYr: int, endYr: int)
    | Rename(db: string, name: string)

  predicate IsLabel(a: Action)
  {
    a.AddEventFields? || a.LabelElevMask? || a.LabelWaterMask?
  }

  /** What every year shares: the tool's settings and the paths derived from the park. */
  datatype Ctx = Ctx(patchesFolder: string, defaultGdb: string, clip: bool, mmu: int, eventsMask: bool,
                     park: string, lewi: bool, water: string, db: string)

  function ContextOf(inp: Inputs): Ctx
  {
    Ctx(inp.patchesFolder, inp.defaultGdb, inp.clipPatches, inp.mmu, inp.eventsMask,
        Park(inp), Park(inp) == "LEWI", ParkPath(inp) + "water_fc", ChangeDb(inp))
  }

  /** The feature class of year i: the reused one on a resumed run's first year, otherwise the converted shapefile. */
  function PatchesAt(ctx: Ctx, shps: seq<string>, st: Start, i: nat): string
    requires i < |shps|
  {
    if st.resumed.Some? && i == st.yrIndex then st.resumed.value
    else Join(ctx.defaultGdb, DropLast(shps[i], 4))
  }

  /** base_fc once years yrIndex .. i-1 are done: the last of them, or the start's base. */
  function BaseAfter(ctx: Ctx, shps: seq<string>, st: Start, i: nat): Option<string>
    requires st.yrIndex <= i <= |shps|
  {
    if i == st.yrIndex then st.base else Some(PatchesAt(ctx, shps, st, i - 1))
  }

  /** The call that brings year i's patches into the default geodatabase (or readies the reused ones). */
  function InputStep(ctx: Ctx, shps: seq<string>, st: Start, i: nat): Action
    requires i < |shps|
  {
    if st.resumed.Some? && i == st.yrIndex then ResetFields(PatchesAt(ctx, shps, st, i))
    else Convert(Join(ctx.patchesFolder, shps[i]), PatchesAt(ctx, shps, st, i))
  }

  /** The labelling calls of one year. */
  function LabelSteps(ctx: Ctx, fc: string): seq<Action>
  {
    if ctx.eventsMask then
      [AddEventFields(fc)] + (if !ctx.lewi then [LabelElevMask(fc)] else []) + [LabelWaterMask(fc, ctx.water)]
    else []
  }

  /** The overlap comparison with the previous feature class, which is then deleted. */
  function OverlapSteps(ctx: Ctx, fc: string, prev: Option<string>): seq<Action>
  {
    if prev.Some? then [OverlapPrev(fc, prev.value, ctx.park, ctx.eventsMask), Delete(prev.value)] else []
  }

  /** Adding the year's patches to changeDB. */
  function DbStep(ctx: Ctx, fc: string, create: bool): Action
  {
    if create then CreateChangeDb(fc, ctx.db) else AppendToChangeDb(fc, ctx.db)
  }

  /** One year's calls from its parts, in the tool's order. */
  function Assemble(input: Action, fc: string, ctx: Ctx, labels: seq<Action>, overlap: seq<Action>, store: Action): seq<Action>
  {
    [input, AddAttributes(fc, ctx.clip, ctx.mmu), AddParatio(fc)] + labels + [AddOverlapField(fc)] + overlap + [store]
  }

  /** The calls made for year i, given whether changeDB existed before the loop. */
  function YearActions(ctx: Ctx, shps: seq<string>, st: Start, dbExists: bool, i: nat): seq<Action>
    requires st.yrIndex <= i < |shps|
  {
    var fc := PatchesAt(ctx, shps, st, i);
    Assemble(InputStep(ctx, shps, st, i), fc, ctx, LabelSteps(ctx, fc), OverlapSteps(ctx, fc, BaseAfter(ctx, shps, st, i)),
             DbStep(ctx, fc, i == st.yrIndex && !dbExists))
  }

  /** The calls of every year, indexed by year; years before yrIndex, done in an earlier run, make none. */
  function AllYears(ctx: Ctx, shps: seq<string>, st: Start, dbExists: bool): (ys: seq<seq<Action>>)
    requires st.yrIndex <= |shps|
    ensures |ys| == |shps|
  {
    seq(|shps|, k requires 0 <= k < |shps| => if k < st.yrIndex then [] else YearActions(ctx, shps, st, dbExists, k))
  }

  /** The calls of years yrIndex .. i-1, in loop order. */
  function Trace(ctx: Ctx, shps: seq<string>, st: Start, dbExists: bool, i: nat): seq<seq<Action>>
    requires st.yrIndex <= i <= |shps|
  {
    AllYears(ctx, shps, st, dbExists)[st.yrIndex..i]
  }

  /** The trace holds one entry per year, the calls of that year. */
  lemma TraceMeaning(ctx: Ctx, shps: seq<string>, st: Start, dbExists: bool, i: nat)
    requires st.yrIndex <= i <= |shps|
    ensures |Trace(ctx, shps, st, dbExists, i)| == i - st.yrIndex
    ensures forall k :: st.yrIndex <= k < i ==>
              Trace(ctx, shps, st, dbExists, i)[k - st.yrIndex] == YearActions(ctx, shps, st, dbExists, k)
  {
    forall k | st.yrIndex <= k < i
      ensures Trace(ctx, shps, st, dbExists, i)[k - st.yrIndex] == YearActions(ctx, shps, st, dbExists, k)
    {
      TraceAt(ctx, shps, st, dbExists, i, k);
    }
  }

  /** Entry k - yrIndex of the trace is year k's calls. */
  lemma TraceAt(ctx: Ctx, shps: seq<string>, st: Start, dbExists: bool, i: nat, k: nat)
    requires st.yrIndex <= k < i <= |shps|
    ensures Trace(ctx, shps, st, dbExists, i)[k - st.yrIndex] == YearActions(ctx, shps, st, dbExists, k)
  {
    var all := AllYears(ctx, shps, st, dbExists);
    SliceAt(all, st.yrIndex, i, k);
    assert all[k] == YearActions(ctx, shps, st, dbExists, k);
  }

  /** Finishing year i appends its calls to the trace. */
  lemma TraceStep(ctx: Ctx, shps: seq<string>, st: Start, dbExists: bool, i: nat)
    requires st.yrIndex <= i < |shps|
    ensures Trace(ctx, shps, st, dbExists, i + 1) == Trace(ctx, shps, st, dbExists, i) + [YearActions(ctx, shps, st, dbExists, i)]
  {
    var all := AllYears(ctx, shps, st, dbExists);
    SliceStep(all, st.yrIndex, i);
    assert all[i] == YearActions(ctx, shps, st, dbExists, i);
  }

  /** The feature classes of every year, indexed by year; years before yrIndex add none. */
  function AllPatches(ctx: Ctx, shps: seq<string>, st: Start): (ps: seq<string>)
    requires st.yrIndex <= |shps|
    ensures |ps| == |shps|
  {
    seq(|shps|, k requires 0 <= k < |shps| => if k < st.yrIndex then "" else PatchesAt(ctx, shps, st, k))
  }

  /** The feature classes of years yrIndex .. i-1, in the order they are added to changeDB. */
  function Processed(ctx: Ctx, shps: seq<string>, st: Start, i: nat): seq<string>
    requires st.yrIndex <= i <= |shps|
  {
    AllPatches(ctx, shps, st)[st.yrIndex..i]
  }

  /** changeDB receives one feature class per year, that year's patches. */
  lemma ProcessedMeaning(ctx: Ctx, shps: seq<string>, st: Start, i: nat)
    requires st.yrIndex <= i <= |shps|
    ensures |Processed(ctx, shps, st, i)| == i - st.yrIndex
    ensures forall k :: st.yrIndex <= k < i ==> Processed(ctx, shps, st, i)[k - st.yrIndex] == PatchesAt(ctx, shps, st, k)
  {
    var all := AllPatches(ctx, shps, st);
    forall k | st.yrIndex <= k < i
      ensures Processed(ctx, shps, st, i)[k - st.yrIndex] == PatchesAt(ctx, shps, st, k)
    {
      assert Processed(ctx, shps, st, i)[k - st.yrIndex] == all[k];
    }
  }

  /** Finishing year i appends its feature class to those added. */
  lemma ProcessedStep(ctx: Ctx, shps: seq<string>, st: Start, i: nat)
    requires st.yrIndex <= i < |shps|
    ensures Processed(ctx, shps, st, i + 1) == Processed(ctx, shps, st, i) + [PatchesAt(ctx, shps, st, i)]
  {
    var all := AllPatches(ctx, shps, st);
    SliceStep(all, st.yrIndex, i);
    assert all[i] == PatchesAt(ctx, shps, st, i);
  }

  /** One turn of the loop over years extends the calls, the added feature classes and the base by year i's. */
  lemma LoopStep(ctx: Ctx, shps: seq<string>, st: Start, dbExists: bool, i: nat,
                 years: seq<seq<Action>>, added: seq<string>, acts: seq<Action>, fc: string)
    requires st.yrIndex <= i < |shps|
    requires years == Trace(ctx, shps, st, dbExists, i) && added == Processed(ctx, shps, st, i)
    requires acts == YearActions(ctx, shps, st, dbExists, i) && fc == PatchesAt(ctx, shps, st, i)
    ensures years + [acts] == Trace(ctx, shps, st, dbExists, i + 1)
    ensures added + [fc] == Processed(ctx, shps, st, i + 1)
    ensures Some(fc) == BaseAfter(ctx, shps, st, i + 1)
  {
    TraceStep(ctx, shps, st, dbExists, i);
    ProcessedStep(ctx, shps, st, i);
  }

  /**
   * The body of the loop for year i, given prev_fc-to-be (the current base_fc), patches_fc and
   * whether changeDB exists: the calls it makes and the year's feature class.
   */
  method YearCalls(ctx: Ctx, shps: seq<string>, st: Start, dbExists0: bool, i: nat,
                   prevFc: Option<string>, patchesFc: Option<string>, dbExists: bool)
    returns (acts: seq<Action>, fc: string)
    requires st.yrIndex <= i < |shps|
    requires prevFc == BaseAfter(ctx, shps, st, i)
    requires dbExists == (dbExists0 || i > st.yrIndex)
    requires i == st.yrIndex ==> patchesFc == st.resumed
    ensures fc == PatchesAt(ctx, shps, st, i)
    ensures acts == YearActions(ctx, shps, st, dbExists0, i)
  {
    var input: Action;
    if st.resumed.Some? && i == st.yrIndex {
      fc := patchesFc.value;
      input := ResetFields(fc);
    } else {
      fc := Join(ctx.defaultGdb, DropLast(shps[i], 4));
      input := Convert(Join(ctx.patchesFolder, shps[i]), fc);
    }
    var labels: seq<Action> := [];
    if ctx.eventsMask {
      labels := [AddEventFields(fc)];
      if !ctx.lewi {
        labels := labels + [LabelElevMask(fc)];
      }
      labels := labels + [LabelWaterMask(fc, ctx.water)];
    }
    var overlap: seq<Action> := [];
    if prevFc.Some? {
      overlap := [OverlapPrev(fc, prevFc.value, ctx.park, ctx.eventsMask), Delete(prevFc.value)];
    }
    var store: Action;
    if !dbExists {
      store := CreateChangeDb(fc, ctx.db);
    } else {
      store := AppendToChangeDb(fc, ctx.db);
    }
    acts := [input, AddAttributes(fc, ctx.clip, ctx.mmu), AddParatio(fc)] + labels + [AddOverlapField(fc)]
            + overlap + [store];
    assert labels == LabelSteps(ctx, fc);
    assert acts == Assemble(input, fc, ctx, labels, overlap, store);
  }

  /** Before the first year nothing has been done and the base is the one the resume step chose. */
  lemma LoopStart(ctx: Ctx, shps: seq<string>, st: Start, dbExists: bool)
    requires st.yrIndex <= |shps|
    ensures Trace(ctx, shps, st, dbExists, st.yrIndex) == []
    ensures Processed(ctx, shps, st, st.yrIndex) == []
    ensures BaseAfter(ctx, shps, st, st.yrIndex) == st.base
  {
  }

  /**
   * The loop over `shps[yrIndex..]`: each year's calls, the feature classes added to changeDB in
   * order, and base_fc after the last year. After each year's labels prev_fc takes the old
   * base_fc and base_fc the year's patches; changeDB exists from the first year on.
   */
  method ProcessYears(ctx: Ctx, shps: seq<string>, st: Start, dbExists0: bool)
    returns (years: seq<seq<Action>>, added: seq<string>, lastBase: Option<string>)
    requires st.yrIndex <= |shps|
    ensures years == Trace(ctx, shps, st, dbExists0, |shps|)
    ensures added == Processed(ctx, shps, st, |shps|)
    ensures lastBase == BaseAfter(ctx, shps, st, |shps|)
  {
    var prevFc: Option<string> := None;
    var baseFc := st.base;
    var patchesFc := st.resumed;
    var dbExists := dbExists0;
    years := [];
    added := [];
    LoopStart(ctx, shps, st, dbExists0);
    for i := st.yrIndex to |shps|
      invariant LoopState(ctx, shps, st, dbExists0, i, years, added, baseFc, patchesFc, dbExists)
    {
      years, added, prevFc, baseFc, patchesFc, dbExists :=
        YearTurn(ctx, shps, st, dbExists0, i, years, added, baseFc, patchesFc, dbExists);
    }
    lastBase := baseFc;
  }

  /** The state of the loop over years once years yrIndex .. i-1 are done. */
  predicate LoopState(ctx: Ctx, shps: seq<string>, st: Start, dbExists0: bool, i: nat,
                      years: seq<seq<Action>>, added: seq<string>, baseFc: Option<string>, patchesFc: Option<string>,
                      dbExists: bool)
  {
    && st.yrIndex <= i <= |shps|
    && years == Trace(ctx, shps, st, dbExists0, i) && added == Processed(ctx, shps, st, i)
    && baseFc == BaseAfter(ctx, shps, st, i)
    && dbExists == (dbExists0 || i > st.yrIndex)
    && (i == st.yrIndex ==> patchesFc == st.resumed)
  }

  /**
   * One turn of the loop over years: year i's calls and feature class are appended, prev_fc
   * becomes base_fc and base_fc the year's patches, and changeDB exists afterwards.
   */
  method YearTurn(ctx: Ctx, shps: seq<string>, st: Start, dbExists0: bool, i: nat,
                  years: seq<seq<Action>>, added: seq<string>, baseFc: Option<string>, patchesFc: Option<string>,
                  dbExists: bool)
    returns (years': seq<seq<Action>>, added': seq<string>, prevFc': Option<string>, baseFc': Option<string>,
             patchesFc': Option<string>, dbExists': bool)
    requires i < |shps|
    requires LoopState(ctx, shps, st, dbExists0, i, years, added, baseFc, patchesFc, dbExists)
    ensures LoopState(ctx, shps, st, dbExists0, i + 1, years', added', baseFc', patchesFc', dbExists')
    ensures years' == Trace(ctx, shps, st, dbExists0, i + 1) && added' == Processed(ctx, shps, st, i + 1)
    ensures prevFc' == baseFc && baseFc' == BaseAfter(ctx, shps, st, i + 1) && dbExists'
  {
    var acts, fc := YearCalls(ctx, shps, st, dbExists0, i, baseFc, patchesFc, dbExists);
    LoopStep(ctx, shps, st, dbExists0, i, years, added, acts, fc);
    patchesFc' := Some(fc);
    prevFc' := baseFc;
    baseFc' := patchesFc';
    dbExists' := true;
    years' := years + [acts];
    added' := added + [fc];
  }

  /** Where each part of a year's calls sits. */
  lemma AssembleLayout(input: Action, fc: string, ctx: Ctx, labels: seq<Action>, overlap: seq<Action>, store: Action)
    ensures var acts := Assemble(input, fc, ctx, labels, overlap, store);
      var n := |labels|;
      && |acts| == 5 + n + |overlap|
      && acts[0] == input && acts[1] == AddAttributes(fc, ctx.clip, ctx.mmu) && acts[2] == AddParatio(fc)
      && (forall k :: 0 <= k < n ==> acts[3 + k] == labels[k])
      && acts[3 + n] == AddOverlapField(fc)
      && (forall k :: 0 <= k < |overlap| ==> acts[4 + n + k] == overlap[k])
      && acts[|acts| - 1] == store
  {
  }

  /** When only the label part holds labels and only the overlap part comparisons, every label comes first. */
  lemma {:induction false} AssembleOrder(input: Action, fc: string, ctx: Ctx, labels: seq<Action>, overlap: seq<Action>, store: Action)
    requires !IsLabel(input) && !IsLabel(store) && !input.OverlapPrev? && !store.OverlapPrev?
    requires forall x :: x in labels ==> !x.OverlapPrev?
    requires forall x :: x in overlap ==> !IsLabel(x)
    ensures var acts := Assemble(input, fc, ctx, labels, overlap, store);
      forall a, b :: (0 <= a < |acts| && 0 <= b < |acts| && IsLabel(acts[a]) && acts[b].OverlapPrev?) ==> a < b
  {
    var acts := Assemble(input, fc, ctx, labels, overlap, store);
    var n := |labels|;
    AssembleLayout(input, fc, ctx, labels, overlap, store);
    forall k | 0 <= k < |acts|
      ensures IsLabel(acts[k]) ==> k < 3 + n
      ensures acts[k].OverlapPrev? ==> k >= 3 + n
    {
      if 3 <= k < 3 + n {
        assert acts[k] == labels[k - 3];
        assert labels[k - 3] in labels;
      } else if 4 + n <= k < |acts| - 1 {
        assert acts[k] == overlap[k - 4 - n];
        assert overlap[k - 4 - n] in overlap;
      }
    }
  }

  /** When no other part holds a label, the labels among the calls are those of the label part. */
  lemma AssembleLabels(input: Action, fc: string, ctx: Ctx, labels: seq<Action>, overlap: seq<Action>, store: Action)
    requires !IsLabel(input) && !IsLabel(store)
    requires forall x :: x in overlap ==> !IsLabel(x)
    ensures forall x :: IsLabel(x) ==> (x in Assemble(input, fc, ctx, labels, overlap, store) <==> x in labels)
  {
    var head := [input, AddAttributes(fc, ctx.clip, ctx.mmu), AddParatio(fc)];
    var acts := Assemble(input, fc, ctx, labels, overlap, store);
    assert acts == head + labels + [AddOverlapField(fc)] + overlap + [store];
    forall x | IsLabel(x)
      ensures x in acts <==> x in labels
    {
      assert x !in head && x != AddOverlapField(fc) && x != store && x !in overlap;
    }
  }

  /** Only the last call stores into changeDB when no other part does. */
  lemma {:induction false} AssembleStoreLast(input: Action, fc: string, ctx: Ctx, labels: seq<Action>, overlap: seq<Action>, store: Action)
    requires !input.CreateChangeDb? && !input.AppendToChangeDb?
    requires forall x :: x in labels + overlap ==> !x.CreateChangeDb? && !x.AppendToChangeDb?
    ensures var acts := Assemble(input, fc, ctx, labels, overlap, store);
      && acts[|acts| - 1] == store
      && forall k :: 0 <= k < |acts| - 1 ==> !acts[k].CreateChangeDb? && !acts[k].AppendToChangeDb?
  {
    var acts := Assemble(input, fc, ctx, labels, overlap, store);
    var n := |labels|;
    AssembleLayout(input, fc, ctx, labels, overlap, store);
    forall k | 0 <= k < |acts| - 1
      ensures !acts[k].CreateChangeDb? && !acts[k].AppendToChangeDb?
    {
      if 3 <= k < 3 + n {
        assert acts[k] == labels[k - 3] && labels[k - 3] in labels + overlap;
      } else if 4 + n <= k {
        assert acts[k] == overlap[k - 4 - n] && overlap[k - 4 - n] in labels + overlap;
      }
    }
  }

  /** Year i's calls are assembled from its parts. */
  lemma YearParts(ctx: Ctx, shps: seq<string>, st: Start, dbExists: bool, i: nat)
    requires st.yrIndex <= i < |shps|
    ensures var fc := PatchesAt(ctx, shps, st, i);
      YearActions(ctx, shps, st, dbExists, i) ==
      Assemble(InputStep(ctx, shps, st, i), fc, ctx, LabelSteps(ctx, fc), OverlapSteps(ctx, fc, BaseAfter(ctx, shps, st, i)),
               DbStep(ctx, fc, i == st.yrIndex && !dbExists))
  {
  }

  /** The labelling calls: event fields first, the elevation mask only for parks other than LEWI, the water mask last. */
  lemma LabelStepsMeaning(ctx: Ctx, fc: string)
    ensures var ls := LabelSteps(ctx, fc);
      && (forall x :: x in ls ==> IsLabel(x) && x.fc == fc)
      && (ctx.eventsMask <==> |ls| > 0)
      && (ctx.eventsMask ==> ls[0] == AddEventFields(fc) && ls[|ls| - 1] == LabelWaterMask(fc, ctx.water))
      && (LabelElevMask(fc) in ls <==> ctx.eventsMask && !ctx.lewi)
  {
  }

  /** Each year starts from its own input: the reused feature class when resuming, otherwise its shapefile. */
  lemma YearInput(ctx: Ctx, shps: seq<string>, st: Start, dbExists: bool, i: nat)
    requires st.yrIndex <= i < |shps|
    ensures var acts := YearActions(ctx, shps, st, dbExists, i);
      && (st.resumed.Some? && i == st.yrIndex ==> acts[0] == ResetFields(st.resumed.value))
      && (st.resumed.None? || i != st.yrIndex ==>
            acts[0] == Convert(Join(ctx.patchesFolder, shps[i]), Join(ctx.defaultGdb, DropLast(shps[i], 4))))
  {
    YearParts(ctx, shps, st, dbExists, i);
  }

  /** Year i is compared with year i-1; the first year with the start's base, and with nothing on a fresh run. */
  lemma OverlapRotation(ctx: Ctx, shps: seq<string>, st: Start, dbExists: bool, i: nat)
    requires st.yrIndex <= i < |shps|
    ensures var acts := YearActions(ctx, shps, st, dbExists, i);
      var fc := PatchesAt(ctx, shps, st, i);
      && (i > st.yrIndex ==> OverlapPrev(fc, PatchesAt(ctx, shps, st, i - 1), ctx.park, ctx.eventsMask) in acts)
      && (i == st.yrIndex && st.base.Some? ==> OverlapPrev(fc, st.base.value, ctx.park, ctx.eventsMask) in acts)
      && (i == st.yrIndex && st.base.None? ==> forall a :: a in acts ==> !a.OverlapPrev? && !a.Delete?)
  {
    YearParts(ctx, shps, st, dbExists, i);
    LabelStepsMeaning(ctx, PatchesAt(ctx, shps, st, i));
  }

  /**
   * As written, a run given a start year and not resuming seeds its base under the very name the
   * start year's shapefile converts to: the first year is compared with itself, that feature class
   * is deleted, and the year's last call then appends the deleted feature class to changeDB.
   */
  lemma SeedCollides(inp: Inputs, shps: seq<string>, dbYods: Option<seq<int>>, fcs: seq<string>)
    requires !inp.resumePrev && inp.shpYr != ""
    requires SetupAsWritten(inp, shps, dbYods, fcs).Ok?
    ensures dbYods.Some?
    ensures var st := SetupAsWritten(inp, shps, dbYods, fcs).value;
      var ctx := ContextOf(inp);
      && st.yrIndex < |shps|
      && var fc := PatchesAt(ctx, shps, st, st.yrIndex);
         var acts := YearActions(ctx, shps, st, dbYods.Some?, st.yrIndex);
         && st.base == Some(fc)
         && |acts| >= 2
         && acts[|acts| - 2] == Delete(fc)
         && acts[|acts| - 1] == AppendToChangeDb(fc, ctx.db)
         && OverlapPrev(fc, fc, ctx.park, ctx.eventsMask) in acts
  {
    var st := SetupAsWritten(inp, shps, dbYods, fcs).value;
    SetupIndex(inp, shps, dbYods, fcs);
    SetupBase(inp, shps, dbYods, fcs);
    assert DropLast(ShpName(inp.shpYr), 4) == "change_" + inp.shpYr;
    SelfBaseYear(ContextOf(inp), shps, st);
  }

  /** A first year whose base is its own feature class is compared with itself, deletes it, and then stores it. */
  lemma SelfBaseYear(ctx: Ctx, shps: seq<string>, st: Start)
    requires st.yrIndex < |shps|
    requires st.base == Some(PatchesAt(ctx, shps, st, st.yrIndex))
    ensures var fc := PatchesAt(ctx, shps, st, st.yrIndex);
      var acts := YearActions(ctx, shps, st, true, st.yrIndex);
      && |acts| >= 2
      && acts[|acts| - 2] == Delete(fc)
      && acts[|acts| - 1] == AppendToChangeDb(fc, ctx.db)
      && OverlapPrev(fc, fc, ctx.park, ctx.eventsMask) in acts
  {
    var fc := PatchesAt(ctx, shps, st, st.yrIndex);
    var overlap := OverlapSteps(ctx, fc, BaseAfter(ctx, shps, st, st.yrIndex));
    assert overlap == [OverlapPrev(fc, fc, ctx.park, ctx.eventsMask), Delete(fc)];
    var labels := LabelSteps(ctx, fc);
    YearParts(ctx, shps, st, true, st.yrIndex);
    AssembleLayout(InputStep(ctx, shps, st, st.yrIndex), fc, ctx, labels, overlap, DbStep(ctx, fc, false));
    var acts := YearActions(ctx, shps, st, true, st.yrIndex);
    assert acts[4 + |labels|] == OverlapPrev(fc, fc, ctx.park, ctx.eventsMask);
  }

  /**
   * With the base named after changeDB's last year, the first year is compared with a feature
   * class other than its own exactly when the start year is not changeDB's last year.
   */
  lemma SeedDistinct(inp: Inputs, shps: seq<string>, dbYods: Option<seq<int>>, fcs: seq<string>)
    requires !inp.resumePrev && inp.shpYr != ""
    requires Setup(inp, shps, dbYods, fcs).Ok?
    ensures dbYods.Some? && |dbYods.value| > 0
    ensures var st := Setup(inp, shps, dbYods, fcs).value;
      && st.yrIndex < |shps|
      && st.base == Some(SeedName(inp.defaultGdb, MaxOf(dbYods.value)))
      && (st.base.value != PatchesAt(ContextOf(inp), shps, st, st.yrIndex) <==> inp.shpYr != IntToString(MaxOf(dbYods.value)))
  {
    var st := Setup(inp, shps, dbYods, fcs).value;
    SetupIndex(inp, shps, dbYods, fcs);
    SetupBase(inp, shps, dbYods, fcs);
    var last := IntToString(MaxOf(dbYods.value));
    assert DropLast(ShpName(inp.shpYr), 4) == "change_" + inp.shpYr;
    var fc := PatchesAt(ContextOf(inp), shps, st, st.yrIndex);
    assert fc == Join(inp.defaultGdb, "change_" + inp.shpYr);
    if st.base.value == fc {
      var k := |inp.defaultGdb| + 1;
      assert ("change_" + last)[7..] == last && ("change_" + inp.shpYr)[7..] == inp.shpYr;
      assert st.base.value[k..] == "change_" + last;
      assert fc[k..] == "change_" + inp.shpYr;
    }
  }

  /** Labels come before the overlap comparison; the elevation mask only for parks other than LEWI. */
  lemma LabelsBeforeOverlap(ctx: Ctx, shps: seq<string>, st: Start, dbExists: bool, i: nat)
    requires st.yrIndex <= i < |shps|
    ensures var acts := YearActions(ctx, shps, st, dbExists, i);
      && (forall a, b :: (0 <= a < |acts| && 0 <= b < |acts| && IsLabel(acts[a]) && acts[b].OverlapPrev?) ==> a < b)
      && (LabelElevMask(PatchesAt(ctx, shps, st, i)) in acts <==> ctx.eventsMask && !ctx.lewi)
      && (ctx.eventsMask <==> LabelWaterMask(PatchesAt(ctx, shps, st, i), ctx.water) in acts)
  {
    var fc := PatchesAt(ctx, shps, st, i);
    var input := InputStep(ctx, shps, st, i);
    var labels := LabelSteps(ctx, fc);
    var overlap := OverlapSteps(ctx, fc, BaseAfter(ctx, shps, st, i));
    var store := DbStep(ctx, fc, i == st.yrIndex && !dbExists);
    var acts := YearActions(ctx, shps, st, dbExists, i);
    assert acts == Assemble(input, fc, ctx, labels, overlap, store) by {
      YearParts(ctx, shps, st, dbExists, i);
    }
    LabelStepsMeaning(ctx, fc);
    assert forall x :: x in overlap ==> !IsLabel(x);
    AssembleOrder(input, fc, ctx, labels, overlap, store);
    AssembleLabels(input, fc, ctx, labels, overlap, store);
    assert LabelElevMask(fc) in acts <==> LabelElevMask(fc) in labels;
    assert LabelWaterMask(fc, ctx.water) in acts <==> LabelWaterMask(fc, ctx.water) in labels;
    if ctx.eventsMask {
      assert labels[|labels| - 1] in labels;
    }
  }

  /** changeDB is created from the first processed year when it did not exist, and appended to otherwise, by each year's last call only. */
  lemma ChangeDbOnce(ctx: Ctx, shps: seq<string>, st: Start, dbExists: bool, i: nat)
    requires st.yrIndex <= i < |shps|
    ensures var acts := YearActions(ctx, shps, st, dbExists, i);
      var fc := PatchesAt(ctx, shps, st, i);
      && acts[|acts| - 1] == (if i == st.yrIndex && !dbExists then CreateChangeDb(fc, ctx.db)
                              else AppendToChangeDb(fc, ctx.db))
      && forall k :: 0 <= k < |acts| - 1 ==> !acts[k].CreateChangeDb? && !acts[k].AppendToChangeDb?
  {
    var fc := PatchesAt(ctx, shps, st, i);
    var input := InputStep(ctx, shps, st, i);
    YearParts(ctx, shps, st, dbExists, i);
    assert !input.CreateChangeDb? && !input.AppendToChangeDb?;
    StepsStoreLast(input, fc, ctx, BaseAfter(ctx, shps, st, i), i == st.yrIndex && !dbExists);
  }

  /** A year assembled from its labelling and overlap steps stores into changeDB by its last call only. */
  lemma StepsStoreLast(input: Action, fc: string, ctx: Ctx, prev: Option<string>, create: bool)
    requires !input.CreateChangeDb? && !input.AppendToChangeDb?
    ensures var acts := Assemble(input, fc, ctx, LabelSteps(ctx, fc), OverlapSteps(ctx, fc, prev), DbStep(ctx, fc, create));
      && acts[|acts| - 1] == (if create then CreateChangeDb(fc, ctx.db) else AppendToChangeDb(fc, ctx.db))
      && forall k :: 0 <= k < |acts| - 1 ==> !acts[k].CreateChangeDb? && !acts[k].AppendToChangeDb?
  {
    StepsNoStore(ctx, fc, prev);
    AssembleStoreLast(input, fc, ctx, LabelSteps(ctx, fc), OverlapSteps(ctx, fc, prev), DbStep(ctx, fc, create));
  }

  /** Neither the labelling nor the overlap steps store into changeDB. */
  lemma StepsNoStore(ctx: Ctx, fc: string, prev: Option<string>)
    ensures forall x :: x in LabelSteps(ctx, fc) + OverlapSteps(ctx, fc, prev) ==> !x.CreateChangeDb? && !x.AppendToChangeDb?
  {
    var labels := LabelSteps(ctx, fc);
    var overlap := OverlapSteps(ctx, fc, prev);
    LabelStepsMeaning(ctx, fc);
    assert forall x: Action :: x in labels + overlap ==> x in labels || x in overlap;
  }

  // ---------------------------------------------------------------------------
  // The final years and name
  // ---------------------------------------------------------------------------

  /** The yod values changeDB holds after the loop: what it held, then each added feature class's, in order. */
  function FinalYods(dbYods: Option<seq<int>>, added: seq<string>, yodsOf: string -> seq<int>): seq<int>
  {
    if |added| == 0 then (if dbYods.Some? then dbYods.value else [])
    else FinalYods(dbYods, added[..|added| - 1], yodsOf) + yodsOf(added[|added| - 1])
  }

  /** `{start_yr}_{end_yr}`. */
  function YearRange(startYr: int, endYr: int): string
  {
    IntToString(startYr) + "_" + IntToString(endYr)
  }

  /** The name changeDB is renamed to. */
  function FinalName(park: string, startYr: int, endYr: int): string
  {
    park + "_changeDB_" + YearRange(startYr, endYr)
  }

  /** Within one park the final name determines the start and end years. */
  lemma FinalNameInjective(park: string, s1: int, e1: int, s2: int, e2: int)
    requires FinalName(park, s1, e1) == FinalName(park, s2, e2)
    ensures s1 == s2 && e1 == e2
  {
    var prefix := park + "_changeDB_";
    var t1 := YearRange(s1, e1);
    var t2 := YearRange(s2, e2);
    assert t1 == FinalName(park, s1, e1)[|prefix|..];
    assert t2 == FinalName(park, s2, e2)[|prefix|..];
    AttrFunctions.SplitAtUnderscore(IntToString(s1), IntToString(e1), IntToString(s2), IntToString(e2));
    IntToStringInjective(s1, s2);
    IntToStringInjective(e1, e2);
  }

  /** What a completed run did. */
  datatype Outcome = Outcome(
    prelude: seq<Action>, years: seq<seq<Action>>, added: seq<string>, finish: seq<Action>,
    startYr: int, endYr: int, finalName: string)

  /**
   * The whole tool. `listed` is the folder's `*.shp` listing, `dbYods` changeDB's yod values
   * (None when it does not exist), `fcs` the default geodatabase's `change_*` feature classes,
   * and `yodsOf` the yod values each processed feature class adds to changeDB.
   */
  method Run(inp: Inputs, listed: seq<string>, dbYods: Option<seq<int>>, fcs: seq<string>, yodsOf: string -> seq<int>)
    returns (r: Result<Outcome, Abort>)
    ensures Setup(inp, YearShps(listed), dbYods, fcs).Err? ==> r == Err(Setup(inp, YearShps(listed), dbYods, fcs).error)
    ensures r.Ok? ==> Setup(inp, YearShps(listed), dbYods, fcs).Ok?
    ensures Setup(inp, YearShps(listed), dbYods, fcs).Ok? ==>
              var shps := YearShps(listed);
              var st := Setup(inp, shps, dbYods, fcs).value;
              (r.Err? <==> BaseAfter(ContextOf(inp), shps, st, |shps|).None? ||
                           |FinalYods(dbYods, Processed(ContextOf(inp), shps, st, |shps|), yodsOf)| == 0)
    ensures r.Ok? ==>
              var shps := YearShps(listed);
              var st := Setup(inp, shps, dbYods, fcs).value;
              && r.value.years == Trace(ContextOf(inp), shps, st, dbYods.Some?, |shps|)
              && r.value.added == Processed(ContextOf(inp), shps, st, |shps|)
    ensures r.Ok? ==>
              && (inp.shpYr != "" ==>
                    (&& dbYods.Some? && |dbYods.value| > 0
                     && r.value.prelude == [SelectYear(ChangeDb(inp), MaxOf(dbYods.value)),
                                            CopyAll(ChangeDb(inp), SeedName(inp.defaultGdb, MaxOf(dbYods.value)))]))
              && (inp.shpYr == "" ==> r.value.prelude == [])
    ensures r.Ok? ==>
              var shps := YearShps(listed);
              var st := Setup(inp, shps, dbYods, fcs).value;
              var lastBase := BaseAfter(ContextOf(inp), shps, st, |shps|);
              && lastBase.Some?
              && r.value.finish == [Delete(lastBase.value),
                                    AddParkPatchName(ChangeDb(inp), Park(inp), inp.mmu, r.value.startYr, r.value.endYr),
                                    Rename(ChangeDb(inp), r.value.finalName)]
    ensures r.Ok? ==>
              var yods := FinalYods(dbYods, r.value.added, yodsOf);
              && |yods| > 0
              && r.value.startYr == MinOf(yods) && r.value.endYr == MaxOf(yods)
              && r.value.finalName == FinalName(Park(inp), r.value.startYr, r.value.endYr)
  {
    var shps := YearShps(listed);
    var setup := Setup(inp, shps, dbYods, fcs);
    if setup.Err? {
      return Err(setup.error);
    }
    var st := setup.value;
    SetupBase(inp, shps, dbYods, fcs);
    var prelude: seq<Action> := [];
    if st.seedYear.Some? && st.base.Some? {
      prelude := [SelectYear(ChangeDb(inp), st.seedYear.value), CopyAll(ChangeDb(inp), st.base.value)];
    }
    var years, added, lastBase := ProcessYears(ContextOf(inp), shps, st, dbYods.Some?);
    if lastBase.None? {
      return Err(NoBaseToDelete);
    }
    var yods := FinalYods(dbYods, added, yodsOf);
    if |yods| == 0 {
      return Err(NoYods);
    }
    var startYr := MinOf(yods);
    var endYr := MaxOf(yods);
    var name := FinalName(Park(inp), startYr, endYr);
    var finish := [Delete(lastBase.value), AddParkPatchName(ChangeDb(inp), Park(inp), inp.mmu, startYr, endYr),
                   Rename(ChangeDb(inp), name)];
    r := Ok(Outcome(prelude, years, added, finish, startYr, endYr, name));
  }
}
