/**
 * The Export Patches tool (toolbox/ExportPatches.py): for each chosen feature class of a run
 * geodatabase it writes a validated CSV under a park or "Patches_CSV" folder, or a shapefile for
 * Google Earth Engine, or both. The run fails at the end if any export was refused. The file
 * system is the finite set of paths that exist; feature class names hold no path separator.
 */
module ExportPatches {
  import opened Wrappers
  import opened Values
  import opened Paths
  import opened ExpPatches

  /** The optional "feature classes" parameter: not given, one feature class, or a list. */
  datatype FcSelection = NotGiven | OneFc(name: string) | FcList(names: seq<string>)

  /** The parameter is falsy when missing, an empty name or an empty list. */
  predicate Truthy(sel: FcSelection)
  {
    match sel
    case NotGiven => false
    case OneFc(name) => name != ""
    case FcList(names) => names != []
  }

  /** The feature classes processed: the selection, wrapped into a list if single, else every feature class of the run geodatabase. */
  function FeatureClassesToExport(sel: FcSelection, gdbFcs: seq<string>): (fcs: seq<string>)
    ensures !Truthy(sel) ==> fcs == gdbFcs
    ensures sel.OneFc? && Truthy(sel) ==> fcs == [sel.name]
    ensures sel.FcList? && Truthy(sel) ==> fcs == sel.names
  {
    if !Truthy(sel) then gdbFcs
    else match sel
      case OneFc(name) => [name]
      case FcList(names) => names
      case NotGiven => gdbFcs
  }

  /** The park code: the first four characters of the feature class name. */
  function ParkCode(fc: string): (code: string)
    ensures |code| <= 4 && code <= fc
  {
    Prefix(fc, 4)
  }

  /** `{park_code}_patches_{last 9 characters of the name}.csv`. */
  function CsvFileName(fc: string): (name: string)
    ensures |name| >= 4 && name[|name| - 4..] == ".csv"
  {
    ParkCode(fc) + "_patches_" + Suffix(fc, 9) + ".csv"
  }

  /** The folder the CSV goes to: the park's own folder if the output folder has one, otherwise "Patches_CSV". */
  function SaveFolder(csvOutFolder: string, parkDirs: set<string>, fc: string): string
  {
    if ParkCode(fc) in parkDirs then Join(csvOutFolder, ParkCode(fc)) else Join(csvOutFolder, "Patches_CSV")
  }

  /**
   * The save folder is the park's folder exactly when the output folder holds one by that code;
   * the two candidates never coincide, since a park code has at most four characters.
   */
  lemma SaveFolderChoice(csvOutFolder: string, parkDirs: set<string>, fc: string)
    ensures SaveFolder(csvOutFolder, parkDirs, fc) == Join(csvOutFolder, ParkCode(fc)) <==> ParkCode(fc) in parkDirs
    ensures ParkCode(fc) != "Patches_CSV"
  {
    assert |Join(csvOutFolder, ParkCode(fc))| < |Join(csvOutFolder, "Patches_CSV")|;
  }

  /** The CSV file name after k collisions: "_1" inserted k times before ".csv". */
  function CsvNameAt(outFile: string, k: nat): (name: string)
    requires |outFile| >= 4
    ensures |name| == |outFile| + 2 * k
  {
    outFile[..|outFile| - 4] + Ones(k) + ".csv"
  }

  /** One turn of the collision loop renames `f` to `f[:-4] + "_1.csv"`, the next name of the sequence. */
  lemma CsvNameNext(outFile: string, k: nat)
    requires |outFile| >= 4 && outFile[|outFile| - 4..] == ".csv"
    ensures var f := CsvNameAt(outFile, k); f[..|f| - 4] + "_1.csv" == CsvNameAt(outFile, k + 1)
  {
    var f := CsvNameAt(outFile, k);
    assert f[..|f| - 4] == outFile[..|outFile| - 4] + Ones(k);
  }

  /** The name after zero collisions is the original name. */
  lemma CsvNameZero(outFile: string)
    requires |outFile| >= 4 && outFile[|outFile| - 4..] == ".csv"
    ensures CsvNameAt(outFile, 0) == outFile
  {
    assert outFile == outFile[..|outFile| - 4] + outFile[|outFile| - 4..];
  }

  /** The collision loop as written, from its k-th turn on: every renamed path is built under `folder`. */
  function FirstFreeFrom(folder: string, outFile: string, k: nat, existing: set<string>): string
    requires |outFile| >= 4
    decreases MaxLen(existing) + 2 - |Join(folder, CsvNameAt(outFile, k))|
  {
    var fp := Join(folder, CsvNameAt(outFile, k));
    if fp !in existing then fp else FirstFreeFrom(folder, outFile, k + 1, existing)
  }

  /**
   * The collision loop of ExportPatches.py as written: the first path is in the save folder, and
   * after a collision every renamed path is rebuilt under the CSV output folder.
   */
  function CsvPathAsWritten(saveFolder: string, csvOutFolder: string, outFile: string, existing: set<string>): string
    requires |outFile| >= 4
  {
    if Join(saveFolder, outFile) !in existing then Join(saveFolder, outFile)
    else FirstFreeFrom(csvOutFolder, outFile, 1, existing)
  }

  lemma {:induction false} FirstFreeFromMeaning(folder: string, outFile: string, k: nat, existing: set<string>)
    requires |outFile| >= 4
    ensures FirstFreeFrom(folder, outFile, k, existing) !in existing
    ensures exists j: nat :: j >= k && FirstFreeFrom(folder, outFile, k, existing) == Join(folder, CsvNameAt(outFile, j))
    decreases MaxLen(existing) + 2 - |Join(folder, CsvNameAt(outFile, k))|
  {
    var fp := Join(folder, CsvNameAt(outFile, k));
    if fp in existing {
      FirstFreeFromMeaning(folder, outFile, k + 1, existing);
    }
  }

  /**
   * As written, a collision in the save folder sends the file to the CSV output folder: the path
   * it ends on is a renamed file directly under `csvOutFolder`, and it does not exist.
   */
  lemma CsvPathAsWrittenLeavesSaveFolder(saveFolder: string, csvOutFolder: string, outFile: string, existing: set<string>)
    requires |outFile| >= 4
    requires Join(saveFolder, outFile) in existing
    ensures CsvPathAsWritten(saveFolder, csvOutFolder, outFile, existing) !in existing
    ensures exists j: nat ::
      (j >= 1 && CsvPathAsWritten(saveFolder, csvOutFolder, outFile, existing) == Join(csvOutFolder, CsvNameAt(outFile, j)))
  {
    FirstFreeFromMeaning(csvOutFolder, outFile, 1, existing);
  }

  /** A free path is where the as-written loop stops. */
  lemma FirstFreeFromStops(folder: string, outFile: string, k: nat, existing: set<string>)
    requires |outFile| >= 4
    requires Join(folder, CsvNameAt(outFile, k)) !in existing
    ensures FirstFreeFrom(folder, outFile, k, existing) == Join(folder, CsvNameAt(outFile, k))
  {
  }

  const ExampleFile := "PARK_patches_1990_2020.csv"
  /** The park folder already holds the CSV. */
  const ExampleExisting := {Join("out/PARK", ExampleFile)}

  lemma ExampleRenamed()
    ensures CsvNameAt(ExampleFile, 1) == "PARK_patches_1990_2020_1.csv"
  {
    assert ExampleFile[..|ExampleFile| - 4] == "PARK_patches_1990_2020";
    assert Ones(1) == "_1";
  }

  lemma ExampleFree()
    ensures Join("out", CsvNameAt(ExampleFile, 1)) !in ExampleExisting
  {
    assert |Join("out", CsvNameAt(ExampleFile, 1))| != |Join("out/PARK", ExampleFile)|;
  }

  /** The input that shows it: the park folder already holds the CSV, and the renamed copy lands beside the park folders. */
  lemma CsvPathAsWrittenExample()
    ensures CsvPathAsWritten("out/PARK", "out", ExampleFile, ExampleExisting) == Join("out", "PARK_patches_1990_2020_1.csv")
  {
    ExampleRenamed();
    ExampleFree();
    FirstFreeFromStops("out", ExampleFile, 1, ExampleExisting);
  }

  /**
   * The collision loop, keeping the save folder: "_1" is inserted before ".csv" until the path does
   * not exist. It stops because the existing paths are finitely many, and it returns the first
   * free name of the sequence.
   */
  method CsvOutPath(saveFolder: string, outFile: string, existing: set<string>) returns (outPath: string, ghost k: nat)
    requires |outFile| >= 4 && outFile[|outFile| - 4..] == ".csv"
    ensures outPath == Join(saveFolder, CsvNameAt(outFile, k))
    ensures outPath !in existing
    ensures forall j :: 0 <= j < k ==> Join(saveFolder, CsvNameAt(outFile, j)) in existing
  {
    var file := outFile;
    outPath := Join(saveFolder, file);
    k := 0;
    CsvNameZero(outFile);
    while outPath in existing
      invariant file == CsvNameAt(outFile, k)
      invariant outPath == Join(saveFolder, file)
      invariant forall j :: 0 <= j < k ==> Join(saveFolder, CsvNameAt(outFile, j)) in existing
      decreases MaxLen(existing) - |outPath|
    {
      CsvNameNext(outFile, k);
      file := file[..|file| - 4] + "_1.csv";
      outPath := Join(saveFolder, file);
      k := k + 1;
    }
  }

  // ---------------------------------------------------------------------------
  // The failure flags
  // ---------------------------------------------------------------------------

  /** Python truthiness of a value that is False, True or None. */
  predicate PyTruthy(v: Option<bool>)
  {
    v == Some(true)
  }

  /** `acc or v`. */
  function PyOr(acc: Option<bool>, v: Option<bool>): Option<bool>
  {
    if PyTruthy(acc) then acc else v
  }

  /** `no_export_gee` after the loop, as written: `no_export_gee = no_export_gee or export_patches_shp(...)`. */
  function GeeFlagAsWritten(results: seq<Option<bool>>): Option<bool>
  {
    if results == [] then Some(false) else PyOr(GeeFlagAsWritten(results[..|results| - 1]), results[|results| - 1])
  }

  /**
   * As written, the Earth Engine flag never becomes truthy: export_patches_shp returns None when it
   * refuses an export, so refused exports never make the run fail.
   */
  lemma {:induction false} GeeFlagAsWrittenNeverTruthy(refused: seq<bool>)
    ensures !PyTruthy(GeeFlagAsWritten(seq(|refused|, i requires 0 <= i < |refused| => ShpResultAsWritten(refused[i]))))
    decreases |refused|
  {
    if refused != [] {
      var k := |refused| - 1;
      GeeFlagAsWrittenNeverTruthy(refused[..k]);
      var rs := seq(|refused|, i requires 0 <= i < |refused| => ShpResultAsWritten(refused[i]));
      assert rs[..k] == seq(k, i requires 0 <= i < k => ShpResultAsWritten(refused[..k][i]));
    }
  }

  /** The input that shows it: one feature class whose export is refused, and the run does not fail. */
  lemma GeeFlagAsWrittenExample()
    ensures !PyTruthy(GeeFlagAsWritten([ShpResultAsWritten(true)]))
  {
    GeeFlagAsWrittenNeverTruthy([true]);
    assert seq(1, i requires 0 <= i < 1 => ShpResultAsWritten([true][i])) == [ShpResultAsWritten(true)];
  }

  /** A refused CSV export of one of the first n feature classes. */
  predicate SomeCsvRefused(fcs: seq<string>, n: nat, load: string -> FcTable, vocab: seq<string>)
    requires n <= |fcs|
  {
    exists j :: 0 <= j < n && CsvFails(load(fcs[j]), vocab)
  }

  /** A refused Earth Engine export of one of the first n feature classes. */
  predicate SomeGeeRefused(fcs: seq<string>, n: nat, load: string -> FcTable, vocab: seq<string>)
    requires n <= |fcs|
  {
    exists j :: 0 <= j < n && GeeFails(load(fcs[j]), vocab)
  }

  /** Refusals among the first n + 1 feature classes are those among the first n and that of the next one. */
  lemma RefusedStep(fcs: seq<string>, n: nat, load: string -> FcTable, vocab: seq<string>)
    requires n < |fcs|
    ensures SomeCsvRefused(fcs, n + 1, load, vocab) <==> SomeCsvRefused(fcs, n, load, vocab) || CsvFails(load(fcs[n]), vocab)
    ensures SomeGeeRefused(fcs, n + 1, load, vocab) <==> SomeGeeRefused(fcs, n, load, vocab) || GeeFails(load(fcs[n]), vocab)
  {
  }

  /**
   * A CSV written to a path that did not exist yet is a new file distinct from those written
   * before, which all still exist.
   */
  lemma WrittenStep(written: seq<string>, existing0: set<string>, existing: set<string>, after: set<string>,
                    w: Option<string>, next: seq<string>)
    requires existing0 <= existing <= after
    requires forall p :: p in written ==> p in existing && p !in existing0
    requires forall a, b :: 0 <= a < b < |written| ==> written[a] != written[b]
    requires w.Some? ==> w.value !in existing && w.value in after
    requires next == if w.Some? then written + [w.value] else written
    ensures forall p :: p in next ==> p in after && p !in existing0
    ensures forall a, b :: 0 <= a < b < |next| ==> next[a] != next[b]
  {
  }

  /** OR-ing the flag of the next feature class into the run's flags keeps them equal to "some export so far was refused". */
  lemma FlagsStep(fcs: seq<string>, n: nat, load: string -> FcTable, vocab: seq<string>,
                  exportCsv: bool, exportGee: bool, csvFlag: bool, geeFlag: bool, csvOne: bool, geeOne: bool)
    requires n < |fcs|
    requires csvFlag <==> exportCsv && SomeCsvRefused(fcs, n, load, vocab)
    requires geeFlag <==> exportGee && SomeGeeRefused(fcs, n, load, vocab)
    requires csvOne <==> exportCsv && CsvFails(load(fcs[n]), vocab)
    requires geeOne <==> exportGee && GeeFails(load(fcs[n]), vocab)
    ensures csvFlag || csvOne <==> exportCsv && SomeCsvRefused(fcs, n + 1, load, vocab)
    ensures geeFlag || geeOne <==> exportGee && SomeGeeRefused(fcs, n + 1, load, vocab)
  {
    RefusedStep(fcs, n, load, vocab);
  }

  /** The run's inputs: the tool parameters and what the run geodatabase and the output folder hold. */
  datatype RunInputs = RunInputs(
    runGdb: string,
    sel: FcSelection,
    gdbFcs: seq<string>,         // every feature class of the run geodatabase
    exportCsv: bool,
    csvOutFolder: string,
    parkDirs: set<string>,       // the sub-folders of the CSV output folder
    exportGee: bool,
    geeOutFolder: string,
    load: string -> FcTable,     // the attribute table of each feature class
    vocab: seq<string>)          // the change types of the lookup table

  /**
   * One turn of the loop over feature classes: the CSV export (save folder, file name, collision
   * loop, validated write) and then the Earth Engine export, each when chosen.
   */
  method ExportOne(inp: RunInputs, fc: string, existing: set<string>)
    returns (noExportCsv: bool, noExportGee: bool, written: Option<string>, after: set<string>)
    ensures noExportCsv <==> inp.exportCsv && CsvFails(inp.load(fc), inp.vocab)
    ensures noExportGee <==> inp.exportGee && GeeFails(inp.load(fc), inp.vocab)
    ensures existing <= after
    ensures written.Some? ==> written.value !in existing && written.value in after
    ensures written.Some? ==> inp.exportCsv && !noExportCsv
  {
    after := existing;
    noExportCsv, noExportGee, written := false, false, None;
    if inp.exportCsv {
      var saveFolder := SaveFolder(inp.csvOutFolder, inp.parkDirs, fc);
      if ParkCode(fc) !in inp.parkDirs && saveFolder !in after {
        after := after + {saveFolder};
      }
      var outFile := CsvFileName(fc);
      var outPath, k := CsvOutPath(saveFolder, outFile, after);
      var csv;
      noExportCsv, csv := ExportPatchesCsv(inp.load(fc), inp.vocab, outPath);
      if csv.Some? {
        after := after + {outPath};
        written := Some(outPath);
      }
    }
    if inp.exportGee {
      var folder;
      noExportGee, folder := ExportPatchesShp(inp.load(fc), inp.vocab, inp.geeOutFolder, fc, after);
      if folder.Some? {
        after := after + {folder.value};
      }
    }
  }

  /**
   * The Export Patches tool. Each feature class is exported to CSV and/or for Earth Engine; a CSV
   * never replaces an existing file; the flags are OR-ed over the feature classes, and the run
   * fails exactly when some export was refused (with the Earth Engine result returned on both
   * paths).
   */
  method ExportRun(inp: RunInputs, existing0: set<string>) returns (fails: bool, csvWritten: seq<string>, existing: set<string>)
    ensures var fcs := FeatureClassesToExport(inp.sel, inp.gdbFcs);
      fails <==> (inp.exportCsv && SomeCsvRefused(fcs, |fcs|, inp.load, inp.vocab)) ||
                 (inp.exportGee && SomeGeeRefused(fcs, |fcs|, inp.load, inp.vocab))
    ensures existing0 <= existing
    ensures forall p :: p in csvWritten ==> p in existing && p !in existing0
    ensures forall a, b :: 0 <= a < b < |csvWritten| ==> csvWritten[a] != csvWritten[b]
  {
    var fcs := FeatureClassesToExport(inp.sel, inp.gdbFcs);
    var noExportCsv := false;
    var noExportGee := false;
    csvWritten := [];
    existing := existing0;
    var i := 0;
    while i < |fcs|
      invariant 0 <= i <= |fcs|
      invariant noExportCsv <==> inp.exportCsv && SomeCsvRefused(fcs, i, inp.load, inp.vocab)
      invariant noExportGee <==> inp.exportGee && SomeGeeRefused(fcs, i, inp.load, inp.vocab)
      invariant existing0 <= existing
      invariant forall p :: p in csvWritten ==> p in existing && p !in existing0
      invariant forall a, b :: 0 <= a < b < |csvWritten| ==> csvWritten[a] != csvWritten[b]
    {
      var noCsv, noGee, written, after := ExportOne(inp, fcs[i], existing);
      FlagsStep(fcs, i, inp.load, inp.vocab, inp.exportCsv, inp.exportGee, noExportCsv, noExportGee, noCsv, noGee);
      var prev := csvWritten;
      if written.Some? {
        csvWritten := csvWritten + [written.value];
      }
      WrittenStep(prev, existing0, existing, after, written, csvWritten);
      existing := after;
      noExportCsv := noExportCsv || noCsv;
      noExportGee := noExportGee || noGee;
      i := i + 1;
    }
    fails := noExportCsv || noExportGee;
  }
}
