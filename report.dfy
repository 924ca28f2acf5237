/** The main loop: walks the photo tree, writes one row per readable DNG image under a
    header, and counts the images seen and the ones skipped. */
module Report {
  import opened Wrappers
  import opened Text
  import opened LensModel
  import opened Record

  /** The first line of the output file. */
  const HEADER: string := "Model\tLens\tAperture\tExposure\tFocal Length\tDate"

  /** A file of the walk: its name and the EXIF tags read from it. */
  datatype RawFile = RawFile(name: string, tags: Tags)

  /** One directory of the walk, with its files in listing order. */
  datatype Dir = Dir(root: string, files: seq<RawFile>)

  /** The state of a run: the lines written to the output file (each followed by a
      newline there), the `count` and `errors` counters, and the lens description the
      program exited on, if it did. */
  datatype Run = Run(lines: seq<string>, count: nat, errors: nat, exitedOn: Option<string>)

  /** A run that has written the header and nothing else. */
  const START: Run := Run([HEADER], 0, 0, None)

  /** `name.lower().endswith('dng')`: no dot is needed before the extension. */
  predicate IsDngName(name: string): (b: bool)
    ensures b ==> |name| >= 3
  {
    EndsWith(Lower(name), "dng")
  }

  /** The files of a walk, directory after directory. */
  function Flatten(tree: seq<Dir>): seq<RawFile> {
    if tree == [] then [] else tree[0].files + Flatten(tree[1..])
  }

  /** The formatter of the program: `formatTSVLine` with `fNumber` rendering apertures. */
  function Formatter(fNumber: string -> string): Tags -> Formatted {
    tags => FormatLine(tags, fNumber)
  }

  /** One file of the inner loop, for a run that has not exited, with `format` turning
      the tags of an image into its outcome. */
  function Step(run: Run, file: RawFile, format: Tags -> Formatted): (next: Run)
    requires run.exitedOn == None
    ensures run.lines <= next.lines && run.count <= next.count <= run.count + 1 && run.errors <= next.errors
    ensures |next.lines| - |run.lines| == (next.count - run.count) - (next.errors - run.errors)
  {
    if !IsDngName(file.name) then run
    else match format(file.tags)
      case Exited(lensModel) => run.(exitedOn := Some(lensModel))
      case Returned(line) =>
        if line == "" then run.(count := run.count + 1, errors := run.errors + 1)
        else run.(count := run.count + 1, lines := run.lines + [line])
  }

  /** The loop over `files`, stopping at the first exit. */
  function Walk(run: Run, files: seq<RawFile>, format: Tags -> Formatted): (last: Run)
    ensures run.lines <= last.lines && run.count <= last.count && run.errors <= last.errors
    ensures |last.lines| - |run.lines| == (last.count - run.count) - (last.errors - run.errors)
    ensures run.exitedOn != None ==> last == run
    decreases |files|
  {
    if files == [] || run.exitedOn != None then run
    else Walk(Step(run, files[0], format), files[1..], format)
  }

  /** The main loop over the directories of `tree`, in the order the walk lists them. */
  method ProcessTree(tree: seq<Dir>, fNumber: string -> string) returns (run: Run)
    ensures run == Walk(START, Flatten(tree), Formatter(fNumber))
  {
    var format := Formatter(fNumber);
    var count: nat := 0;
    var errors: nat := 0;
    var written: seq<string> := [HEADER];
    for d := 0 to |tree|
      invariant Walk(Run(written, count, errors, None), Flatten(tree[d..]), format)
        == Walk(START, Flatten(tree), format)
    {
      FlattenFrom(tree, d);
      WalkAppend(Run(written, count, errors, None), tree[d].files, Flatten(tree[d + 1..]), format);
      var dirRun := ProcessDir(Run(written, count, errors, None), tree[d].files, fNumber);
      if dirRun.exitedOn != None {
        return dirRun;
      }
      written, count, errors := dirRun.lines, dirRun.count, dirRun.errors;
    }
    assert Flatten(tree[|tree|..]) == [];
    run := Run(written, count, errors, None);
  }

  /** The inner loop over the files of one directory, going on from the run so far. */
  method ProcessDir(from: Run, files: seq<RawFile>, fNumber: string -> string) returns (run: Run)
    requires from.exitedOn == None
    ensures run == Walk(from, files, Formatter(fNumber))
  {
    var format := Formatter(fNumber);
    var lines, count, errors := from.lines, from.count, from.errors;
    for i := 0 to |files|
      invariant Walk(Run(lines, count, errors, None), files[i..], format) == Walk(from, files, format)
    {
      var file := files[i];
      assert files[i..][1..] == files[i + 1..];
      if EndsWith(Lower(file.name), "dng") {
        var line := FormatTSVLine(file.tags, fNumber);
        assert line == format(file.tags);
        if line.Exited? {
          return Run(lines, count, errors, Some(line.lensModel));
        }
        count := count + 1;
        if line.line == "" {
          errors := errors + 1;
          continue;
        }
        lines := lines + [line.line];
      }
    }
    run := Run(lines, count, errors, None);
  }

  /** Walking two lists of files is walking the first, then the second from where the
      first left off (nothing more once the program has exited). */
  lemma {:induction false} WalkAppend(run: Run, a: seq<RawFile>, b: seq<RawFile>, format: Tags -> Formatted)
    ensures Walk(run, a + b, format) == Walk(Walk(run, a, format), b, format)
    decreases |a|
  {
    if a == [] {
      assert a + b == b;
    } else if run.exitedOn == None {
      assert (a + b)[0] == a[0];
      assert (a + b)[1..] == a[1..] + b;
      WalkAppend(Step(run, a[0], format), a[1..], b, format);
    } else {
      assert Walk(run, a, format) == run;
    }
  }

  /** The files from directory `d` on are those of `d` followed by those after it. */
  lemma FlattenFrom(tree: seq<Dir>, d: nat)
    requires d < |tree|
    ensures Flatten(tree[d..]) == tree[d].files + Flatten(tree[d + 1..])
  {
    assert tree[d..][1..] == tree[d + 1..];
  }

  // ---------------------------------------------------------------------------
  // What a run writes and counts

  /** The files `count` counts. */
  function CountDng(files: seq<RawFile>): nat {
    if files == [] then 0
    else (if IsDngName(files[0].name) then 1 else 0) + CountDng(files[1..])
  }

  /** 1 when `file` is counted and its line came back empty. */
  function SkippedOf(file: RawFile, format: Tags -> Formatted): nat {
    if IsDngName(file.name) && format(file.tags) == Returned("") then 1 else 0
  }

  /** The counted files whose line came back empty. */
  function CountSkipped(files: seq<RawFile>, format: Tags -> Formatted): nat {
    if files == [] then 0 else SkippedOf(files[0], format) + CountSkipped(files[1..], format)
  }

  /** The row `file` contributes, if any. */
  function RowOf(file: RawFile, format: Tags -> Formatted): seq<string> {
    var f := format(file.tags);
    if IsDngName(file.name) && f.Returned? && f.line != "" then [f.line] else []
  }

  /** The rows the counted files contribute. */
  function DataLines(files: seq<RawFile>, format: Tags -> Formatted): seq<string> {
    if files == [] then [] else RowOf(files[0], format) + DataLines(files[1..], format)
  }

  /** `file` is counted and makes the program exit. */
  predicate ExitsOn(file: RawFile, format: Tags -> Formatted) {
    IsDngName(file.name) && format(file.tags).Exited?
  }

  /** Without an exit, a run writes one row per counted file with a non-empty line and
      counts every counted file, adding to `errors` those whose line was empty. */
  lemma {:induction false} WalkWithoutExit(run: Run, files: seq<RawFile>, format: Tags -> Formatted)
    requires run.exitedOn == None
    requires forall k :: 0 <= k < |files| ==> !ExitsOn(files[k], format)
    ensures Walk(run, files, format) == Run(run.lines + DataLines(files, format),
      run.count + CountDng(files), run.errors + CountSkipped(files, format), None)
    decreases |files|
  {
    if files != [] {
      assert !ExitsOn(files[0], format);
      forall k | 0 <= k < |files[1..]| ensures !ExitsOn(files[1..][k], format) {
        assert files[1..][k] == files[k + 1];
      }
      var next := Step(run, files[0], format);
      StepWithoutExit(run, files[0], format);
      assert Walk(run, files, format) == Walk(next, files[1..], format);
      WalkWithoutExit(next, files[1..], format);
      assert DataLines(files, format) == RowOf(files[0], format) + DataLines(files[1..], format);
      assert run.lines + RowOf(files[0], format) + DataLines(files[1..], format)
        == run.lines + DataLines(files, format);
    }
  }

  /** One file that does not make the program exit adds its row, if any, and its share
      of the counters. */
  lemma StepWithoutExit(run: Run, file: RawFile, format: Tags -> Formatted)
    requires run.exitedOn == None && !ExitsOn(file, format)
    ensures Step(run, file, format) == Run(run.lines + RowOf(file, format),
      run.count + (if IsDngName(file.name) then 1 else 0), run.errors + SkippedOf(file, format), None)
  {
  }

  /** At the first counted file that makes the program exit, the run stops with what it
      had written and counted before it, and reports what the formatter exited on. */
  lemma {:induction false} WalkStopsAtExit(run: Run, files: seq<RawFile>, k: nat, format: Tags -> Formatted)
    requires run.exitedOn == None
    requires k < |files| && ExitsOn(files[k], format)
    requires forall j :: 0 <= j < k ==> !ExitsOn(files[j], format)
    ensures Walk(run, files, format)
      == Walk(run, files[..k], format).(exitedOn := Some(format(files[k].tags).lensModel))
    decreases |files|
  {
    if k > 0 {
      forall j | 0 <= j < k - 1 ensures !ExitsOn(files[1..][j], format) {
        assert files[1..][j] == files[j + 1];
      }
      assert !ExitsOn(files[0], format);
      assert files[1..][..k - 1] == files[..k][1..];
      WalkStopsAtExit(Step(run, files[0], format), files[1..], k - 1, format);
    }
  }

  /** A run ends on an exit exactly when some counted file makes the formatter exit. */
  lemma {:induction false} WalkExitsIff(run: Run, files: seq<RawFile>, format: Tags -> Formatted)
    requires run.exitedOn == None
    ensures Walk(run, files, format).exitedOn != None
      <==> exists k :: 0 <= k < |files| && ExitsOn(files[k], format)
    decreases |files|
  {
    if files != [] {
      if ExitsOn(files[0], format) {
        assert Walk(run, files, format) == Step(run, files[0], format);
      } else {
        WalkExitsIff(Step(run, files[0], format), files[1..], format);
        if exists k :: 0 <= k < |files| && ExitsOn(files[k], format) {
          var k :| 0 <= k < |files| && ExitsOn(files[k], format);
          assert files[1..][k - 1] == files[k];
        }
        forall k | 0 <= k < |files[1..]| && ExitsOn(files[1..][k], format)
          ensures ExitsOn(files[k + 1], format)
        {
          assert files[1..][k] == files[k + 1];
        }
      }
    }
  }

  /** The run that exits at the `k`-th file has written and counted exactly what the
      files before it gave. */
  lemma WalkExitsAt(run: Run, files: seq<RawFile>, k: nat, format: Tags -> Formatted)
    requires run.exitedOn == None
    requires k < |files| && ExitsOn(files[k], format)
    requires forall j :: 0 <= j < k ==> !ExitsOn(files[j], format)
    ensures Walk(run, files, format)
      == Run(run.lines + DataLines(files[..k], format), run.count + CountDng(files[..k]),
             run.errors + CountSkipped(files[..k], format), Some(format(files[k].tags).lensModel))
  {
    WalkStopsAtExit(run, files, k, format);
    forall j | 0 <= j < |files[..k]| ensures !ExitsOn(files[..k][j], format) {
      assert files[..k][j] == files[j];
    }
    WalkWithoutExit(run, files[..k], format);
  }

  /** In the program, the run exits at the first counted image that has a model and a
      lens description the simplifier rejects, reporting that description, after
      writing and counting exactly what the images before it gave. */
  lemma RunStopsAtLens(files: seq<RawFile>, k: nat, fNumber: string -> string)
    requires k < |files| && ExitsOn(files[k], Formatter(fNumber))
    requires forall j :: 0 <= j < k ==> !ExitsOn(files[j], Formatter(fNumber))
    ensures MODEL_TAG in files[k].tags && LENS_TAG in files[k].tags
      && SimplifyLensModel(files[k].tags[LENS_TAG]) == None
    ensures Walk(START, files, Formatter(fNumber))
      == Run([HEADER] + DataLines(files[..k], Formatter(fNumber)), CountDng(files[..k]),
             CountSkipped(files[..k], Formatter(fNumber)), Some(files[k].tags[LENS_TAG]))
  {
    FormatExitsIff(files[k].tags, fNumber);
    WalkExitsAt(START, files, k, Formatter(fNumber));
  }

  /** Every line written after the header is a row, and the rows written so far
      balance `count` against `errors`. */
  ghost predicate WellFormed(run: Run) {
    |run.lines| >= 1 && run.lines[0] == HEADER
    && |run.lines| + run.errors == 1 + run.count
    && forall k :: 1 <= k < |run.lines| ==> |Split(run.lines[k], '\t')| >= 6
  }

  /** Every non-empty line `format` returns splits on tabs into at least six pieces. */
  ghost predicate ShapesRows(format: Tags -> Formatted) {
    forall tags :: format(tags).Returned? && format(tags).line != ""
      ==> |Split(format(tags).line, '\t')| >= 6
  }

  lemma FormatterShapesRows(fNumber: string -> string)
    ensures ShapesRows(Formatter(fNumber))
  {
    forall tags | FormatLine(tags, fNumber).Returned? && FormatLine(tags, fNumber).line != ""
      ensures |Split(FormatLine(tags, fNumber).line, '\t')| >= 6
    {
      FormatRowShape(tags, fNumber);
    }
  }

  /** The walk keeps what has been written and the invariant of a run. */
  lemma {:induction false} WalkKeepsWellFormed(run: Run, files: seq<RawFile>, format: Tags -> Formatted)
    requires WellFormed(run) && ShapesRows(format)
    ensures run.lines <= Walk(run, files, format).lines
    ensures WellFormed(Walk(run, files, format))
    decreases |files|
  {
    if files != [] && run.exitedOn == None {
      var next := Step(run, files[0], format);
      WalkKeepsWellFormed(next, files[1..], format);
    }
  }

  /** The header comes first, every later line is a row of at least six tab separated
      pieces, and the rows written number `count - errors`. */
  lemma RunFromStart(tree: seq<Dir>, fNumber: string -> string)
    ensures var run := Walk(START, Flatten(tree), Formatter(fNumber));
      |run.lines| >= 1 && run.lines[0] == HEADER && |run.lines| - 1 == run.count - run.errors
      && forall k :: 1 <= k < |run.lines| ==> |Split(run.lines[k], '\t')| >= 6
  {
    FormatterShapesRows(fNumber);
    WalkKeepsWellFormed(START, Flatten(tree), Formatter(fNumber));
  }

  // ---------------------------------------------------------------------------
  // Which names count

  /** A name counts exactly when its last three characters are "dng" in any case. */
  lemma IsDngNameIff(name: string)
    ensures IsDngName(name) <==>
      (|name| >= 3 && LowerChar(name[|name| - 3]) == 'd' && LowerChar(name[|name| - 2]) == 'n'
       && LowerChar(name[|name| - 1]) == 'g')
  {
    if |name| >= 3 {
      var low := Lower(name);
      LowerAt(name, |name| - 3);
      LowerAt(name, |name| - 2);
      LowerAt(name, |name| - 1);
      assert low[|low| - 3..] == [low[|low| - 3], low[|low| - 2], low[|low| - 1]];
    }
  }

  lemma ExampleDngNames(upper: string, bare: string, other: string)
    requires upper == "IMG_0042.DNG" && bare == "scan_dng" && other == "IMG_0042.jpg"
    ensures IsDngName(upper) && IsDngName(bare) && !IsDngName(other)
  {
    IsDngNameIff(upper);
    IsDngNameIff(bare);
    IsDngNameIff(other);
  }
}
