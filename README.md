# dng-reader, modelled in Dafny

`dng-reader.py` walks a directory tree, reads the EXIF tags of every file whose
name ends in `dng`, and writes one tab separated row per photo: camera model,
simplified lens, aperture, exposure, focal length and year. This project models
the logic of that script and proves what it does:

- **Lens simplification** (module `LensModel`). The two patterns `FOCAL_LENGTH`
  and `F_NUMBER` are modelled as scanners over the lens description. Each scanner
  covers the lazy `.*?` prefix, which cannot pass a newline, and the greedy
  `\d+(\.\d+)?(-\d+(\.\d+)?)?` groups. `simplifyLensModel` joins the two captures
  as `<focal> f/<aperture>` and then deletes every `.0`, as `str.replace` does:
  one pass from the left, over non-overlapping occurrences. The `exit(1)` path is
  the value `None`. The scanners are proved equal to a declarative reading: a
  match exists exactly when a digit, or a marker `F`/`f/` followed by a digit,
  comes before the first newline, and the capture is the longest value at the
  first such place. Simplifying is proved idempotent, and its result holds no `.0`.
- **String helpers** (module `Text`): `replace('.0', '')`, `split`, `join`,
  `lower` and `endswith`, with the facts the rest of the model needs.
- **The row formatter** (module `Record`): `dateOnly`, and `formatTSVLine` over a
  map from tag names to tag text. The formatter is a method that appends the
  fields one by one and stops at the first missing tag. It is proved equal to a
  function that states which inputs give an empty line, which give a row of six
  fields, and which make the program exit.
- **The main loop** (module `Report`): the nested loops over directories and
  files, with the `count` and `errors` counters and the lines written. They are
  methods proved equal to a fold over the files. Lemmas then state:
  - what a run writes and counts;
  - that the header stays first and rows balance the counters;
  - when and where a run exits.

The model follows the code, including where it may surprise a reader:

- The patterns look for a match on the first line of the description; the whole
  description need not match, and text after the captured numbers is ignored.
- Every `.0` is deleted, in the aperture as well as the focal length, so
  `"70.0-200.0 mm f/4.0"` becomes `"70-200 f/4"`.
- A `.0` inside a number is deleted too, which changes the number:
  `"10.05mm F2"` becomes `"105 f/2"`.
- The aperture marker is searched independently of the focal length, so in
  `"XF18-55mmF2.8-4"` the `F` at index 1 wins and the result is `"18-55 f/18-55"`.
- A file counts when its lower-cased name ends with `dng`; no dot is needed
  (`"scan_dng"` counts).
- A row is six fields joined by tabs. A field that holds a tab or a newline of
  its own is written as it is; nothing guarantees six fields per output line.
- `count` goes up after `formatTSVLine` returns, so the image the program exits
  on is not counted.

## Model

| member | source | states |
|---|---|---|
| Text.RemoveDotZero | dng-reader.py:47 | `replace('.0', '')` never lengthens the text and deletes an even number of characters |
| Text.RemoveDotZeroKeeps | dng-reader.py:47 | text without `.0` is left unchanged |
| Text.RemoveDotZeroLeavesNone | dng-reader.py:47 | when every `.` is followed by a digit, no `.0` is left after the single pass |
| Text.RemoveDotZeroAppend | dng-reader.py:47 | the deletion acts on each part of a concatenation whose left part does not end in `.` |
| Text.RemoveDotZeroAround | dng-reader.py:36-47 | the deletion goes around a `-` joining two groups |
| Text.RemoveDotZeroAroundMarker | dng-reader.py:40-47 | the deletion on `focal + " f/" + aperture` acts on focal and aperture separately |
| Text.Split | dng-reader.py:24 | `split(':')` gives at least one piece and no piece holds the separator |
| Text.SplitHead | dng-reader.py:24 | the first piece of a split is the longest prefix free of the separator |
| Text.SplitJoin | dng-reader.py:24 | joining the pieces of a split with the separator gives the text back |
| Text.SplitAround | dng-reader.py:24 | splitting `a + sep + b` is splitting `a`, then `b` |
| Text.SplitWithoutSep | dng-reader.py:24 | text without the separator splits into itself alone |
| Text.Join | dng-reader.py:72 | `'\t'.join(parts)` is at least one character per separator long |
| Text.JoinSplit | dng-reader.py:72 | a joined row splits back into at least as many pieces as it had parts, and exactly into the parts when no part holds the separator |
| Text.LowerChar | dng-reader.py:88 | ASCII `lower()` of one character turns an upper-case letter into the matching lower-case one, keeps every other character, and leaves no upper-case letter |
| Text.Lower | dng-reader.py:88 | ASCII `lower()` keeps the length |
| Text.LowerAt | dng-reader.py:88 | ASCII `lower()` lowers each character in its place |
| Text.EndsWith | dng-reader.py:88 | `endswith(suffix)` holds exactly when the text is some prefix followed by the suffix |
| LensModel.MarkerEnd | dng-reader.py:17 | after a marker `F` or `f/` the aperture digits start, inside the text |
| LensModel.DigitsEnd | dng-reader.py:16-17 | the greedy `\d*` stops at the first non-digit, and all before it are digits |
| LensModel.NumeralEnd | dng-reader.py:16-17 | the greedy `\d+(\.\d+)?` at a digit ends on a digit that no digit follows |
| LensModel.ValueEnd | dng-reader.py:16-17 | groups 1 and 3 together end no earlier than group 1, on a digit that no digit follows |
| LensModel.FirstDigit | dng-reader.py:16 | the lazy `.*?` of FOCAL_LENGTH: a result is the first digit with no newline before it; none means every digit comes after a newline |
| LensModel.FirstMarker | dng-reader.py:17 | the lazy `.*?` of F_NUMBER: a result is the first marker followed by a digit with no newline before it; none means every such marker comes after a newline |
| LensModel.FocalLength | dng-reader.py:16-38 | FOCAL_LENGTH matches exactly when the lazy prefix reaches a digit, and its capture starts and ends with a digit |
| LensModel.FNumber | dng-reader.py:17-45 | F_NUMBER matches exactly when the lazy prefix reaches a marker followed by a digit, and its capture starts and ends with a digit |
| LensModel.SimplifyLensModel | dng-reader.py:26-52 | a simplified description comes back exactly when both patterns match, and it starts with the focal capture's first digit |
| LensModel.NumeralEndIsLongest | dng-reader.py:16-17 | the greedy `\d+(\.\d+)?` takes the longest numeral that starts at a digit |
| LensModel.NumeralEndIsNumeral | dng-reader.py:16-17 | what the greedy `\d+(\.\d+)?` takes is a numeral |
| LensModel.NumeralEndIsMaximal | dng-reader.py:16-17 | no numeral from the same start ends later |
| LensModel.ValueShape | dng-reader.py:16-17 | a capture holds only digits, `.` and `-`, starts and ends with a digit, and has a digit after each `.` |
| LensModel.InsideNumeral | dng-reader.py:16-17 | inside the greedy numeral there are only digits and `.` |
| LensModel.DashEndsNumeral | dng-reader.py:16-17 | a `-` that ends a numeral stands where the greedy numeral ends |
| LensModel.RangeAfterNumeral | dng-reader.py:16-17 | a value with a `-` continues the greedy numeral with `-` and a second numeral |
| LensModel.ValueAfterNumeral | dng-reader.py:16-17 | a value from the same start lies inside the greedy numeral or continues it with `-` and a numeral |
| LensModel.ValueEndIsLongest | dng-reader.py:16-17 | groups 1 and 3 together take the longest value that starts at a digit |
| LensModel.ValueEndIsValue | dng-reader.py:16-17 | what groups 1 and 3 take together is a value |
| LensModel.NoLongerValue | dng-reader.py:16-17 | no value from the same start ends after groups 1 and 3 |
| LensModel.RangeIsValueAt | dng-reader.py:16-17 | a numeral, `-` and a numeral in a row make a value |
| LensModel.LongestValueUnique | dng-reader.py:16-17 | the longest value at a place is unique |
| LensModel.ValueEndAt | dng-reader.py:16-17 | the greedy groups end right after a value written at a digit when nothing after it can continue a value |
| LensModel.FocalLengthMatches | dng-reader.py:16-31 | FOCAL_LENGTH matches exactly when a digit comes before the first newline, and then a declarative capture exists |
| LensModel.FocalLengthCaptures | dng-reader.py:16-38 | the focal part is the longest value at the first digit, with the `-` range only when it follows directly |
| LensModel.FNumberMatches | dng-reader.py:17-32 | F_NUMBER matches exactly when `F<digit>` or `f/<digit>` comes before the first newline, and then a declarative capture exists |
| LensModel.FNumberCaptures | dng-reader.py:17-45 | the aperture part is the longest value after the earliest marker followed by a digit |
| LensModel.SimplifyFailsIff | dng-reader.py:31-50 | the program exits on a description exactly when one of the two patterns fails |
| LensModel.SimplifyJoinsCaptures | dng-reader.py:33-47 | otherwise the result is focal, `" f/"` and aperture with every `.0` deleted |
| LensModel.CapturesAreValues | dng-reader.py:34-45 | both captures are values |
| LensModel.SimplifiedHasNoDotZero | dng-reader.py:28-47 | no `.0` is left in a simplified description |
| LensModel.DigitsAreNumeral | dng-reader.py:16-17 | a run of digits is a numeral with no `.0` |
| LensModel.NumeralWithoutDotZero | dng-reader.py:47 | deleting `.0` from a numeral leaves a numeral |
| LensModel.DecimalWithoutDotZero | dng-reader.py:47 | deleting `.0` from `whole.frac` leaves a numeral |
| LensModel.DotZeroDropped | dng-reader.py:47 | a `.0` in front of digits is deleted and the digits after it are kept |
| LensModel.RangeIsValue | dng-reader.py:16-17 | two numerals joined by `-` make a value |
| LensModel.ValueWithoutDotZero | dng-reader.py:47 | deleting `.0` from a value leaves a value |
| LensModel.RangeWithoutDotZero | dng-reader.py:36-47 | deleting `.0` from a range leaves a value |
| LensModel.FocalOfCanonical | dng-reader.py:16 | in `focal f/aperture`, FOCAL_LENGTH captures the focal part |
| LensModel.FNumberOfCanonical | dng-reader.py:17 | in `focal f/aperture`, F_NUMBER captures the aperture part |
| LensModel.MarkerOfCanonical | dng-reader.py:17 | in `focal f/aperture`, the earliest marker is the written `f/` |
| LensModel.SimplifyCanonical | dng-reader.py:26-47 | a description already in the form `focal f/aperture` without `.0` simplifies to itself |
| LensModel.SimplifyIdempotent | dng-reader.py:26-47 | simplifying a simplified description gives it back unchanged |
| LensModel.FocalLengthAt | dng-reader.py:16 | the focal capture is the value written at the first digit |
| LensModel.FNumberAt | dng-reader.py:17 | the aperture capture is the value written after the earliest marker |
| LensExamples.ExampleDecimalRange | dng-reader.py:26-47 | `"70.0-200.0 mm f/4.0"` simplifies to `"70-200 f/4"` |
| LensExamples.DecimalRangeFocal | dng-reader.py:16 | its focal capture is `"70.0-200.0"` |
| LensExamples.DecimalRangeAperture | dng-reader.py:17 | its aperture capture is `"4.0"` |
| LensExamples.DecimalRangeSimplified | dng-reader.py:40-47 | joining them and deleting `.0` gives `"70-200 f/4"` |
| LensExamples.ExampleApertureRange | dng-reader.py:26-47 | `"18-55mm F3.5-5.6"` simplifies to `"18-55 f/3.5-5.6"` |
| LensExamples.ApertureRangeFocal | dng-reader.py:16 | its focal capture is `"18-55"` |
| LensExamples.ApertureRangeAperture | dng-reader.py:17 | its aperture capture is `"3.5-5.6"` |
| LensExamples.ApertureRangeSimplified | dng-reader.py:40-47 | joining them leaves no `.0` to delete |
| LensExamples.ExamplePrime | dng-reader.py:26-47 | `"50mm F1.4"` simplifies to `"50 f/1.4"` |
| LensExamples.ExampleDotZeroInsideNumber | dng-reader.py:26-47 | `"10.05mm F2"` simplifies to `"105 f/2"`: the `.0` inside 10.05 is deleted too |
| LensExamples.InsideNumberSimplified | dng-reader.py:40-47 | deleting `.0` from `"10.05 f/2"` gives `"105 f/2"` |
| LensExamples.ExampleMarkerInPrefix | dng-reader.py:17-45 | `"XF18-55mmF2.8-4"` simplifies to `"18-55 f/18-55"`: the `F` at index 1 wins |
| LensExamples.ExampleNoDigits | dng-reader.py:31-50 | `"Unknown Lens XYZ"` makes the program exit |
| LensExamples.ExampleSecondLine | dng-reader.py:16-33 | a digit after a newline is out of reach: `"Lens\n50mm F2"` makes the program exit |
| Record.DateOnly | dng-reader.py:19-24 | the year is a prefix of the date with no `:` that ends at the first `:` or at the end |
| Record.DateOnlyUnique | dng-reader.py:19-24 | any prefix with those properties is the one returned |
| Record.ExampleDateOnly | dng-reader.py:19-24 | `"2021:07:04 10:22:31"` gives `"2021"` |
| Record.RowFields | dng-reader.py:63-68 | a row has six fields |
| Record.FormatLine | dng-reader.py:54-72 | an exit reports the image's lens tag, and a non-empty line means all six tags are present and the lens simplified |
| Record.FormatTSVLine | dng-reader.py:54-72 | appending the fields one by one and stopping at the first missing tag gives the outcome the formatter function states |
| Record.FormatExitsIff | dng-reader.py:49-64 | the program exits on an image exactly when it has the model and lens tags and the lens cannot be simplified, and it reports that lens |
| Record.FormatSkipsIff | dng-reader.py:61-70 | the line is empty exactly when some tag is missing and the program did not exit first |
| Record.RowNotEmpty | dng-reader.py:72 | six fields joined by tabs are never empty |
| Record.FormatRowShape | dng-reader.py:63-72 | a non-empty line has all six tags and a simplified lens, splits into at least six pieces, and into exactly the six fields in column order when no field holds a tab |
| Report.ProcessTree | dng-reader.py:81-97 | the loop over directories ends in the run the fold over all files gives, exit included |
| Report.ProcessDir | dng-reader.py:87-96 | the loop over one directory's files goes on from the run so far as the fold over those files does |
| Report.IsDngName | dng-reader.py:88 | a name that counts has at least three characters |
| Report.Step | dng-reader.py:88-96 | one file keeps the lines written, adds at most one to `count`, and adds a line exactly when it adds to `count` and not to `errors` |
| Report.Walk | dng-reader.py:85-96 | a run keeps the lines written, never lowers a counter, adds one line per counted file that is not an error, and changes nothing once exited |
| Report.WalkAppend | dng-reader.py:85-96 | walking two lists of files is walking the first, then the second, and nothing more after an exit |
| Report.FlattenFrom | dng-reader.py:85-87 | the files from a directory on are that directory's, then the rest |
| Report.StepWithoutExit | dng-reader.py:88-96 | one file that does not exit adds its row, if any, to the lines, and its share to `count` and `errors` |
| Report.WalkWithoutExit | dng-reader.py:87-96 | without an exit a run writes one row per counted file with a non-empty line, counts every counted file, and counts as errors those with an empty line |
| Report.WalkStopsAtExit | dng-reader.py:49-89 | at the first counted file that exits, the run stops with what it had before that file |
| Report.WalkExitsIff | dng-reader.py:49-89 | a run exits exactly when some counted file makes the formatter exit |
| Report.WalkExitsAt | dng-reader.py:49-96 | a run that exits at file k has written and counted exactly what the files before k gave |
| Report.RunStopsAtLens | dng-reader.py:31-96 | in the program, the run exits at the first counted image whose lens the simplifier rejects, reporting that lens, with the header and the rows and counts of the images before it |
| Report.FormatterShapesRows | dng-reader.py:72 | every non-empty line the program's formatter returns splits into at least six pieces |
| Report.WalkKeepsWellFormed | dng-reader.py:84-96 | a run keeps the lines already written, the header first, every later line a row, and rows balancing `count - errors` |
| Report.RunFromStart | dng-reader.py:84-96 | from the header, the lines after it are rows of at least six tab separated pieces, and there are `count - errors` of them |
| Report.IsDngNameIff | dng-reader.py:88 | a name counts exactly when its last three characters lower to `d`, `n`, `g` |
| Report.ExampleDngNames | dng-reader.py:88 | `"IMG_0042.DNG"` and `"scan_dng"` count, `"IMG_0042.jpg"` does not |

## Left out

- Reading the tags (`open` and `exifread.process_file`, dng-reader.py:58-59) is I/O and a foreign library. The tags of an image are an input map from tag name to tag text. An image without EXIF data (`exifread` returns `{}`) is an empty map. An exception from `open` or `process_file`, which ends the program, is not modelled.
- Record.FormatTSVLine: the aperture column is `str(eval(...))` of the raw tag. It runs text as Python and renders a float. Here it is the parameter `fNumber: string -> string`, and an exception raised by `eval` is not modelled.
- Text.IsDigit: `\d` in a Python text pattern also accepts non-ASCII digits; the model accepts only `0`-`9`. Every scanner built on it inherits this: `DigitsEnd`, `NumeralEnd`, `ValueEnd`, `MarkerAt`, `FirstDigit` and `FirstMarker`.
- Text.Lower: `lower()` is modelled on ASCII letters only. Unicode case mapping, where a lowered text can change length, is not modelled. It does not change which names count: no non-ASCII character lowers to `d`, `n` or `g`.
- The command line (`OptionParser`, dng-reader.py:74-79) is not modelled. Nor is `os.walk`: the tree is given as its directories in the order the walk lists them, each with its files.
- Every `print` is left out: the directory being processed, progress every 100 photos, the failing lens and the final totals. The totals are the `count` and `errors` of the run.
- The output file (dng-reader.py:83-84,96-97) is the sequence of lines written, the header first. Each line is followed by a newline there. Opening, buffering, flushing and closing are left out. So is what an exit leaves in the file; the run records the lines written before the exit.
- The termination of the process by `exit(1)` (dng-reader.py:50) is a run that records the lens it exited on and stops. The unreachable `return lens_model` (dng-reader.py:52) has no model.
