/** One output row: the EXIF tags of a photo turned into a tab separated line. */
module Record {
  import opened Wrappers
  import opened Text
  import opened LensModel

  const MODEL_TAG: string := "Image Model"
  const LENS_TAG: string := "EXIF LensModel"
  const F_NUMBER_TAG: string := "EXIF FNumber"
  const EXPOSURE_TAG: string := "EXIF ExposureTime"
  const FOCAL_LENGTH_TAG: string := "EXIF FocalLength"
  const DATE_TAG: string := "EXIF DateTimeOriginal"

  /** The EXIF tags of one image, by name, each already rendered as text. */
  type Tags = map<string, string>

  /** `dateOnly`: the year of a `YYYY:MM:DD HH:MM:SS` date, that is everything before
      the first ':' (the whole text when there is none). */
  function DateOnly(fullDate: string): (year: string)
    ensures year <= fullDate && ':' !in year
    ensures |year| == |fullDate| || fullDate[|year|] == ':'
  {
    SplitHead(fullDate, ':');
    Split(fullDate, ':')[0]
  }

  /** The contract of `DateOnly` pins its result down: any prefix with no ':' that ends
      at the first ':' or at the end is the one it returns. */
  lemma DateOnlyUnique(fullDate: string, year: string)
    requires year <= fullDate && ':' !in year
    requires |year| == |fullDate| || fullDate[|year|] == ':'
    ensures DateOnly(fullDate) == year
  {
  }

  lemma ExampleDateOnly(fullDate: string)
    requires fullDate == "2021:07:04 10:22:31"
    ensures DateOnly(fullDate) == "2021"
  {
    DateOnlyUnique(fullDate, "2021");
  }

  /** What `formatTSVLine` does with one image: it returns a line (the empty one when a
      tag is missing), or the whole program exits on a lens description it cannot
      simplify. */
  datatype Formatted = Returned(line: string) | Exited(lensModel: string)

  /** All six tags that make up a row are present. */
  predicate HasRowTags(tags: Tags) {
    MODEL_TAG in tags && LENS_TAG in tags && F_NUMBER_TAG in tags
    && EXPOSURE_TAG in tags && FOCAL_LENGTH_TAG in tags && DATE_TAG in tags
  }

  /** The six fields of a row, in column order, for a lens that simplified to `lens`. */
  function RowFields(tags: Tags, lens: string, fNumber: string -> string): (fields: seq<string>)
    requires HasRowTags(tags)
    ensures |fields| == 6
  {
    [tags[MODEL_TAG], lens, fNumber(tags[F_NUMBER_TAG]), tags[EXPOSURE_TAG],
     tags[FOCAL_LENGTH_TAG], DateOnly(tags[DATE_TAG])]
  }

  /** `formatTSVLine` over a tag map. The tags are looked up in column order and the
      first missing one ends the lookups with an empty line, so the lens simplifier
      runs, and may exit, as soon as the model and the lens are present.
      `fNumber` renders the raw aperture tag as the aperture column. */
  function FormatLine(tags: Tags, fNumber: string -> string): (r: Formatted)
    ensures r.Exited? ==> LENS_TAG in tags && r.lensModel == tags[LENS_TAG]
    ensures r.Returned? && r.line != "" ==> HasRowTags(tags) && SimplifyLensModel(tags[LENS_TAG]).Some?
  {
    if MODEL_TAG !in tags || LENS_TAG !in tags then Returned("")
    else match SimplifyLensModel(tags[LENS_TAG])
      case None => Exited(tags[LENS_TAG])
      case Some(lens) =>
        if !HasRowTags(tags) then Returned("")
        else Returned(Join(RowFields(tags, lens, fNumber), '\t'))
  }

  /** `formatTSVLine`: appends the fields one by one and gives up with an empty line
      at the first missing tag. */
  method FormatTSVLine(tags: Tags, fNumber: string -> string) returns (r: Formatted)
    ensures r == FormatLine(tags, fNumber)
  {
    var results: seq<string> := [];
    if MODEL_TAG !in tags {
      return Returned("");
    }
    results := results + [tags[MODEL_TAG]];
    if LENS_TAG !in tags {
      return Returned("");
    }
    var lens := SimplifyLensModel(tags[LENS_TAG]);
    if lens.None? {
      return Exited(tags[LENS_TAG]);
    }
    results := results + [lens.value];
    if F_NUMBER_TAG !in tags {
      return Returned("");
    }
    results := results + [fNumber(tags[F_NUMBER_TAG])];
    if EXPOSURE_TAG !in tags {
      return Returned("");
    }
    results := results + [tags[EXPOSURE_TAG]];
    if FOCAL_LENGTH_TAG !in tags {
      return Returned("");
    }
    results := results + [tags[FOCAL_LENGTH_TAG]];
    if DATE_TAG !in tags {
      return Returned("");
    }
    results := results + [DateOnly(tags[DATE_TAG])];
    assert results == RowFields(tags, lens.value, fNumber);
    r := Returned(Join(results, '\t'));
  }

  /** The program exits on an image exactly when it has a model and a lens tag and the
      lens description cannot be simplified; the description is what it reports. */
  lemma FormatExitsIff(tags: Tags, fNumber: string -> string)
    ensures FormatLine(tags, fNumber).Exited?
      <==> MODEL_TAG in tags && LENS_TAG in tags && SimplifyLensModel(tags[LENS_TAG]) == None
    ensures FormatLine(tags, fNumber).Exited? ==> FormatLine(tags, fNumber).lensModel == tags[LENS_TAG]
  {
  }

  /** A missing tag gives an empty line rather than a crash, unless the lens failed
      first; and an empty line means some tag was missing. */
  lemma FormatSkipsIff(tags: Tags, fNumber: string -> string)
    ensures FormatLine(tags, fNumber) == Returned("")
      <==> !FormatLine(tags, fNumber).Exited? && !HasRowTags(tags)
  {
    var r := FormatLine(tags, fNumber);
    if HasRowTags(tags) && r.Returned? {
      var lens := SimplifyLensModel(tags[LENS_TAG]).value;
      RowNotEmpty(RowFields(tags, lens, fNumber));
    }
  }

  /** A row of six fields joined by tabs is never empty. */
  lemma RowNotEmpty(fields: seq<string>)
    requires |fields| == 6
    ensures Join(fields, '\t') != ""
  {
    assert |Join(fields, '\t')| >= 5;
  }

  /** A row that is written splits on tabs into at least six pieces (at least five tabs),
      and exactly into model, lens, aperture, exposure, focal length and year when no
      field holds a tab of its own. */
  lemma FormatRowShape(tags: Tags, fNumber: string -> string)
    requires FormatLine(tags, fNumber).Returned? && FormatLine(tags, fNumber).line != ""
    ensures HasRowTags(tags) && SimplifyLensModel(tags[LENS_TAG]).Some?
    ensures var fields := RowFields(tags, SimplifyLensModel(tags[LENS_TAG]).value, fNumber);
      var pieces := Split(FormatLine(tags, fNumber).line, '\t');
      |pieces| >= 6
      && ((forall i :: 0 <= i < 6 ==> '\t' !in fields[i]) ==> pieces == fields)
  {
    var fields := RowFields(tags, SimplifyLensModel(tags[LENS_TAG]).value, fNumber);
    JoinSplit(fields, '\t');
  }
}
