/**
 * File-format resolution and dispatch of the grid and field readers and writers.
 *
 * A call either fails before touching any file (a `ValueError` when no format is given and
 * none can be guessed from the file name, a `NotImplementedError` for a format that no
 * branch handles) or performs exactly one file operation. The file operations themselves
 * belong to external libraries; they are modelled as a `TreeRead` or `Effect` value describing the call
 * that would be made: which file, which tree, whether the image is reshaped, whether an
 * existing file is overwritten.
 */
module FileFormats {
  import opened Wrappers

  // ---------------------------------------------------------------------------
  // Suffixes

  /** `s` ends with `suffix`, as Python's `str.endswith` decides it. */
  predicate EndsWith(s: string, suffix: string)
  {
    |suffix| <= |s| && s[|s| - |suffix|..] == suffix
  }

  /** `s` is some string followed by `suffix`. */
  ghost predicate HasSuffix(s: string, suffix: string)
  {
    exists p: string :: s == p + suffix
  }

  /** The slice test of `EndsWith` is exactly the concatenation reading of a suffix. */
  lemma EndsWithIffHasSuffix(s: string, suffix: string)
    ensures EndsWith(s, suffix) <==> HasSuffix(s, suffix)
  {
    if EndsWith(s, suffix) {
      var p := s[..|s| - |suffix|];
      assert s == p + suffix;
    }
    if HasSuffix(s, suffix) {
      var p: string :| s == p + suffix;
      assert s[|s| - |suffix|..] == s[|p|..];
      assert s[|p|..] == suffix;
    }
  }

  // ---------------------------------------------------------------------------
  // Guessing a format

  const AsdfFormat: string := "asdf"
  const FitsFormat: string := "fits"

  /**
   * The format guessed from a file name: `"asdf"` for a name ending in `asdf` (with or
   * without a dot before it), `"fits"` for one ending in `fits` or `fits.gz`, otherwise none.
   * The comparison is case-sensitive.
   */
  function GuessFileFormat(filename: string): (r: Option<string>)
    ensures r.Some? ==> r.value == AsdfFormat || r.value == FitsFormat
  {
    if EndsWith(filename, "asdf") then Some(AsdfFormat)
    else if EndsWith(filename, "fits") || EndsWith(filename, "fits.gz") then Some(FitsFormat)
    else None
  }

  /** A string ending in a non-empty suffix ends in that suffix's last character. */
  lemma LastCharacter(s: string, suffix: string)
    requires |suffix| > 0 && EndsWith(s, suffix)
    ensures s[|s| - 1] == suffix[|suffix| - 1]
  {
    assert s[|s| - |suffix|..][|suffix| - 1] == s[|s| - 1];
  }

  /** No name ends both in `asdf` and in `fits` or `fits.gz`: the last characters differ. */
  lemma AsdfAndFitsSuffixesExclusive(filename: string)
    ensures !(EndsWith(filename, "asdf") && EndsWith(filename, "fits"))
    ensures !(EndsWith(filename, "asdf") && EndsWith(filename, "fits.gz"))
  {
    if EndsWith(filename, "asdf") {
      LastCharacter(filename, "asdf");
    }
    if EndsWith(filename, "fits") {
      LastCharacter(filename, "fits");
    }
    if EndsWith(filename, "fits.gz") {
      LastCharacter(filename, "fits.gz");
    }
  }

  /**
   * The guess in terms of suffixes: `"asdf"` iff the name is something followed by `asdf`,
   * `"fits"` iff it is something followed by `fits` or by `fits.gz`, none iff neither.
   * Because the suffixes are exclusive, the order in which they are tried does not matter.
   */
  lemma GuessMatchesSuffixes(filename: string)
    ensures GuessFileFormat(filename) == Some(AsdfFormat) <==> HasSuffix(filename, "asdf")
    ensures GuessFileFormat(filename) == Some(FitsFormat)
      <==> (HasSuffix(filename, "fits") || HasSuffix(filename, "fits.gz"))
    ensures GuessFileFormat(filename).None?
      <==> !HasSuffix(filename, "asdf") && !HasSuffix(filename, "fits") && !HasSuffix(filename, "fits.gz")
  {
    EndsWithIffHasSuffix(filename, "asdf");
    EndsWithIffHasSuffix(filename, "fits");
    EndsWithIffHasSuffix(filename, "fits.gz");
    AsdfAndFitsSuffixesExclusive(filename);
  }

  /** A name without a dot before the extension still qualifies: `xasdf` is an asdf file. */
  lemma GuessExamples()
    ensures GuessFileFormat("xasdf") == Some(AsdfFormat)
    ensures GuessFileFormat("pupil.fits.gz") == Some(FitsFormat)
    ensures GuessFileFormat("pupil.fits") == Some(FitsFormat)
    ensures GuessFileFormat("pupil.FITS") == None
    ensures GuessFileFormat("pupil.fit") == None
    ensures GuessFileFormat("") == None
  {
    assert "xasdf"[1..] == "asdf";
    assert "pupil.fits.gz"[6..] == "fits.gz";
    assert "pupil.fits"[6..] == "fits";
    assert "pupil.FITS"[6..] != "asdf";
    assert "pupil.FITS"[6..] != "fits";
    assert "pupil.FITS"[3..] != "fits.gz";
    assert "pupil.fit"[5..] != "asdf";
    assert "pupil.fit"[5..] != "fits";
    assert "pupil.fit"[2..] != "fits.gz";
  }

  // ---------------------------------------------------------------------------
  // Resolving a format

  /** The exceptions a reader or writer raises itself. */
  datatype IoError =
    | ValueError(message: string)
    | NotImplementedError(message: string)
    | IndexError(message: string)

  const FormatNotGuessed: string := "Format not given and could not be guessed based on the file extension."
  const FormatNotImplemented: string := "This file format has not been implemented."

  /**
   * The format rule shared by the four entry points: an explicit format is taken as given,
   * without looking at the name; otherwise the guess is used, and a name that gives no
   * guess is a `ValueError`.
   */
  function ResolveFormat(filename: string, fmt: Option<string>): (r: Result<string, IoError>)
    ensures fmt.Some? ==> r == Success(fmt.value)
    ensures fmt.None? && GuessFileFormat(filename).Some? ==> r == Success(GuessFileFormat(filename).value)
    ensures r.Failure? <==> fmt.None? && GuessFileFormat(filename).None?
    ensures r.Failure? ==> r.error == ValueError(FormatNotGuessed)
  {
    match fmt
    case Some(f) => Success(f)
    case None =>
      match GuessFileFormat(filename)
      case Some(f) => Success(f)
      case None => Failure(ValueError(FormatNotGuessed))
  }

  /** The formats that all four entry points handle. */
  predicate Supported(fmt: string)
  {
    fmt == AsdfFormat || fmt == FitsFormat
  }

  // ---------------------------------------------------------------------------
  // Trees and effects

  /**
   * The tree a writer stores: the metadata tag `file_type`, the key the object is stored
   * under, the object's own dictionary, and whether the field's `values` entry was replaced
   * by the image written to the FITS primary extension. The version string and the
   * timestamp of the metadata are not modelled.
   */
  datatype Tree<D> = Tree(fileType: string, key: string, content: D, valuesInImage: bool)

  /** The metadata tree with `file_type` tag `fileType`, holding `content` under the same key. */
  function MakeTree<D>(fileType: string, content: D): (tree: Tree<D>)
    ensures tree.fileType == fileType && tree.key == fileType && tree.content == content
    ensures !tree.valuesInImage
  {
    Tree(fileType, fileType, content, false)
  }

  /** The image HDU of an ASDF-in-FITS file: none, or the shaped field, with a linear WCS header or not. */
  datatype ImageHdu = NoImage | ShapedImage(withWcs: bool)

  /** The read a successful reader performs: open an ASDF (or ASDF-in-FITS) file and rebuild the object under `key`, flattened if `ravel`. */
  datatype TreeRead = ReadTree(filename: string, key: string, ravel: bool)

  /** The single file write a successful writer performs. */
  datatype Effect<D> =
      /** Writes a plain ASDF file with zlib compression; there is no overwrite argument. */
    | WriteAsdfFile(filename: string, tree: Tree<D>)
      /** Writes an ASDF tree embedded in a FITS file with zlib compression. */
    | WriteAsdfInFits(filename: string, tree: Tree<D>, image: ImageHdu, overwrite: bool)

  /** What the writers know about a field: its dictionary and the structure of its grid. */
  datatype FieldInfo<D> = FieldInfo(dict: D, isSeparated: bool, isRegular: bool)

  // ---------------------------------------------------------------------------
  // The four entry points

  /** `read_grid`: both asdf and fits files are opened as ASDF trees, and the grid is rebuilt unchanged. */
  function ReadGrid(filename: string, fmt: Option<string>): (r: Result<TreeRead, IoError>)
    ensures ResolveFormat(filename, fmt).Failure? ==> r == Failure(ResolveFormat(filename, fmt).error)
    ensures ResolveFormat(filename, fmt).Success? ==>
      var f := ResolveFormat(filename, fmt).value;
      && (Supported(f) ==> r == Success(ReadTree(filename, "grid", false)))
      && (!Supported(f) ==> r == Failure(NotImplementedError(FormatNotImplemented)))
  {
    match ResolveFormat(filename, fmt)
    case Failure(e) => Failure(e)
    case Success(f) =>
      if f == AsdfFormat || f == FitsFormat then Success(ReadTree(filename, "grid", false))
      else Failure(NotImplementedError(FormatNotImplemented))
  }

  /** `write_grid`: the grid tree is written as a plain ASDF file or as ASDF embedded in an empty FITS file. */
  function WriteGrid<D>(grid: D, filename: string, fmt: Option<string>, overwrite: bool): (r: Result<Effect<D>, IoError>)
    ensures ResolveFormat(filename, fmt).Failure? ==> r == Failure(ResolveFormat(filename, fmt).error)
    ensures ResolveFormat(filename, fmt).Success? ==>
      var f := ResolveFormat(filename, fmt).value;
      && (f == AsdfFormat ==> r == Success(WriteAsdfFile(filename, MakeTree("grid", grid))))
      && (f == FitsFormat ==> r == Success(WriteAsdfInFits(filename, MakeTree("grid", grid), NoImage, overwrite)))
      && (!Supported(f) ==> r == Failure(NotImplementedError(FormatNotImplemented)))
  {
    match ResolveFormat(filename, fmt)
    case Failure(e) => Failure(e)
    case Success(f) =>
      var tree := MakeTree("grid", grid);
      if f == AsdfFormat then Success(WriteAsdfFile(filename, tree))
      else if f == FitsFormat then Success(WriteAsdfInFits(filename, tree, NoImage, overwrite))
      else Failure(NotImplementedError(FormatNotImplemented))
  }

  /** `read_field`: as `read_grid`, but a field read from a FITS file is flattened. */
  function ReadField(filename: string, fmt: Option<string>): (r: Result<TreeRead, IoError>)
    ensures ResolveFormat(filename, fmt).Failure? ==> r == Failure(ResolveFormat(filename, fmt).error)
    ensures ResolveFormat(filename, fmt).Success? ==>
      var f := ResolveFormat(filename, fmt).value;
      && (Supported(f) ==> r == Success(ReadTree(filename, "field", f == FitsFormat)))
      && (!Supported(f) ==> r == Failure(NotImplementedError(FormatNotImplemented)))
  {
    match ResolveFormat(filename, fmt)
    case Failure(e) => Failure(e)
    case Success(f) =>
      if f == AsdfFormat then Success(ReadTree(filename, "field", false))
      else if f == FitsFormat then Success(ReadTree(filename, "field", true))
      else Failure(NotImplementedError(FormatNotImplemented))
  }

  /**
   * The FITS branch of `write_field`. A separated grid puts the shaped field in an image
   * HDU, whose data replaces the tree's `values`; a regular grid adds a linear WCS header to
   * the first HDU, which does not exist when the grid is regular but not separated.
   */
  function WriteFieldFits<D>(field: FieldInfo<D>, filename: string, overwrite: bool): (r: Result<Effect<D>, IoError>)
    ensures r.Failure? <==> field.isRegular && !field.isSeparated
    ensures r.Failure? ==> r.error.IndexError?
    ensures r.Success? ==> r.value.WriteAsdfInFits? && r.value.filename == filename && r.value.overwrite == overwrite
    ensures r.Success? ==> r.value.tree.fileType == "field" && r.value.tree.content == field.dict
    ensures r.Success? ==> (r.value.image.ShapedImage? <==> field.isSeparated)
    ensures r.Success? ==> (r.value.tree.valuesInImage <==> field.isSeparated)
    ensures r.Success? && r.value.image.ShapedImage? ==> (r.value.image.withWcs <==> field.isRegular)
  {
    var tree := MakeTree("field", field.dict);
    if field.isRegular && !field.isSeparated then
      Failure(IndexError("list index out of range"))
    else if field.isSeparated then
      Success(WriteAsdfInFits(filename, tree.(valuesInImage := true), ShapedImage(field.isRegular), overwrite))
    else
      Success(WriteAsdfInFits(filename, tree, NoImage, overwrite))
  }

  /** `write_field`: the field tree is written as a plain ASDF file or through `WriteFieldFits`. */
  function WriteField<D>(field: FieldInfo<D>, filename: string, fmt: Option<string>, overwrite: bool): (r: Result<Effect<D>, IoError>)
    ensures ResolveFormat(filename, fmt).Failure? ==> r == Failure(ResolveFormat(filename, fmt).error)
    ensures ResolveFormat(filename, fmt).Success? ==>
      var f := ResolveFormat(filename, fmt).value;
      && (f == AsdfFormat ==> r == Success(WriteAsdfFile(filename, MakeTree("field", field.dict))))
      && (f == FitsFormat ==> r == WriteFieldFits(field, filename, overwrite))
      && (!Supported(f) ==> r == Failure(NotImplementedError(FormatNotImplemented)))
  {
    match ResolveFormat(filename, fmt)
    case Failure(e) => Failure(e)
    case Success(f) =>
      if f == AsdfFormat then Success(WriteAsdfFile(filename, MakeTree("field", field.dict)))
      else if f == FitsFormat then WriteFieldFits(field, filename, overwrite)
      else Failure(NotImplementedError(FormatNotImplemented))
  }

  // ---------------------------------------------------------------------------
  // write_fits

  /** What `write_fits` is given: an array, or a field whose grid may be separated. */
  datatype FitsData = Array | FieldData(isSeparated: bool)

  /** The array stored in the primary HDU. */
  datatype Payload = Reshaped(shape: seq<int>) | ShapedView | RawData

  /** The single FITS write `write_fits` performs. */
  datatype FitsWrite = FitsWrite(filename: string, payload: Payload, overwrite: bool)

  /**
   * `write_fits`: a given shape wins; otherwise a field on a separated grid is written in
   * its shaped form; otherwise the data is written as it is. The file is always overwritten,
   * whatever `overwrite` says.
   */
  function WriteFits(data: FitsData, filename: string, shape: Option<seq<int>>, overwrite: bool): (w: FitsWrite)
    ensures w.filename == filename && w.overwrite
    ensures shape.Some? ==> w.payload == Reshaped(shape.value)
    ensures shape.None? ==> (w.payload == ShapedView <==> data.FieldData? && data.isSeparated)
    ensures shape.None? ==> (w.payload == RawData <==> !(data.FieldData? && data.isSeparated))
  {
    var payload :=
      if shape.Some? then Reshaped(shape.value)
      else if data.FieldData? && data.isSeparated then ShapedView
      else RawData;
    FitsWrite(filename, payload, true)
  }

  /**
   * The documented behaviour of `write_fits`: the same payload, but an existing file is
   * overwritten only when `overwrite` asks for it.
   */
  function WriteFitsHonouringOverwrite(data: FitsData, filename: string, shape: Option<seq<int>>, overwrite: bool): (w: FitsWrite)
    ensures w.filename == filename && w.overwrite == overwrite
    ensures w.payload == WriteFits(data, filename, shape, overwrite).payload
  {
    WriteFits(data, filename, shape, overwrite).(overwrite := overwrite)
  }

  /** Asked not to overwrite, `write_fits` as written still overwrites an existing file. */
  lemma WriteFitsOverwritesWhenAskedNotTo()
    ensures WriteFits(Array, "psf.fits", None, false).overwrite
    ensures !WriteFitsHonouringOverwrite(Array, "psf.fits", None, false).overwrite
  {
  }

  // ---------------------------------------------------------------------------
  // Properties across the entry points

  /** The error an entry point raises for a resolved format, or none. */
  function ExpectedError(filename: string, fmt: Option<string>): Option<IoError>
  {
    match ResolveFormat(filename, fmt)
    case Failure(e) => Some(e)
    case Success(f) => if Supported(f) then None else Some(NotImplementedError(FormatNotImplemented))
  }

  /**
   * All four entry points fail alike: with a `ValueError` exactly when no format is given
   * and none can be guessed, with a `NotImplementedError` exactly when the resolved format
   * is neither asdf nor fits, and otherwise not at all (except for the FITS branch of
   * `write_field` on a regular grid that is not separated).
   */
  lemma EntryPointsShareResolution<D>(grid: D, field: FieldInfo<D>, filename: string, fmt: Option<string>, overwrite: bool)
    ensures ReadGrid(filename, fmt).Failure? <==> ExpectedError(filename, fmt).Some?
    ensures ReadField(filename, fmt).Failure? <==> ExpectedError(filename, fmt).Some?
    ensures WriteGrid(grid, filename, fmt, overwrite).Failure? <==> ExpectedError(filename, fmt).Some?
    ensures ExpectedError(filename, fmt).Some? ==>
      && ReadGrid(filename, fmt).error == ExpectedError(filename, fmt).value
      && ReadField(filename, fmt).error == ExpectedError(filename, fmt).value
      && WriteGrid(grid, filename, fmt, overwrite).error == ExpectedError(filename, fmt).value
      && WriteField(field, filename, fmt, overwrite).Failure?
      && WriteField(field, filename, fmt, overwrite).error == ExpectedError(filename, fmt).value
    ensures WriteField(field, filename, fmt, overwrite).Failure? <==>
      || ExpectedError(filename, fmt).Some?
      || (ResolveFormat(filename, fmt) == Success(FitsFormat) && field.isRegular && !field.isSeparated)
  {
  }

  /** An explicit format is used as given: the file name plays no part in choosing the branch. */
  lemma ExplicitFormatSkipsGuessing<D>(grid: D, field: FieldInfo<D>, name1: string, name2: string, fmt: string, overwrite: bool)
    ensures ReadGrid(name1, Some(fmt)).Failure? == ReadGrid(name2, Some(fmt)).Failure?
    ensures ReadField(name1, Some(fmt)).Failure? == ReadField(name2, Some(fmt)).Failure?
    ensures WriteGrid(grid, name1, Some(fmt), overwrite).Failure? == WriteGrid(grid, name2, Some(fmt), overwrite).Failure?
    ensures WriteField(field, name1, Some(fmt), overwrite).Failure? == WriteField(field, name2, Some(fmt), overwrite).Failure?
  {
  }

  /** A name that gives no guess fails with the `ValueError` in every entry point when no format is given. */
  lemma UnguessableFailsWithValueError<D>(grid: D, field: FieldInfo<D>, filename: string, overwrite: bool)
    requires GuessFileFormat(filename).None?
    ensures ReadGrid(filename, None) == Failure(ValueError(FormatNotGuessed))
    ensures ReadField(filename, None) == Failure(ValueError(FormatNotGuessed))
    ensures WriteGrid(grid, filename, None, overwrite) == Failure(ValueError(FormatNotGuessed))
    ensures WriteField(field, filename, None, overwrite) == Failure(ValueError(FormatNotGuessed))
  {
  }

  /** A guessed format is always one the entry points handle: guessing never leads to `NotImplementedError`. */
  lemma GuessedFormatNeverUnimplemented<D>(grid: D, field: FieldInfo<D>, filename: string, overwrite: bool)
    ensures !(ReadGrid(filename, None).Failure? && ReadGrid(filename, None).error.NotImplementedError?)
    ensures !(ReadField(filename, None).Failure? && ReadField(filename, None).error.NotImplementedError?)
    ensures !(WriteGrid(grid, filename, None, overwrite).Failure?
              && WriteGrid(grid, filename, None, overwrite).error.NotImplementedError?)
    ensures !(WriteField(field, filename, None, overwrite).Failure?
              && WriteField(field, filename, None, overwrite).error.NotImplementedError?)
  {
  }

  /** `read_grid` does the same for asdf and fits, and for a name whichever of the two it guesses. */
  lemma ReadGridFormatsAgree(filename: string)
    ensures ReadGrid(filename, Some(AsdfFormat)) == ReadGrid(filename, Some(FitsFormat))
    ensures GuessFileFormat(filename).Some? ==> ReadGrid(filename, None) == ReadGrid(filename, Some(AsdfFormat))
  {
  }

  /** `read_field` differs between the two formats only in flattening the field read from FITS. */
  lemma ReadFieldRavelsOnlyFits(filename: string)
    ensures ReadField(filename, Some(AsdfFormat)) == Success(ReadTree(filename, "field", false))
    ensures ReadField(filename, Some(FitsFormat)) == Success(ReadTree(filename, "field", true))
  {
  }

  /** Every tree a writer produces is tagged with the kind of object it holds and stores it under that key. */
  lemma WritersTagFileType<D>(grid: D, field: FieldInfo<D>, filename: string, fmt: Option<string>, overwrite: bool)
    ensures WriteGrid(grid, filename, fmt, overwrite).Success? ==>
      && WriteGrid(grid, filename, fmt, overwrite).value.tree.fileType == "grid"
      && WriteGrid(grid, filename, fmt, overwrite).value.tree.key == "grid"
      && WriteGrid(grid, filename, fmt, overwrite).value.tree.content == grid
    ensures WriteField(field, filename, fmt, overwrite).Success? ==>
      && WriteField(field, filename, fmt, overwrite).value.tree.fileType == "field"
      && WriteField(field, filename, fmt, overwrite).value.tree.key == "field"
      && WriteField(field, filename, fmt, overwrite).value.tree.content == field.dict
  {
  }

  /**
   * `overwrite` reaches only the ASDF-in-FITS writes: the plain ASDF writes do not take it
   * and `write_fits` ignores it.
   */
  lemma OverwriteIgnoredOutsideAsdfInFits<D>(grid: D, field: FieldInfo<D>, data: FitsData, filename: string, shape: Option<seq<int>>)
    ensures WriteGrid(grid, filename, Some(AsdfFormat), true) == WriteGrid(grid, filename, Some(AsdfFormat), false)
    ensures WriteField(field, filename, Some(AsdfFormat), true) == WriteField(field, filename, Some(AsdfFormat), false)
    ensures WriteFits(data, filename, shape, true) == WriteFits(data, filename, shape, false)
    ensures WriteGrid(grid, filename, Some(FitsFormat), false).value.overwrite == false
  {
  }
}
