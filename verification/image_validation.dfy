/**
 * The image parameter type: its constraints, the choice of a format among the
 * configured ones, the dimension and size checks, the ordered validation of a
 * value, the structure check of a task's image output, and the records kept
 * for provisioned inputs and produced outputs.
 *
 * What the model cannot see comes in through `Foreign`: the JPEG, PNG, TIFF
 * and generic formats, the dataset readers behind `getDimensions`, the size
 * unit parser, the directory walk, the zip reader, the unzip, and the file
 * system that resolves a path.
 */
module ImageValidation {
  import opened Wrappers
  import Text
  import Json
  import opened ErrorCodes
  import opened TaskTypes
  import opened ImageFormats
  import opened BatchProvisioning

  /** The constraint keys of an image parameter; any other key is ignored. */
  datatype ImageConstraint = FORMATS | MAX_FILE_SIZE | MAX_WIDTH | MAX_HEIGHT | OtherImageConstraint(name: string)

  /** `setConstraint`: the formats are the list parsed from the value's JSON
      text (`parse` is the type's list parser), the file size is the value's
      text, the bounds are its `asInt()`, with text that is not a decimal
      `int` going through the JDK's double parser; nothing else changes. */
  function SetImageConstraint(c: ImageConstraints, constraint: ImageConstraint, value: Json.Json,
                              parse: string -> seq<string>, parseDouble: Json.DoubleParser): (r: ImageConstraints)
    ensures constraint == FORMATS ==> r.formats == Some(parse(Json.Serialize(value)))
    ensures constraint == MAX_FILE_SIZE ==> r.maxFileSize == Some(Json.AsText(value))
    ensures constraint == MAX_WIDTH ==> r.maxWidth == Some(Json.AsInt(value, parseDouble))
    ensures constraint == MAX_HEIGHT ==> r.maxHeight == Some(Json.AsInt(value, parseDouble))
    ensures constraint != FORMATS ==> r.formats == c.formats
    ensures constraint != MAX_FILE_SIZE ==> r.maxFileSize == c.maxFileSize
    ensures constraint != MAX_WIDTH ==> r.maxWidth == c.maxWidth
    ensures constraint != MAX_HEIGHT ==> r.maxHeight == c.maxHeight
  {
    match constraint
    case FORMATS => c.(formats := Some(parse(Json.Serialize(value))))
    case MAX_FILE_SIZE => c.(maxFileSize := Some(Json.AsText(value)))
    case MAX_WIDTH => c.(maxWidth := Some(Json.AsInt(value, parseDouble)))
    case MAX_HEIGHT => c.(maxHeight := Some(Json.AsInt(value, parseDouble)))
    case OtherImageConstraint(_) => c
  }

  /** `hasConstraint`: the field of the key is set. */
  function HasConstraint(c: ImageConstraints, constraint: ImageConstraint): (r: bool)
    ensures constraint.OtherImageConstraint? ==> !r
  {
    match constraint
    case FORMATS => c.formats.Some?
    case MAX_FILE_SIZE => c.maxFileSize.Some?
    case MAX_WIDTH => c.maxWidth.Some?
    case MAX_HEIGHT => c.maxHeight.Some?
    case OtherImageConstraint(_) => false
  }

  /** A known constraint is present once it is given, and setting one key leaves
      the presence of every other key as it was. */
  lemma SetThenHas(c: ImageConstraints, given: ImageConstraint, asked: ImageConstraint, value: Json.Json,
                   parse: string -> seq<string>, parseDouble: Json.DoubleParser)
    ensures !given.OtherImageConstraint? ==> HasConstraint(SetImageConstraint(c, given, value, parse, parseDouble), given)
    ensures asked != given ==> HasConstraint(SetImageConstraint(c, given, value, parse, parseDouble), asked) == HasConstraint(c, asked)
  {
  }

  // ---------------------------------------------------------------- collaborators

  /** The behaviour outside the model, as functions of their inputs. */
  datatype Foreign = Foreign(
    signature: (Format, FileNode) -> bool,
    dimensions: (Format, FileNode) -> Option<(int, int)>,
    accepts: (Format, FileNode) -> bool,
    unitBytes: string -> Option<int>,
    walk: FileNode -> Option<seq<FileNode>>,
    zipEntries: FileNode -> Option<seq<seq<bv8>>>,
    unzip: FileNode -> Option<FormatFault>,
    resolve: string -> FileNode)

  /** `checkSignature` of a format: the modelled checks for DICOM and WSI
      DICOM, the foreign ones for the rest. */
  function Signature(f: Format, file: FileNode, foreign: Foreign): bool {
    match f
    case DICOM => DicomSignature(file)
    case WSIDICOM => WsiDicomSignature(file)
    case _ => foreign.signature(f, file)
  }

  /** `validate` of a format: always true for DICOM and WSI DICOM. */
  function Accepts(f: Format, file: FileNode, foreign: Foreign): bool {
    match f
    case DICOM => true
    case WSIDICOM => true
    case _ => foreign.accepts(f, file)
  }

  // ---------------------------------------------------------------- format choice

  /** The first `k` configured names are registered formats whose signature
      the file does not carry. */
  predicate Passed(names: seq<string>, k: nat, file: FileNode, foreign: Foreign)
    requires k <= |names|
  {
    forall j :: 0 <= j < k ==> GetFormat(names[j]).Some? && !Signature(GetFormat(names[j]).value, file, foreign)
  }

  lemma PassedStep(names: seq<string>, k: nat, file: FileNode, foreign: Foreign)
    requires 0 < |names| && k < |names|
    requires GetFormat(names[0]).Some? && !Signature(GetFormat(names[0]).value, file, foreign)
    ensures Passed(names, k + 1, file, foreign) <==> Passed(names[1..], k, file, foreign)
  {
    assert forall j :: 1 <= j <= k ==> names[j] == names[1..][j - 1];
    if Passed(names[1..], k, file, foreign) {
      forall j | 0 <= j < k + 1
        ensures GetFormat(names[j]).Some? && !Signature(GetFormat(names[j]).value, file, foreign)
      {
        if j > 0 { assert names[j] == names[1..][j - 1]; }
      }
    }
  }

  /** The lazy stream of `validateImageFormat`: the names are looked up in
      order and the first format whose signature matches is chosen. A name
      the registry lacks maps to null, which throws once the filter reaches
      it; nothing after the chosen format is looked at. */
  function SelectFrom(names: seq<string>, file: FileNode, foreign: Foreign): (r: Result<Format, FormatFault>)
    ensures r.Success? ==> exists k :: (0 <= k < |names| && Passed(names, k, file, foreign)
      && GetFormat(names[k]) == Some(r.value) && Signature(r.value, file, foreign))
    ensures r == Failure(Coded(INTERNAL_PARAMETER_INVALID_IMAGE_FORMAT)) <==> Passed(names, |names|, file, foreign)
    ensures r == Failure(Crash) <==>
      exists k :: 0 <= k < |names| && Passed(names, k, file, foreign) && GetFormat(names[k]).None?
    ensures r.Failure? ==> r.error in {Crash, Coded(INTERNAL_PARAMETER_INVALID_IMAGE_FORMAT)}
    decreases |names|
  {
    if names == [] then Failure(Coded(INTERNAL_PARAMETER_INVALID_IMAGE_FORMAT))
    else
      match GetFormat(names[0])
      case None =>
        assert Passed(names, 0, file, foreign);
        assert !Passed(names, |names|, file, foreign);
        Failure(Crash)
      case Some(f) =>
        if Signature(f, file, foreign) then
          assert Passed(names, 0, file, foreign);
          assert !Passed(names, |names|, file, foreign);
          assert forall k :: 0 < k <= |names| ==> !Passed(names, k, file, foreign);
          Success(f)
        else
          var r := SelectFrom(names[1..], file, foreign);
          TailSelection(names, file, foreign, r);
          r
  }

  /** When the first name is passed over, what the rest of the names select
      is what all of them select: its position, in the whole list, is one
      further on. */
  lemma TailSelection(names: seq<string>, file: FileNode, foreign: Foreign, r: Result<Format, FormatFault>)
    requires names != [] && GetFormat(names[0]).Some? && !Signature(GetFormat(names[0]).value, file, foreign)
    requires r.Success? ==> exists k :: (0 <= k < |names[1..]| && Passed(names[1..], k, file, foreign)
      && GetFormat(names[1..][k]) == Some(r.value) && Signature(r.value, file, foreign))
    requires r == Failure(Coded(INTERNAL_PARAMETER_INVALID_IMAGE_FORMAT)) <==> Passed(names[1..], |names[1..]|, file, foreign)
    requires r == Failure(Crash) <==>
      exists k :: 0 <= k < |names[1..]| && Passed(names[1..], k, file, foreign) && GetFormat(names[1..][k]).None?
    ensures r.Success? ==> exists k :: (0 <= k < |names| && Passed(names, k, file, foreign)
      && GetFormat(names[k]) == Some(r.value) && Signature(r.value, file, foreign))
    ensures r == Failure(Coded(INTERNAL_PARAMETER_INVALID_IMAGE_FORMAT)) <==> Passed(names, |names|, file, foreign)
    ensures r == Failure(Crash) <==>
      exists k :: 0 <= k < |names| && Passed(names, k, file, foreign) && GetFormat(names[k]).None?
  {
    PassedStep(names, |names| - 1, file, foreign);
    if r.Success? {
      var k :| 0 <= k < |names[1..]| && Passed(names[1..], k, file, foreign)
        && GetFormat(names[1..][k]) == Some(r.value) && Signature(r.value, file, foreign);
      PassedStep(names, k, file, foreign);
      assert names[k + 1] == names[1..][k];
    }
    if r == Failure(Crash) {
      var k :| 0 <= k < |names[1..]| && Passed(names[1..], k, file, foreign) && GetFormat(names[1..][k]).None?;
      PassedStep(names, k, file, foreign);
      assert names[k + 1] == names[1..][k];
    }
    if exists k :: 0 <= k < |names| && Passed(names, k, file, foreign) && GetFormat(names[k]).None? {
      var k :| 0 <= k < |names| && Passed(names, k, file, foreign) && GetFormat(names[k]).None?;
      assert k != 0;
      PassedStep(names, k - 1, file, foreign);
      assert names[1..][k - 1] == names[k];
    }
  }

  /** `validateImageFormat`: without configured formats the generic one is
      taken; otherwise the choice among the configured names. */
  function SelectFormat(formats: Option<seq<string>>, file: FileNode, foreign: Foreign): (r: Result<Format, FormatFault>)
    ensures formats.None? || formats == Some([]) ==> r == Success(GENERIC)
    ensures formats.Some? && formats.value != [] ==> r == SelectFrom(formats.value, file, foreign)
  {
    if formats.None? || formats.value == [] then Success(GENERIC)
    else SelectFrom(formats.value, file, foreign)
  }

  lemma UpperOfLower(s: string)
    ensures Text.ToUpper(Text.ToLower(s)) == Text.ToUpper(s)
  {
    var a := Text.ToUpper(Text.ToLower(s));
    var b := Text.ToUpper(s);
    forall i | 0 <= i < |s| ensures a[i] == b[i] {
      assert Text.ToLower(s)[i] == Text.ToLowerChar(s[i]);
    }
  }

  /** The configured names may be written in any case: lower-casing all of
      them chooses the same format, or fails the same way. */
  lemma {:induction false} SelectIgnoresCase(names: seq<string>, file: FileNode, foreign: Foreign)
    ensures SelectFrom(seq(|names|, i requires 0 <= i < |names| => Text.ToLower(names[i])), file, foreign)
         == SelectFrom(names, file, foreign)
    decreases |names|
  {
    var lowered := seq(|names|, i requires 0 <= i < |names| => Text.ToLower(names[i]));
    if names != [] {
      UpperOfLower(names[0]);
      assert GetFormat(lowered[0]) == GetFormat(names[0]);
      var rest := seq(|names[1..]|, i requires 0 <= i < |names[1..]| => Text.ToLower(names[1..][i]));
      assert lowered[1..] == rest;
      SelectIgnoresCase(names[1..], file, foreign);
      SelectFromCons(lowered, file, foreign);
      SelectFromCons(names, file, foreign);
    }
  }

  /** One step of the filter: the first name decides or passes on. */
  lemma SelectFromCons(names: seq<string>, file: FileNode, foreign: Foreign)
    requires names != []
    ensures SelectFrom(names, file, foreign) ==
      match GetFormat(names[0])
      case None => Failure(Crash)
      case Some(f) => if Signature(f, file, foreign) then Success(f) else SelectFrom(names[1..], file, foreign)
  {
  }

  // ---------------------------------------------------------------- dimension and size

  /** Keeps the regular files of a walk, in walk order. */
  function RegularFiles(entries: seq<FileNode>): (r: seq<FileNode>)
    ensures forall i :: 0 <= i < |r| ==> r[i].RegularFile? && r[i] in entries
    ensures forall i :: 0 <= i < |entries| && entries[i].RegularFile? ==> entries[i] in r
  {
    if entries == [] then []
    else
      var rest := RegularFiles(entries[1..]);
      assert forall i :: 1 <= i < |entries| ==> entries[i] == entries[1..][i - 1];
      if entries[0].RegularFile? then [entries[0]] + rest else rest
  }

  /** `Stream.max` by length: the first of the longest files, None when there
      are none. */
  function Largest(files: seq<FileNode>): (r: Option<FileNode>)
    ensures r.None? <==> files == []
    ensures r.Some? ==> r.value in files
    ensures r.Some? ==> forall i :: 0 <= i < |files| ==> Length(files[i]) <= Length(r.value)
    ensures r.Some? ==> exists k :: (0 <= k < |files| && files[k] == r.value
      && forall j :: 0 <= j < k ==> Length(files[j]) < Length(r.value))
    decreases |files|
  {
    if files == [] then None
    else
      var init := files[..|files| - 1];
      var last := files[|files| - 1];
      match Largest(init)
      case None => Some(last)
      case Some(m) =>
        assert forall i :: 0 <= i < |init| ==> init[i] == files[i];
        if Length(m) >= Length(last) then Some(m) else Some(last)
  }

  /** `getBaselineImage`: for WSI DICOM the longest regular file under the
      directory (None when there is none), a failing walk being
      BASELINE_IMAGE_FAILED; for every other format the file itself. */
  function Baseline(f: Format, file: FileNode, foreign: Foreign): (r: Result<Option<FileNode>, FormatFault>)
    ensures f != WSIDICOM ==> r == Success(Some(file))
    ensures f == WSIDICOM && foreign.walk(file).None? ==> r == Failure(Coded(INTERNAL_PARAMETER_BASELINE_IMAGE_FAILED))
    ensures f == WSIDICOM && foreign.walk(file).Some? ==> (r.Success? &&
      (r.value.None? <==> forall i :: 0 <= i < |foreign.walk(file).value| ==> !foreign.walk(file).value[i].RegularFile?))
    ensures r.Success? && r.value.Some? && f == WSIDICOM ==>
      r.value.value.RegularFile? && r.value.value in foreign.walk(file).value
  {
    if f != WSIDICOM then Success(Some(file))
    else
      match foreign.walk(file)
      case None => Failure(Coded(INTERNAL_PARAMETER_BASELINE_IMAGE_FAILED))
      case Some(entries) =>
        var regular := RegularFiles(entries);
        var b := Largest(regular);
        assert b.None? ==> forall i :: 0 <= i < |entries| ==> !entries[i].RegularFile?;
        assert b.Some? ==> b.value.RegularFile? && b.value in entries by {
          if b.Some? {
            var k :| 0 <= k < |regular| && regular[k] == b.value;
          }
        }
        Success(b)
  }

  /** `validateImageDimension`: skipped when neither bound is set; otherwise
      the baseline's dimensions must be known, then the width is checked,
      then the height. A WSI DICOM without any file reaches the reader with
      null, which throws. */
  function DimensionCheck(c: ImageConstraints, f: Format, file: FileNode, foreign: Foreign): (r: Option<FormatFault>)
    ensures c.maxWidth.None? && c.maxHeight.None? ==> r.None?
    ensures (c.maxWidth.Some? || c.maxHeight.Some?) && Baseline(f, file, foreign).Failure? ==>
      r == Some(Baseline(f, file, foreign).error)
    ensures (c.maxWidth.Some? || c.maxHeight.Some?) && Baseline(f, file, foreign) == Success(Some(file)) ==>
      (foreign.dimensions(f, file).None? ==> r == Some(Coded(INTERNAL_PARAMETER_INVALID_IMAGE_DIMENSION)))
      && (foreign.dimensions(f, file).Some? ==>
        var (w, h) := foreign.dimensions(f, file).value;
        (r == Some(Coded(INTERNAL_PARAMETER_INVALID_IMAGE_WIDTH)) <==> c.maxWidth.Some? && w > c.maxWidth.value)
        && (r == Some(Coded(INTERNAL_PARAMETER_INVALID_IMAGE_HEIGHT)) <==>
          !(c.maxWidth.Some? && w > c.maxWidth.value) && c.maxHeight.Some? && h > c.maxHeight.value)
        && (r.None? <==> (c.maxWidth.None? || w <= c.maxWidth.value) && (c.maxHeight.None? || h <= c.maxHeight.value)))
  {
    if c.maxWidth.None? && c.maxHeight.None? then None
    else
      match Baseline(f, file, foreign)
      case Failure(e) => Some(e)
      case Success(None) => Some(Crash)
      case Success(Some(b)) =>
        match foreign.dimensions(f, b)
        case None => Some(Coded(INTERNAL_PARAMETER_INVALID_IMAGE_DIMENSION))
        case Some((w, h)) =>
          if c.maxWidth.Some? && w > c.maxWidth.value then Some(Coded(INTERNAL_PARAMETER_INVALID_IMAGE_WIDTH))
          else if c.maxHeight.Some? && h > c.maxHeight.value then Some(Coded(INTERNAL_PARAMETER_INVALID_IMAGE_HEIGHT))
          else None
  }

  /** `validateImageSize`: skipped without a maximum size; otherwise the
      baseline is found first, then the size text must parse, then the
      baseline's length must not exceed it. */
  function SizeCheck(c: ImageConstraints, f: Format, file: FileNode, foreign: Foreign): (r: Option<FormatFault>)
    ensures c.maxFileSize.None? ==> r.None?
    ensures c.maxFileSize.Some? && Baseline(f, file, foreign).Failure? ==> r == Some(Baseline(f, file, foreign).error)
    ensures c.maxFileSize.Some? && Baseline(f, file, foreign).Success? && foreign.unitBytes(c.maxFileSize.value).None? ==>
      r == Some(Coded(INTERNAL_PARAMETER_INVALID_IMAGE_SIZE_FORMAT))
    ensures (c.maxFileSize.Some? && Baseline(f, file, foreign) == Success(Some(file))
      && foreign.unitBytes(c.maxFileSize.value).Some?) ==>
      (r.None? <==> Length(file) <= foreign.unitBytes(c.maxFileSize.value).value)
      && (r.Some? ==> r == Some(Coded(INTERNAL_PARAMETER_INVALID_IMAGE_SIZE)))
  {
    if c.maxFileSize.None? then None
    else
      match Baseline(f, file, foreign)
      case Failure(e) => Some(e)
      case Success(b) =>
        match foreign.unitBytes(c.maxFileSize.value)
        case None => Some(Coded(INTERNAL_PARAMETER_INVALID_IMAGE_SIZE_FORMAT))
        case Some(bytes) =>
          if b.None? then Some(Crash)
          else if Length(b.value) > bytes then Some(Coded(INTERNAL_PARAMETER_INVALID_IMAGE_SIZE))
          else None
  }

  // ---------------------------------------------------------------- validate

  /** The value handed to `validate`: a file, a path string, or anything else. */
  datatype ImageValue = FileValue(file: FileNode) | PathValue(reference: string) | OtherValue

  /** The checks on a resolved file. A zip archive is taken for a zipped WSI
      DICOM: every entry's header is checked, with the corrected check
      `HeaderCheck` rather than the as-written one, then it is unzipped in
      place.
      Any other file goes through format, dimension, size and the format's
      own validation, in that order, the first failure winning. */
  function CheckFile(c: ImageConstraints, file: FileNode, foreign: Foreign): (r: Option<FormatFault>)
    ensures ZipSignature(file) ==>
      (r.None? <==> (foreign.zipEntries(file).Some?
        && (forall i :: 0 <= i < |foreign.zipEntries(file).value| ==> HeaderCheck(foreign.zipEntries(file).value[i]).None?)
        && foreign.unzip(file).None?))
    ensures ZipSignature(file) && foreign.zipEntries(file).None? ==> r == Some(Coded(INTERNAL_PARAMETER_TYPE_ERROR))
    ensures !ZipSignature(file) && SelectFormat(c.formats, file, foreign).Failure? ==>
      r == Some(SelectFormat(c.formats, file, foreign).error)
    ensures !ZipSignature(file) && SelectFormat(c.formats, file, foreign).Success? ==>
      var f := SelectFormat(c.formats, file, foreign).value;
      (DimensionCheck(c, f, file, foreign).Some? ==> r == DimensionCheck(c, f, file, foreign))
      && (DimensionCheck(c, f, file, foreign).None? && SizeCheck(c, f, file, foreign).Some? ==> r == SizeCheck(c, f, file, foreign))
      && (r.None? <==> DimensionCheck(c, f, file, foreign).None? && SizeCheck(c, f, file, foreign).None? && Accepts(f, file, foreign))
  {
    if ZipSignature(file) then
      match ZippedWsiDicom(foreign.zipEntries(file), HeaderCheck)
      case Some(e) => Some(e)
      case None => foreign.unzip(file)
    else
      match SelectFormat(c.formats, file, foreign)
      case Failure(e) => Some(e)
      case Success(f) =>
        match DimensionCheck(c, f, file, foreign)
        case Some(e) => Some(e)
        case None =>
          match SizeCheck(c, f, file, foreign)
          case Some(e) => Some(e)
          case None => if Accepts(f, file, foreign) then None else Some(Coded(INTERNAL_PARAMETER_INVALID_IMAGE))
  }

  /** `validate`: a file is checked as it is; a path must be absolute and name
      a regular file; any other value is a TYPE_ERROR. */
  function Validate(c: ImageConstraints, value: ImageValue, foreign: Foreign): (r: Option<FormatFault>)
    ensures value.OtherValue? ==> r == Some(Coded(INTERNAL_PARAMETER_TYPE_ERROR))
    ensures value.PathValue? && !(Text.StartsWith(value.reference, "/") && foreign.resolve(value.reference).RegularFile?) ==>
      r == Some(Coded(INTERNAL_PARAMETER_TYPE_ERROR))
    ensures value.PathValue? && Text.StartsWith(value.reference, "/") && foreign.resolve(value.reference).RegularFile? ==>
      r == CheckFile(c, foreign.resolve(value.reference), foreign)
    ensures value.FileValue? ==> r == CheckFile(c, value.file, foreign)
  {
    match value
    case OtherValue => Some(Coded(INTERNAL_PARAMETER_TYPE_ERROR))
    case PathValue(reference) =>
      if !Text.StartsWith(reference, "/") || !foreign.resolve(reference).RegularFile? then
        Some(Coded(INTERNAL_PARAMETER_TYPE_ERROR))
      else CheckFile(c, foreign.resolve(reference), foreign)
    case FileValue(file) => CheckFile(c, file, foreign)
  }

  /** The format comes first: a file none of whose configured formats it
      carries is refused as INVALID_IMAGE_FORMAT whatever its dimensions and
      size, and the dimension and size checks are never reached. */
  lemma FormatCheckedFirst(c: ImageConstraints, file: FileNode, foreign: Foreign)
    requires !ZipSignature(file) && c.formats.Some? && c.formats.value != []
    requires forall j :: 0 <= j < |c.formats.value| ==> (GetFormat(c.formats.value[j]).Some?
      && !Signature(GetFormat(c.formats.value[j]).value, file, foreign))
    ensures CheckFile(c, file, foreign) == Some(Coded(INTERNAL_PARAMETER_INVALID_IMAGE_FORMAT))
  {
    assert Passed(c.formats.value, |c.formats.value|, file, foreign);
  }

  /** An image type with no constraint accepts any non-zip file the generic
      format accepts. */
  lemma UnconstrainedImageAccepted(file: FileNode, foreign: Foreign)
    requires !ZipSignature(file) && foreign.accepts(GENERIC, file)
    ensures CheckFile(ImageConstraints(None, None, None, None), file, foreign).None?
  {
  }

  // ---------------------------------------------------------------- outputs

  /** The first entry of a run's output storage data: its file, whether it
      is a DIRECTORY entry, and where it is stored. */
  datatype OutputEntry = OutputEntry(data: FileNode, directoryEntry: bool, storageId: string, name: string)

  /** The output to validate: a stored directory, named by its path, or the
      entry's own file. */
  datatype OutputFile = StoredDirectory(path: string) | OutputData(file: FileNode)

  /** `getDirectoryIfStructureIsValid`: a DIRECTORY entry is located under the
      storage base path and passes without further checks; a file entry must
      exist, must not be a directory, and must be the only entry. */
  function OutputFileOf(entries: seq<OutputEntry>, basePath: string): (r: Result<OutputFile, ErrorCode>)
    requires |entries| > 0
    ensures entries[0].directoryEntry ==>
      r == Success(StoredDirectory(basePath + "/" + entries[0].storageId + "/" + entries[0].name))
    ensures !entries[0].directoryEntry ==>
      (r == Failure(INTERNAL_MISSING_OUTPUT_FILE_FOR_PARAMETER) <==> entries[0].data.Missing?)
      && (r == Failure(INTERNAL_OUTPUT_FILE_FOR_PARAMETER_IS_DIRECTORY) <==> entries[0].data.Directory?)
      && (r == Failure(INTERNAL_EXTRA_OUTPUT_FILES_FOR_PARAMETER) <==> entries[0].data.RegularFile? && |entries| > 1)
      && (r.Success? <==> entries[0].data.RegularFile? && |entries| == 1)
      && (r.Success? ==> r.value == OutputData(entries[0].data))
  {
    var first := entries[0];
    if first.directoryEntry then Success(StoredDirectory(basePath + "/" + first.storageId + "/" + first.name))
    else if first.data.Missing? then Failure(INTERNAL_MISSING_OUTPUT_FILE_FOR_PARAMETER)
    else if first.data.Directory? then Failure(INTERNAL_OUTPUT_FILE_FOR_PARAMETER_IS_DIRECTORY)
    else if |entries| > 1 then Failure(INTERNAL_EXTRA_OUTPUT_FILES_FOR_PARAMETER)
    else Success(OutputData(first.data))
  }

  /** `validateFiles`: the structure check, then `validate` on the file it
      yields; a stored directory is resolved through the file system. */
  function ValidateOutput(c: ImageConstraints, entries: seq<OutputEntry>, basePath: string, foreign: Foreign): (r: Option<FormatFault>)
    requires |entries| > 0
    ensures OutputFileOf(entries, basePath).Failure? ==> r == Some(Coded(OutputFileOf(entries, basePath).error))
    ensures OutputFileOf(entries, basePath) == Success(OutputData(entries[0].data)) ==> r == CheckFile(c, entries[0].data, foreign)
    ensures entries[0].directoryEntry ==>
      r == CheckFile(c, foreign.resolve(basePath + "/" + entries[0].storageId + "/" + entries[0].name), foreign)
  {
    match OutputFileOf(entries, basePath)
    case Failure(e) => Some(Coded(e))
    case Success(StoredDirectory(path)) => CheckFile(c, foreign.resolve(path), foreign)
    case Success(OutputData(file)) => CheckFile(c, file, foreign)
  }

  // ---------------------------------------------------------------- persistence

  /** A row of the image persistence table. */
  datatype ImageRecord = ImageRecord(name: string, runId: string, kind: ParameterKind, provisioned: bool)

  /** The repository finds a row for (name, run, kind). */
  predicate Recorded(store: seq<ImageRecord>, name: string, runId: string, kind: ParameterKind) {
    exists i :: 0 <= i < |store| && store[i].name == name && store[i].runId == runId && store[i].kind == kind
  }

  /** `persistProvision`: nothing is saved when the input already has a row;
      otherwise one provisioned INPUT row is added. */
  function PersistProvision(store: seq<ImageRecord>, name: string, runId: string): (r: seq<ImageRecord>)
    ensures store <= r && |r| <= |store| + 1
    ensures Recorded(r, name, runId, INPUT)
    ensures Recorded(store, name, runId, INPUT) ==> r == store
    ensures !Recorded(store, name, runId, INPUT) ==> r[|store|..] == [ImageRecord(name, runId, INPUT, true)]
  {
    if Recorded(store, name, runId, INPUT) then store
    else
      var r := store + [ImageRecord(name, runId, INPUT, true)];
      assert r[|store|].name == name;
      r
  }

  /** `persistResult`: the same for an OUTPUT row, which is not marked
      provisioned. */
  function PersistResult(store: seq<ImageRecord>, name: string, runId: string): (r: seq<ImageRecord>)
    ensures store <= r && |r| <= |store| + 1
    ensures Recorded(r, name, runId, OUTPUT)
    ensures Recorded(store, name, runId, OUTPUT) ==> r == store
    ensures !Recorded(store, name, runId, OUTPUT) ==> r[|store|..] == [ImageRecord(name, runId, OUTPUT, false)]
  {
    if Recorded(store, name, runId, OUTPUT) then store
    else
      var r := store + [ImageRecord(name, runId, OUTPUT, false)];
      assert r[|store|].name == name;
      r
  }

  /** Provisioning the same image input twice keeps one row. */
  lemma PersistProvisionIdempotent(store: seq<ImageRecord>, name: string, runId: string)
    ensures PersistProvision(PersistProvision(store, name, runId), name, runId) == PersistProvision(store, name, runId)
  {
  }

  /** Recording a result never touches the provisioned inputs. */
  lemma PersistResultKeepsInputs(store: seq<ImageRecord>, name: string, runId: string, other: string, otherRun: string)
    ensures Recorded(store, other, otherRun, INPUT) ==> Recorded(PersistResult(store, name, runId), other, otherRun, INPUT)
  {
    var r := PersistResult(store, name, runId);
    if Recorded(store, other, otherRun, INPUT) {
      var i :| 0 <= i < |store| && store[i].name == other && store[i].runId == otherRun && store[i].kind == INPUT;
      assert r[i] == store[i];
    }
  }
}
