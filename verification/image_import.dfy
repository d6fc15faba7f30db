/**
 * The PIMS image importer: every IMAGE_REF alias of a dataset is staged as a
 * symlink in the writing directory and handed to the import procedure, unless
 * the image is missing or a symlink to it already sits in an upload directory
 * of the data root.
 *
 * The file system is reduced to what the importer asks of it: which aliases
 * name an existing image (and the path it resolves to), the data root's
 * entries, and the names present in the writing directory. The import
 * procedure is a parameter returning None on success and the exception's text
 * when it raises.
 */
module ImageImport {
  import opened Wrappers
  import opened PimsCatalog

  /** One entry of an upload directory: whether it is a symlink, and the path
      it resolves to. */
  datatype Candidate = Candidate(isSymlink: bool, resolved: string)

  /** An entry of the data root: an upload directory with its entries, or
      anything else (skipped). */
  datatype RootEntry = UploadDir(children: seq<Candidate>) | OtherEntry

  /** The image at `image` (resolved) is already imported: some upload
      directory directly holds a symlink resolving to it. */
  predicate AlreadyImported(image: string, root: seq<RootEntry>) {
    exists i, j :: 0 <= i < |root| && root[i].UploadDir? && 0 <= j < |root[i].children|
      && root[i].children[j].isSymlink && root[i].children[j].resolved == image
  }

  /** `is_already_imported`: the two nested scans with an early return. */
  method IsAlreadyImported(image: string, root: seq<RootEntry>) returns (found: bool)
    ensures found <==> AlreadyImported(image, root)
  {
    var i := 0;
    while i < |root|
      invariant 0 <= i <= |root|
      invariant forall k, j :: 0 <= k < i && root[k].UploadDir? && 0 <= j < |root[k].children| ==>
        !(root[k].children[j].isSymlink && root[k].children[j].resolved == image)
    {
      if root[i].UploadDir? {
        var children := root[i].children;
        var j := 0;
        while j < |children|
          invariant 0 <= j <= |children|
          invariant forall m :: 0 <= m < j ==> !(children[m].isSymlink && children[m].resolved == image)
        {
          if children[j].isSymlink && children[j].resolved == image {
            return true;
          }
          j := j + 1;
        }
      }
      i := i + 1;
    }
    return false;
  }

  /** What the importer sees of the file system: the aliases whose image
      exists under IMAGES, with the path each resolves to; the data root; and
      the names present in the writing directory. */
  datatype ImageFs = ImageFs(images: map<string, string>, dataRoot: seq<RootEntry>, staging: set<string>)

  /** The result of one import, the file system after it, and whether the
      import procedure was started. */
  datatype ImageStep = ImageStep(result: ImportResult, fs: ImageFs, started: bool)

  const MISSING_MESSAGE: string := "Image does not exist"
  const ALREADY_MESSAGE: string := "Already imported"

  /** `import_image` with the failure message the exception's text, as the
      result record's string field evidently expects. None where the call
      raises: only when the staging symlink clashes with an existing entry. */
  function ImportImage(alias: string, fs: ImageFs, runImport: string -> Option<string>): (r: Option<ImageStep>)
    ensures r.None? <==> (alias in fs.images && !AlreadyImported(fs.images[alias], fs.dataRoot)
      && alias in fs.staging)
    ensures alias !in fs.images ==>
      r == Some(ImageStep(ImportResult(alias, false, Some(MISSING_MESSAGE)), fs, false))
    ensures (alias in fs.images && AlreadyImported(fs.images[alias], fs.dataRoot)) ==>
      r == Some(ImageStep(ImportResult(alias, true, Some(ALREADY_MESSAGE)), fs, false))
    ensures r.Some? && r.value.started ==> (r.value.fs == fs.(staging := fs.staging + {alias})
      && r.value.result.success == runImport(alias).None?
      && r.value.result.message == runImport(alias))
    ensures r.Some? && !r.value.started ==> r.value.fs == fs
    ensures r.Some? ==> r.value.result.name == alias
  {
    if alias !in fs.images then
      Some(ImageStep(ImportResult(alias, false, Some(MISSING_MESSAGE)), fs, false))
    else if AlreadyImported(fs.images[alias], fs.dataRoot) then
      Some(ImageStep(ImportResult(alias, true, Some(ALREADY_MESSAGE)), fs, false))
    else if alias in fs.staging then None
    else
      var staged := fs.(staging := fs.staging + {alias});
      match runImport(alias)
      case None => Some(ImageStep(ImportResult(alias, true, None), staged, true))
      case Some(e) => Some(ImageStep(ImportResult(alias, false, Some(e)), staged, true))
  }

  /** `import_image` as written: the handler passes the exception object itself
      as the message, which the result record's string field rejects, so a
      failing import raises a validation error instead of returning. */
  function ImportImageAsWritten(alias: string, fs: ImageFs, runImport: string -> Option<string>): (r: Option<ImageStep>)
    ensures r.Some? ==> r == ImportImage(alias, fs, runImport)
    ensures r.None? <==> (ImportImage(alias, fs, runImport).None?
      || (ImportImage(alias, fs, runImport).value.started && runImport(alias).Some?))
  {
    match ImportImage(alias, fs, runImport)
    case None => None
    case Some(step) => if step.started && runImport(alias).Some? then None else Some(step)
  }

  /** A failing import procedure is reported as a failed result carrying its
      message; as written, the same failure escapes the importer. */
  lemma FailedImportRaisesAsWritten(alias: string, fs: ImageFs, runImport: string -> Option<string>)
    requires alias in fs.images && !AlreadyImported(fs.images[alias], fs.dataRoot) && alias !in fs.staging
    requires runImport(alias).Some?
    ensures ImportImage(alias, fs, runImport).Some?
    ensures ImportImage(alias, fs, runImport).value.result
      == ImportResult(alias, false, Some(runImport(alias).value))
    ensures ImportImageAsWritten(alias, fs, runImport).None?
  {
  }

  /** The imports of `run`, in order, threading the writing directory; the
      first import that raises ends the run. */
  function ImportAll(aliases: seq<string>, fs: ImageFs, runImport: string -> Option<string>, asWritten: bool)
    : (r: Option<(seq<ImportResult>, ImageFs)>)
    ensures r.Some? ==> |r.value.0| == |aliases| && forall i :: 0 <= i < |aliases| ==> r.value.0[i].name == aliases[i]
    ensures r.Some? ==> r.value.1.images == fs.images && r.value.1.dataRoot == fs.dataRoot
    ensures r.Some? ==> fs.staging <= r.value.1.staging
  {
    if aliases == [] then Some(([], fs))
    else
      var step := if asWritten then ImportImageAsWritten(aliases[0], fs, runImport)
                  else ImportImage(aliases[0], fs, runImport);
      match step
      case None => None
      case Some(s) =>
        match ImportAll(aliases[1..], s.fs, runImport, asWritten)
        case None => None
        case Some((results, after)) => Some(([s.result] + results, after))
  }

  /** `run`: the summary of one import per alias. */
  function Run(aliases: seq<string>, fs: ImageFs, runImport: string -> Option<string>): (r: Option<(ImportSummary, ImageFs)>)
    ensures r.Some? ==> (r.value.0.total == |aliases| && r.value.0 == Summarize(r.value.0.results)
      && forall i :: 0 <= i < |aliases| ==> r.value.0.results[i].name == aliases[i])
  {
    match ImportAll(aliases, fs, runImport, false)
    case None => None
    case Some((results, after)) => Some((Summarize(results), after))
  }

  /** `run` as written. */
  function RunAsWritten(aliases: seq<string>, fs: ImageFs, runImport: string -> Option<string>)
    : (r: Option<(ImportSummary, ImageFs)>)
    ensures r.Some? ==> r.value.0.total == |aliases| && r.value.0 == Summarize(r.value.0.results)
  {
    match ImportAll(aliases, fs, runImport, true)
    case None => None
    case Some((results, after)) => Some((Summarize(results), after))
  }

  /** With the corrected handler a run raises only on a staging clash: when
      every alias is distinct and none is staged yet, it always completes. */
  lemma {:induction false} DistinctRunCompletes(aliases: seq<string>, fs: ImageFs, runImport: string -> Option<string>)
    requires forall i, j :: 0 <= i < j < |aliases| ==> aliases[i] != aliases[j]
    requires forall i :: 0 <= i < |aliases| ==> aliases[i] !in fs.staging
    ensures ImportAll(aliases, fs, runImport, false).Some?
    ensures Run(aliases, fs, runImport).Some?
  {
    if aliases != [] {
      var s := ImportImage(aliases[0], fs, runImport).value;
      assert s.fs.staging <= fs.staging + {aliases[0]};
      forall i | 0 <= i < |aliases[1..]|
        ensures aliases[1..][i] !in s.fs.staging
      {
        assert aliases[1..][i] == aliases[i + 1];
      }
      DistinctRunCompletes(aliases[1..], s.fs, runImport);
    }
  }

  /** The staging symlink is never removed, so a dataset listing a new image
      twice raises on the second import. */
  lemma DuplicateAliasClashes(alias: string, fs: ImageFs, runImport: string -> Option<string>)
    requires alias in fs.images && !AlreadyImported(fs.images[alias], fs.dataRoot) && alias !in fs.staging
    ensures Run([alias, alias], fs, runImport).None?
  {
    var s := ImportImage(alias, fs, runImport).value;
    assert ImportImage(alias, s.fs, runImport).None?;
    assert ImportAll([alias], s.fs, runImport, false).None?;
    assert [alias, alias][1..] == [alias];
    assert ImportAll([alias, alias], fs, runImport, false).None?;
  }

  // ---------------------------------------------------------------- run_easy

  /** `run_easy` with the corrected handler: the same checks for one file
      (`resolved` is None when it does not exist), but an existing entry of
      the writing directory is removed before staging, so it never raises. */
  function RunEasy(name: string, resolved: Option<string>, fs: ImageFs, runImport: string -> Option<string>)
    : (r: ImageStep)
    ensures resolved.None? ==> r == ImageStep(ImportResult(name, false, Some(MISSING_MESSAGE)), fs, false)
    ensures (resolved.Some? && AlreadyImported(resolved.value, fs.dataRoot)) ==>
      r == ImageStep(ImportResult(name, true, Some(ALREADY_MESSAGE)), fs, false)
    ensures r.started ==> (r.fs.staging == fs.staging + {name}
      && r.result == ImportResult(name, runImport(name).None?, runImport(name)))
    ensures r.result.name == name
  {
    match resolved
    case None => ImageStep(ImportResult(name, false, Some(MISSING_MESSAGE)), fs, false)
    case Some(path) =>
      if AlreadyImported(path, fs.dataRoot) then
        ImageStep(ImportResult(name, true, Some(ALREADY_MESSAGE)), fs, false)
      else
        var staged := fs.(staging := (fs.staging - {name}) + {name});
        ImageStep(ImportResult(name, runImport(name).None?, runImport(name)), staged, true)
  }

  /** `run_easy` as written: a failing import raises the validation error. */
  function RunEasyAsWritten(name: string, resolved: Option<string>, fs: ImageFs, runImport: string -> Option<string>)
    : (r: Option<ImageStep>)
    ensures r.None? <==> RunEasy(name, resolved, fs, runImport).started && runImport(name).Some?
    ensures r.Some? ==> r.value == RunEasy(name, resolved, fs, runImport)
  {
    var step := RunEasy(name, resolved, fs, runImport);
    if step.started && runImport(name).Some? then None else Some(step)
  }

  /** Unlike `import_image`, `run_easy` stages the same file twice without a
      clash; the single-image and dataset paths agree whenever nothing is
      staged under the name yet. */
  lemma RunEasyAgreesWithImportImage(alias: string, fs: ImageFs, runImport: string -> Option<string>)
    requires alias !in fs.staging
    ensures alias in fs.images ==>
      ImportImage(alias, fs, runImport) == Some(RunEasy(alias, Some(fs.images[alias]), fs, runImport))
    ensures alias !in fs.images ==>
      ImportImage(alias, fs, runImport) == Some(RunEasy(alias, None, fs, runImport))
  {
    if alias in fs.images && !AlreadyImported(fs.images[alias], fs.dataRoot) {
      assert (fs.staging - {alias}) + {alias} == fs.staging + {alias};
    }
  }
}
