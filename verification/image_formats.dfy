/**
 * The signature checks of the image formats an image parameter may be
 * restricted to: the zip magic at offset 0, the DICOM "DICM" magic at offset
 * 128, a WSI DICOM directory whose every file is a DICOM file, the header
 * check of the entries of a zipped WSI DICOM, and the upper-cased registry of
 * `ImageFormatFactory`.
 *
 * The JPEG, PNG, TIFF and generic formats and the DICOM dataset reader are not
 * part of this model; they are parameters of the image validation.
 */
module ImageFormats {
  import opened Wrappers
  import Text
  import opened ErrorCodes

  /** A path as the checks find it on disk. A regular file has its bytes and
      says whether opening it succeeds; a directory has its listing, None when
      `listFiles()` gives null; a missing path has length 0. */
  datatype FileNode =
    | RegularFile(bytes: seq<bv8>, readable: bool)
    | Directory(listing: Option<seq<FileNode>>)
    | Missing

  const ZIP_SIGNATURE: seq<bv8> := [0x50, 0x4B, 0x03, 0x04]
  const DICOM_SIGNATURE: seq<bv8> := [0x44, 0x49, 0x43, 0x4D]
  const DICOM_MAGIC_OFFSET: nat := 128

  /** `File.length()`: the byte count of a regular file, 0 otherwise. */
  function Length(file: FileNode): nat {
    if file.RegularFile? then |file.bytes| else 0
  }

  /** One `FileInputStream.read(buffer)` into a fresh buffer of `n` bytes: the
      bytes it fills, None when the stream cannot be opened. */
  function ReadInto(file: FileNode, n: nat): (r: Option<seq<bv8>>)
    ensures r.Some? ==> file.RegularFile? && |r.value| <= n && r.value <= file.bytes
    ensures r.Some? && |file.bytes| >= n ==> r.value == file.bytes[..n]
  {
    if file.RegularFile? && file.readable then
      Some(if |file.bytes| <= n then file.bytes else file.bytes[..n])
    else None
  }

  /** The buffer after the read: the bytes read, then zeros. */
  function Buffer(read: seq<bv8>, n: nat): (r: seq<bv8>)
    requires |read| <= n
    ensures |r| == n && r[..|read|] == read
  {
    read + seq(n - |read|, _ => 0)
  }

  /** `ZipFormat.checkSignature`: a readable file of at least four bytes
      starting with 50 4B 03 04; a read error answers false. */
  function ZipSignature(file: FileNode): (r: bool)
    ensures r <==> (file.RegularFile? && file.readable && |file.bytes| >= 4
      && file.bytes[..4] == ZIP_SIGNATURE)
  {
    if Length(file) < |ZIP_SIGNATURE| then false
    else
      match ReadInto(file, |ZIP_SIGNATURE|)
      case None => false
      case Some(read) => |read| == |ZIP_SIGNATURE| && read == ZIP_SIGNATURE
  }

  /** `DicomFormat.checkSignature(File)`: all 132 bytes of the preamble and
      magic are read and bytes 128..131 spell "DICM". */
  function DicomSignature(file: FileNode): (r: bool)
    ensures r <==> (file.RegularFile? && file.readable && |file.bytes| >= 132
      && file.bytes[128..132] == DICOM_SIGNATURE)
  {
    if Length(file) < |DICOM_SIGNATURE| then false
    else
      match ReadInto(file, DICOM_MAGIC_OFFSET + |DICOM_SIGNATURE|)
      case None => false
      case Some(read) =>
        var buffer := Buffer(read, DICOM_MAGIC_OFFSET + |DICOM_SIGNATURE|);
        var magic := buffer[|buffer| - |DICOM_SIGNATURE|..];
        assert |read| == 132 ==> read == file.bytes[..132] && magic == file.bytes[128..132];
        |read| == DICOM_MAGIC_OFFSET + |DICOM_SIGNATURE| && magic == DICOM_SIGNATURE
  }

  /** `DicomFormat.checkSignature(byte[])`: exactly the four magic bytes. */
  function DicomMagic(magicBytes: seq<bv8>): (r: bool)
    ensures r <==> magicBytes == DICOM_SIGNATURE
  {
    if |magicBytes| < |DICOM_SIGNATURE| then false
    else |magicBytes| == |DICOM_SIGNATURE| && magicBytes == DICOM_SIGNATURE
  }

  /** A zip entry whose header check stops: with a coded error, or with the
      ArrayIndexOutOfBoundsException of `copyOfRange` on a negative start. */
  datatype FormatFault = Coded(code: ErrorCode) | Crash

  /** `validateDicomHeader` as written: up to 132 bytes are read and their
      last four must be the magic, so an entry shorter than 132 bytes is
      judged by its own last four bytes, and one shorter than four throws. */
  function HeaderCheckAsWritten(entry: seq<bv8>): (r: Option<FormatFault>)
    ensures r == Some(Crash) <==> |entry| < 4
    ensures r.None? <==> (|entry| >= 4 && var header := if |entry| <= 132 then entry else entry[..132];
      header[|header| - 4..] == DICOM_SIGNATURE)
  {
    var header := if |entry| <= 132 then entry else entry[..132];
    if |header| < |DICOM_SIGNATURE| then Some(Crash)
    else if DicomMagic(header[|header| - |DICOM_SIGNATURE|..]) then None
    else Some(Coded(INTERNAL_PARAMETER_INVALID_IMAGE_FORMAT))
  }

  /** The header check an entry evidently should meet: the same magic at
      offset 128 that the file check asks for; anything else is refused with
      INVALID_IMAGE_FORMAT and nothing throws. */
  function HeaderCheck(entry: seq<bv8>): (r: Option<FormatFault>)
    ensures r.None? <==> DicomSignature(RegularFile(entry, true))
    ensures r.Some? ==> r.value == Coded(INTERNAL_PARAMETER_INVALID_IMAGE_FORMAT)
  {
    if |entry| >= 132 && entry[128..132] == DICOM_SIGNATURE then None
    else Some(Coded(INTERNAL_PARAMETER_INVALID_IMAGE_FORMAT))
  }

  /** On entries of at least 132 bytes the two checks agree. */
  lemma HeaderChecksAgreeOnFullHeaders(entry: seq<bv8>)
    requires |entry| >= 132
    ensures HeaderCheckAsWritten(entry) == HeaderCheck(entry)
  {
    var header := entry[..132];
    assert header[128..] == entry[128..132];
  }

  /** A four-byte entry "DICM" passes the header check as written though it
      holds no preamble and the file check refuses it; the corrected check
      refuses it too. An empty entry (a directory in the zip) throws. */
  lemma ShortEntryPassesHeaderCheck()
    ensures HeaderCheckAsWritten(DICOM_SIGNATURE).None?
    ensures !DicomSignature(RegularFile(DICOM_SIGNATURE, true))
    ensures HeaderCheck(DICOM_SIGNATURE) == Some(Coded(INTERNAL_PARAMETER_INVALID_IMAGE_FORMAT))
    ensures HeaderCheckAsWritten([]) == Some(Crash)
  {
    assert DICOM_SIGNATURE[0..] == DICOM_SIGNATURE;
  }

  /** `validateZippedWSIDicom`: `entries` are the zip's entries, None when the
      archive cannot be opened (PARAMETER_TYPE_ERROR); the first entry that
      fails `check` stops the walk. */
  function ZippedWsiDicom(entries: Option<seq<seq<bv8>>>, check: seq<bv8> -> Option<FormatFault>): (r: Option<FormatFault>)
    ensures entries.None? ==> r == Some(Coded(INTERNAL_PARAMETER_TYPE_ERROR))
    ensures entries.Some? ==> (r.None? <==> forall i :: 0 <= i < |entries.value| ==> check(entries.value[i]).None?)
  {
    match entries
    case None => Some(Coded(INTERNAL_PARAMETER_TYPE_ERROR))
    case Some(es) => FirstFailing(es, check)
  }

  function FirstFailing(entries: seq<seq<bv8>>, check: seq<bv8> -> Option<FormatFault>): (r: Option<FormatFault>)
    ensures r.None? <==> forall i :: 0 <= i < |entries| ==> check(entries[i]).None?
    ensures r.Some? ==> exists i :: 0 <= i < |entries| && check(entries[i]) == r
  {
    if entries == [] then None
    else if check(entries[0]).Some? then check(entries[0])
    else
      assert forall i :: 1 <= i < |entries| ==> entries[i] == entries[1..][i - 1];
      var r := FirstFailing(entries[1..], check);
      assert r.Some? ==> exists i :: 1 <= i < |entries| && check(entries[i]) == r;
      r
  }

  /** The listed files are all regular DICOM files. */
  function AllDicomFiles(files: seq<FileNode>): (r: bool)
    ensures r <==> forall i :: 0 <= i < |files| ==> !files[i].Directory? && DicomSignature(files[i])
  {
    if files == [] then true
    else
      assert forall i :: 1 <= i < |files| ==> files[i] == files[1..][i - 1];
      if files[0].Directory? || !DicomSignature(files[0]) then false else AllDicomFiles(files[1..])
  }

  /** `WSIDicomFormat.checkSignature`: a directory with a non-empty listing
      whose every entry is a non-directory with the DICOM signature. */
  function WsiDicomSignature(directory: FileNode): (r: bool)
    ensures r <==> (directory.Directory? && directory.listing.Some? && |directory.listing.value| > 0
      && forall i :: 0 <= i < |directory.listing.value| ==>
        directory.listing.value[i].RegularFile? && DicomSignature(directory.listing.value[i]))
  {
    var listing := if directory.Directory? then directory.listing else None;
    match listing
    case None => false
    case Some(files) => |files| > 0 && AllDicomFiles(files)
  }

  /** A zip archive is never taken for a WSI DICOM directory, nor a WSI DICOM
      directory for a zip. */
  lemma ZipAndWsiDisjoint(file: FileNode)
    ensures !(ZipSignature(file) && WsiDicomSignature(file))
  {
  }

  // ---------------------------------------------------------------- registry

  /** The formats the registry holds, and the generic fallback. */
  datatype Format = DICOM | JPEG | PNG | TIFF | WSIDICOM | GENERIC

  /** `ImageFormatFactory.getFormat`: the name upper-cased, looked up among
      the five registered names; null (None) for any other. */
  function GetFormat(name: string): (r: Option<Format>)
    ensures r.Some? <==> Text.ToUpper(name) in {"DICOM", "JPEG", "PNG", "TIFF", "WSIDICOM"}
    ensures r.Some? ==> r.value != GENERIC
  {
    var key := Text.ToUpper(name);
    if key == "DICOM" then Some(DICOM)
    else if key == "JPEG" then Some(JPEG)
    else if key == "PNG" then Some(PNG)
    else if key == "TIFF" then Some(TIFF)
    else if key == "WSIDICOM" then Some(WSIDICOM)
    else None
  }

  /** The registered name of each format, as the registry's keys spell it. */
  function RegistryName(f: Format): string {
    match f
    case DICOM => "DICOM"
    case JPEG => "JPEG"
    case PNG => "PNG"
    case TIFF => "TIFF"
    case WSIDICOM => "WSIDICOM"
    case GENERIC => "GENERIC"
  }

  /** Upper-casing an upper-case name changes nothing. */
  lemma {:induction false} UpperIdempotent(s: string)
    requires forall i :: 0 <= i < |s| ==> 'A' <= s[i] <= 'Z'
    ensures Text.ToUpper(s) == s
  {
  }

  /** Every registered format is found under its own name, and under the
      lower-case spelling of it: the lookup ignores case. */
  lemma RegistryIgnoresCase(f: Format)
    requires f != GENERIC
    ensures GetFormat(RegistryName(f)) == Some(f)
    ensures GetFormat(Text.ToLower(RegistryName(f))) == Some(f)
  {
    var n := RegistryName(f);
    UpperIdempotent(n);
    assert Text.ToUpper(Text.ToLower(n)) == n;
  }
}
