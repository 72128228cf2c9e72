/**
 * The checks `handleSubmit` runs in src/app/SermonOutlineUpload.tsx before
 * uploading: a file is selected, its MIME type is allowed, the lower-cased
 * text after the last "." of its name is an allowed extension, and it is at
 * most 5 MiB. The first failing check alone decides the message shown.
 */
module UploadChecks {
  import opened Wrappers
  import opened JsText

  /** The `File` fields the checks read. */
  datatype FileInfo = FileInfo(name: string, mimeType: string, size: nat)

  datatype Check = Passed | Failed(message: string)

  const AllowedTypes: seq<string> := [
    "text/plain",
    "application/pdf",
    "application/msword",
    "application/vnd.openxmlformats-officedocument.wordprocessingml.document"
  ]
  const AllowedExtensions: seq<string> := ["txt", "pdf", "doc", "docx"]
  const MaxSize: nat := 5 * 1024 * 1024

  const NoFileMessage := "Please select a file to upload"
  const TypeMessage := "Please upload a text or document file (.txt, .pdf, .doc, .docx)"
  const ExtensionMessage := "Invalid file format. Please upload a .txt, .pdf, .doc, or .docx file"
  const SizeMessage := "File size must be less than 5MB"

  /** `name.split(".").pop()?.toLowerCase()`. */
  function Extension(name: string): (ext: string)
    ensures '.' !in ext
  {
    var segment := LastSegment(name, '.');
    assert forall i :: 0 <= i < |segment| ==> LowerChar(segment[i]) != '.';
    ToLower(segment)
  }

  predicate TypeAllowed(f: FileInfo) {
    f.mimeType in AllowedTypes
  }

  /** `fileExtension && allowedExtensions.includes(fileExtension)`. */
  predicate ExtensionAllowed(f: FileInfo) {
    var ext := Extension(f.name);
    ext != "" && ext in AllowedExtensions
  }

  predicate SizeAllowed(f: FileInfo) {
    f.size <= MaxSize
  }

  /**
   * The chain of checks. A file passes exactly when every check passes, and
   * each message is shown exactly when its check is the first one to fail.
   */
  function CheckUpload(file: Option<FileInfo>): (r: Check)
    ensures r == Passed <==>
              file.Some? && TypeAllowed(file.value) && ExtensionAllowed(file.value) && SizeAllowed(file.value)
    ensures r == Failed(NoFileMessage) <==> file.None?
    ensures r == Failed(TypeMessage) <==> file.Some? && !TypeAllowed(file.value)
    ensures r == Failed(ExtensionMessage) <==>
              file.Some? && TypeAllowed(file.value) && !ExtensionAllowed(file.value)
    ensures r == Failed(SizeMessage) <==>
              file.Some? && TypeAllowed(file.value) && ExtensionAllowed(file.value) && !SizeAllowed(file.value)
  {
    if file.None? then Failed(NoFileMessage)
    else if !TypeAllowed(file.value) then Failed(TypeMessage)
    else if !ExtensionAllowed(file.value) then Failed(ExtensionMessage)
    else if !SizeAllowed(file.value) then Failed(SizeMessage)
    else Passed
  }

  /** The extension of `base.ext` is `ext` lower-cased, whatever `base` holds. */
  lemma ExtensionAfterLastDot(base: string, ext: string)
    requires '.' !in ext
    ensures Extension(base + "." + ext) == ToLower(ext)
  {
    var s := base + "." + ext;
    var segment := LastSegment(s, '.');
    var start := |s| - |segment|;
    assert s[|base|] == '.';
    assert forall k :: start <= k < |s| ==> s[k] == segment[k - start];
    assert forall k :: |base| < k < |s| ==> s[k] == ext[k - |base| - 1];
    assert start == |base| + 1;
    assert segment == s[|base| + 1..] == ext;
  }

  /** A name without "." is its own extension: a file named `txt` has extension "txt". */
  lemma ExtensionWithoutDot(name: string)
    requires '.' !in name
    ensures Extension(name) == ToLower(name)
  {
    var segment := LastSegment(name, '.');
    assert LastIndexOf(name, '.') == -1;
    assert segment == name;
  }

  /** A name ending in "." has an empty extension, which is refused. */
  lemma TrailingDotRefused(base: string, mimeType: string, size: nat)
    requires mimeType in AllowedTypes
    ensures Extension(base + ".") == ""
    ensures CheckUpload(Some(FileInfo(base + ".", mimeType, size))) == Failed(ExtensionMessage)
  {
    assert base + "." == base + "." + "";
    ExtensionAfterLastDot(base, "");
  }

  /** A file of exactly 5 MiB passes the size check; one byte more does not. */
  lemma SizeBoundary(f: FileInfo)
    requires TypeAllowed(f) && ExtensionAllowed(f)
    ensures f.size == 5242880 ==> CheckUpload(Some(f)) == Passed
    ensures f.size == 5242881 ==> CheckUpload(Some(f)) == Failed(SizeMessage)
  {
  }

  /** Upper-case extensions are accepted: "Notes.DOCX" passes as a .docx file. */
  lemma UpperCaseExtensionAccepted(size: nat)
    requires size <= MaxSize
    ensures CheckUpload(Some(FileInfo("Notes.DOCX", AllowedTypes[3], size))) == Passed
  {
    assert "Notes.DOCX" == "Notes" + "." + "DOCX";
    ExtensionAfterLastDot("Notes", "DOCX");
    assert ToLower("DOCX") == "docx";
  }
}
