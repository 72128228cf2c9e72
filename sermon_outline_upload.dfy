/**
 * The state of the upload form of src/app/SermonOutlineUpload.tsx and the
 * decisions `handleSubmit` takes: refuse with the first failing check, or
 * send the file, then record the server's answer, save complete results
 * and hand the topic and joined verses to the parent.
 */
module SermonOutlineUpload {
  import opened Wrappers
  import opened JsRuntime
  import opened UploadChecks
  import opened SavedAnalyses

  const AnalyzeFailure := "Failed to analyze sermon outline"

  /**
   * What `fetch("/api/sermon-analysis")` brings back: a thrown call (or a body
   * that is not JSON), an error status with the body's `error` field ("" when
   * absent or empty), or the analysis of a successful call.
   */
  datatype ServerReply = FetchFailed(e: Exception) | ErrorStatus(error: string) | Delivered(data: AnalysisResult)

  /** The message `catch` shows for a reply that is not a delivered analysis. */
  function FailureMessage(reply: ServerReply): (m: string)
    requires !reply.Delivered?
    ensures reply.ErrorStatus? && reply.error != "" ==> m == reply.error
    ensures reply.ErrorStatus? && reply.error == "" ==> m == AnalyzeFailure
    ensures reply.FetchFailed? ==> m == CaughtMessage(reply.e)
  {
    match reply
    case FetchFailed(e) => CaughtMessage(e)
    case ErrorStatus(message) => if message != "" then message else AnalyzeFailure
  }

  class UploadForm {
    var file: Option<FileInfo>
    var isUploading: bool
    var result: Option<AnalysisResult>
    var error: string
    var savedAnalyses: seq<SavedAnalysis>

    constructor ()
      ensures file == None && !isUploading && result == None && error == "" && savedAnalyses == []
    {
      file := None;
      isUploading := false;
      result := None;
      error := "";
      savedAnalyses := [];
    }

    /** `handleFileChange`: the first chosen file replaces the selection and clears the error. */
    method HandleFileChange(files: seq<FileInfo>)
      modifies this
      ensures files != [] ==> file == Some(files[0]) && error == ""
      ensures files == [] ==> file == old(file) && error == old(error)
      ensures isUploading == old(isUploading) && result == old(result)
      ensures savedAnalyses == old(savedAnalyses)
    {
      if files != [] {
        file := Some(files[0]);
        error := "";
      }
    }

    /**
     * `handleSubmit`. A failed check only sets its message; otherwise the file
     * is sent and the reply recorded by `RecordReply`.
     */
    method HandleSubmit(reply: ServerReply, now: nat) returns (handoff: Option<Handoff>)
      modifies this
      ensures file == old(file)
      ensures CheckUpload(old(file)).Failed? ==>
                && error == CheckUpload(old(file)).message
                && isUploading == old(isUploading) && result == old(result)
                && savedAnalyses == old(savedAnalyses) && handoff == None
      ensures CheckUpload(old(file)).Passed? ==> !isUploading
      ensures CheckUpload(old(file)).Passed? && reply.Delivered? ==>
                && error == "" && result == Some(reply.data)
                && savedAnalyses == SaveAnalysis(old(savedAnalyses), reply.data, now, old(file).value.name)
                && handoff == UseResult(reply.data)
      ensures CheckUpload(old(file)).Passed? && !reply.Delivered? ==>
                && error == FailureMessage(reply)
                && result == old(result) && savedAnalyses == old(savedAnalyses) && handoff == None
    {
      var check := CheckUpload(file);
      if check.Failed? {
        error := check.message;
        handoff := None;
      } else {
        handoff := RecordReply(reply, now);
      }
    }

    /**
     * The `try`/`finally` of `handleSubmit`, reached once the checks passed: an
     * analysis becomes the result, is saved when complete and handed on; a
     * failure becomes the error message; either way uploading stops.
     */
    method RecordReply(reply: ServerReply, now: nat) returns (handoff: Option<Handoff>)
      requires file.Some?
      modifies this
      ensures file == old(file) && !isUploading
      ensures reply.Delivered? ==>
                && error == "" && result == Some(reply.data)
                && savedAnalyses == SaveAnalysis(old(savedAnalyses), reply.data, now, file.value.name)
                && handoff == UseResult(reply.data)
      ensures !reply.Delivered? ==>
                && error == FailureMessage(reply)
                && result == old(result) && savedAnalyses == old(savedAnalyses) && handoff == None
    {
      isUploading := true;
      error := "";
      if reply.Delivered? {
        result := Some(reply.data);
        savedAnalyses := SaveAnalysis(savedAnalyses, reply.data, now, file.value.name);
        handoff := UseResult(reply.data);
      } else {
        error := FailureMessage(reply);
        handoff := None;
      }
      isUploading := false;
    }

    /** The saved list as displayed: newest first, a permutation of the stored list. */
    function DisplayedAnalyses(): (r: seq<SavedAnalysis>)
      reads this
      ensures NewestFirst(r)
      ensures multiset(r) == multiset(savedAnalyses)
    {
      SortByNewest(savedAnalyses)
    }
  }
}
