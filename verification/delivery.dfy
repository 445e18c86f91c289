/** The tail of `handle_quality_selection`: the size guard on the downloaded file, the upload,
    and the removal of the temporary file on every path after a download. Membership gating
    and the message texts are outside the model; each outcome is one `Reply` category. */
module Delivery {
  import opened Wrappers
  import opened Formats
  import opened Resolver
  import opened Paths
  import opened Cascade
  import Callback

  /** How the upload ended: sent, `asyncio.TimeoutError`, or any other exception. */
  datatype UploadOutcome = Sent | UploadTimeout | UploadError

  datatype Reply =
    | MembershipCheck
    | BadRequest
    | NoFormat
    | DownloadFailed
    | FileNotFound
    | TooLarge(size: nat, limitMb: nat)
    | Delivered(caveat: bool)
    | UploadTimedOut
    | UploadFailed

  datatype Handled = Handled(reply: Reply, files: FileSystem)

  /** `file_size / 1024 / 1024 > MAX_FILE_SIZE`, as a comparison of integers: the megabyte
      quotient exceeds the limit exactly when the bytes exceed the budget. */
  predicate OverLimit(size: nat, limitMb: nat)
    ensures OverLimit(size, limitMb) <==> (size as real) / 1024.0 / 1024.0 > limitMb as real
  {
    assert (size as real) / 1024.0 / 1024.0 == (size as real) / (Mebibyte as real);
    assert (limitMb * Mebibyte) as real == (limitMb as real) * (Mebibyte as real);
    size > limitMb * Mebibyte
  }

  /** A file of exactly the budget is delivered, although the resolver's strict `<` would not
      have counted a catalog size of exactly the budget as fitting. */
  lemma GuardBoundary(limitMb: nat, f: Format)
    requires f.filesize == Some(Budget(limitMb))
    ensures !OverLimit(Budget(limitMb), limitMb)
    ensures !Fits(f, Budget(limitMb))
  {
  }

  function UploadReply(upload: UploadOutcome, caveat: bool): Reply {
    match upload
    case Sent => Delivered(caveat)
    case UploadTimeout => UploadTimedOut
    case UploadError => UploadFailed
  }

  /** How an `os.remove` attempt ends. The source swallows a failure (`except: pass` after
      the guard, a log line after the upload), and the file then stays. */
  datatype RemovalOutcome = Removes | RemoveRaises

  /** A removal whose failure is swallowed. */
  function TryRemove(files: FileSystem, path: Path, removal: RemovalOutcome): (r: FileSystem)
    ensures removal == Removes ==> path !in r
    ensures removal == RemoveRaises ==> r == files
    ensures forall q :: q != path ==> (q in r <==> q in files) && (q in r ==> r[q] == files[q])
  {
    match removal
    case Removes => Remove(files, path)
    case RemoveRaises => files
  }

  /** What follows a download in the handler: the not-found check, the size guard, the upload
      and the clean-up, on the run the cascade produced. */
  function Deliver(quality: string, run: Run, limitMb: nat, upload: UploadOutcome, removal: RemovalOutcome)
    : (h: Handled)
    ensures run.result.None? ==> h == Handled(DownloadFailed, run.files)
    ensures run.result.Some? && run.result.value.filePath !in run.files ==> h == Handled(FileNotFound, run.files)
    ensures h.reply.Delivered? ==> run.result.Some? && !OverLimit(run.result.value.fileSize, limitMb)
    ensures h.reply.TooLarge? ==> run.result.Some? && OverLimit(run.result.value.fileSize, limitMb)
                                  && h.reply.size == run.result.value.fileSize
    ensures run.result.Some? && run.result.value.filePath in run.files ==>
              (h.reply.TooLarge? <==> OverLimit(run.result.value.fileSize, limitMb))
    ensures run.result.Some? && run.result.value.filePath in run.files && !OverLimit(run.result.value.fileSize, limitMb) ==>
              h.reply == UploadReply(upload, run.result.value.actualQuality != quality)
    ensures run.result.Some? ==> h.files == TryRemove(run.files, run.result.value.filePath, removal)
    ensures h.reply.Delivered? ==> (h.reply.caveat <==> run.result.value.actualQuality != quality)
  {
    match run.result
    case None => Handled(DownloadFailed, run.files)
    case Some(d) =>
      if d.filePath !in run.files then Handled(FileNotFound, run.files)
      else if OverLimit(d.fileSize, limitMb) then
        Handled(TooLarge(d.fileSize, limitMb), TryRemove(run.files, d.filePath, removal))
      else
        Handled(UploadReply(upload, d.actualQuality != quality), TryRemove(run.files, d.filePath, removal))
  }

  /** From the format check to the clean-up, for a parsed quality and URL. */
  function HandleSelection(quality: string, catalog: seq<Format>, limitMb: nat, files: FileSystem,
                           primary: ProviderOutcome, fallback: ProviderOutcome, upload: UploadOutcome,
                           removal: RemovalOutcome): (h: Handled)
    ensures var chosen := Resolve(catalog, quality, limitMb);
            chosen.None? || chosen.value == "" ==> h == Handled(NoFormat, files)
    ensures var run := Download(catalog, quality, limitMb, files, primary, fallback);
            h.reply.Delivered? ==> run.result.Some? && !OverLimit(run.result.value.fileSize, limitMb)
    ensures var run := Download(catalog, quality, limitMb, files, primary, fallback);
            h.reply.TooLarge? ==>
              run.result.Some? && OverLimit(run.result.value.fileSize, limitMb) && h.reply.size == run.result.value.fileSize
    ensures var run := Download(catalog, quality, limitMb, files, primary, fallback);
            run.result.Some? && run.result.value.filePath in run.files ==>
              (h.reply.TooLarge? <==> OverLimit(run.result.value.fileSize, limitMb))
    ensures var run := Download(catalog, quality, limitMb, files, primary, fallback);
            run.result.Some? && run.result.value.filePath in run.files && !OverLimit(run.result.value.fileSize, limitMb) ==>
              h.reply == UploadReply(upload, run.result.value.actualQuality != quality)
    ensures var run := Download(catalog, quality, limitMb, files, primary, fallback);
            run.result.Some? && run.result.value.filePath !in run.files ==> h == Handled(FileNotFound, run.files)
    ensures var run := Download(catalog, quality, limitMb, files, primary, fallback);
            run.result.Some? ==> h.files == TryRemove(run.files, run.result.value.filePath, removal)
    ensures var run := Download(catalog, quality, limitMb, files, primary, fallback);
            run.result.None? && run.requests != [] ==> h == Handled(DownloadFailed, run.files)
    ensures var run := Download(catalog, quality, limitMb, files, primary, fallback);
            h.reply.Delivered? ==> (h.reply.caveat <==> |run.requests| == 2 && quality != FallbackQuality)
  {
    var chosen := Resolve(catalog, quality, limitMb);
    if chosen.None? || chosen.value == "" then Handled(NoFormat, files)
    else Deliver(quality, Download(catalog, quality, limitMb, files, primary, fallback), limitMb, upload, removal)
  }

  /** The whole callback: the membership button, then `split('_', 1)`, then the selection. */
  function HandleCallback(data: string, catalog: seq<Format>, limitMb: nat, files: FileSystem,
                          primary: ProviderOutcome, fallback: ProviderOutcome, upload: UploadOutcome,
                          removal: RemovalOutcome): (h: Handled)
    ensures data == "check_membership" ==> h == Handled(MembershipCheck, files)
    ensures data != "check_membership" && '_' !in data ==> h == Handled(BadRequest, files)
    ensures h.reply != MembershipCheck && h.reply != BadRequest ==> Callback.Parse(data).Some?
    ensures data != "check_membership" && Callback.Parse(data).Some? ==>
              h == HandleSelection(Callback.Parse(data).value.0, catalog, limitMb, files, primary, fallback, upload, removal)
  {
    if data == "check_membership" then Handled(MembershipCheck, files)
    else
      match Callback.Parse(data)
      case None => Handled(BadRequest, files)
      case Some((quality, url)) => HandleSelection(quality, catalog, limitMb, files, primary, fallback, upload, removal)
  }

  /** Every keyboard button goes on to the selection with its own quality, whatever the URL. */
  lemma KeyboardButtonSelects(i: nat, url: string, catalog: seq<Format>, limitMb: nat, files: FileSystem,
                              primary: ProviderOutcome, fallback: ProviderOutcome, upload: UploadOutcome,
                              removal: RemovalOutcome)
    requires i < |Callback.KeyboardQualities|
    ensures HandleCallback(Callback.Encode(Callback.KeyboardQualities[i], url), catalog, limitMb, files,
                           primary, fallback, upload, removal)
            == HandleSelection(Callback.KeyboardQualities[i], catalog, limitMb, files, primary, fallback, upload, removal)
  {
    Callback.KeyboardRoundTrip(i, url);
    Callback.KeyboardDataIsNotMembership(i, url);
  }

  /** After any run that produced a download result, that result's file no longer exists when
      its removal succeeds, whether it was delivered, rejected by the guard, timed out or failed
      to upload; when the removal raises, the file stays and nothing changes. No other path is
      touched by the clean-up. */
  lemma TemporaryFileRemoved(quality: string, catalog: seq<Format>, limitMb: nat, files: FileSystem,
                             primary: ProviderOutcome, fallback: ProviderOutcome, upload: UploadOutcome,
                             removal: RemovalOutcome)
    ensures var run := Download(catalog, quality, limitMb, files, primary, fallback);
            var h := HandleSelection(quality, catalog, limitMb, files, primary, fallback, upload, removal);
            run.result.Some? ==>
              && (removal == Removes ==> run.result.value.filePath !in h.files)
              && (removal == RemoveRaises ==> h.files == run.files)
              && forall q :: q != run.result.value.filePath ==> (q in h.files <==> q in run.files)
  {
  }

  /** A failed removal is logged, never escalated: the reply is the same either way. */
  lemma RemovalFailureNotEscalated(quality: string, catalog: seq<Format>, limitMb: nat, files: FileSystem,
                                   primary: ProviderOutcome, fallback: ProviderOutcome, upload: UploadOutcome)
    ensures HandleSelection(quality, catalog, limitMb, files, primary, fallback, upload, Removes).reply
            == HandleSelection(quality, catalog, limitMb, files, primary, fallback, upload, RemoveRaises).reply
  {
  }

  /** Nothing over the limit reaches the user: a delivered or timed-out or failed upload only
      ever starts on a file within the limit. */
  lemma NeverUploadsOverLimit(quality: string, catalog: seq<Format>, limitMb: nat, files: FileSystem,
                              primary: ProviderOutcome, fallback: ProviderOutcome, upload: UploadOutcome,
                              removal: RemovalOutcome)
    ensures var run := Download(catalog, quality, limitMb, files, primary, fallback);
            var h := HandleSelection(quality, catalog, limitMb, files, primary, fallback, upload, removal);
            (h.reply.Delivered? || h.reply == UploadTimedOut || h.reply == UploadFailed) ==>
              run.result.Some? && run.result.value.filePath in run.files
              && run.result.value.fileSize <= Budget(limitMb)
  {
  }

  /** A download of exactly the budget is not rejected: it goes to the upload, and the reply
      follows the upload's outcome. */
  lemma ExactBudgetIsUploaded(quality: string, catalog: seq<Format>, limitMb: nat, files: FileSystem,
                              primary: ProviderOutcome, fallback: ProviderOutcome, upload: UploadOutcome,
                              removal: RemovalOutcome)
    requires var run := Download(catalog, quality, limitMb, files, primary, fallback);
             run.result.Some? && run.result.value.filePath in run.files
             && run.result.value.fileSize == Budget(limitMb)
    ensures var run := Download(catalog, quality, limitMb, files, primary, fallback);
            HandleSelection(quality, catalog, limitMb, files, primary, fallback, upload, removal).reply
            == UploadReply(upload, run.result.value.actualQuality != quality)
  {
  }
}
