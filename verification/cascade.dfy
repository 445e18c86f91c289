/** `download_video_robust`: one primary download with the resolved format id and, when that
    raises, exactly one fallback download with a provider-native selector. What the provider
    does is an input: each attempt either raises or reports the file name it prepared, the
    title, and the filesystem as it left it. */
module Cascade {
  import opened Wrappers
  import opened Formats
  import opened Resolver
  import opened Paths

  datatype ProviderOutcome =
    | Raises
    | Downloads(filename: Path, title: Option<string>, files: FileSystem)

  /** What the cascade asks the provider for: a format selector, and whether the FFmpeg
      mp3-extraction post-processor is attached. */
  datatype Request = Request(selector: string, extractMp3: bool)

  /** The dictionary returned on success. */
  datatype DownloadResult = DownloadResult(filePath: Path, title: string, fileSize: nat, actualQuality: string)

  /** The states of the cascade; `Unresolved` is the early exit when no format was found. */
  datatype Stage = NotStarted | PrimaryAttempt | FallbackAttempt | Succeeded | Failed | Unresolved

  datatype Phase = Primary | Fallback

  /** The whole run: the stages passed through, the requests made, the result, the filesystem. */
  datatype Run = Run(stages: seq<Stage>, requests: seq<Request>, result: Option<DownloadResult>, files: FileSystem)

  const FallbackVideoSelector: string := "best[filesize<50M]/best"
  const FallbackAudioSelector: string := "bestaudio[filesize<50M]/bestaudio"
  const FallbackQuality: string := "best_available"

  /** The selector each phase hands to the provider. */
  function Selector(phase: Phase, quality: string, formatId: string): (r: string)
    ensures phase == Fallback ==> (r == FallbackAudioSelector <==> quality == "audio")
    ensures phase == Fallback ==> (r == FallbackVideoSelector <==> quality != "audio")
  {
    match phase
    case Primary => formatId
    case Fallback => if quality == "audio" then FallbackAudioSelector else FallbackVideoSelector
  }

  /** The `actual_quality` a successful phase reports. */
  function Label(phase: Phase, quality: string): (r: string)
    ensures r == quality <==> phase == Primary || quality == FallbackQuality
  {
    match phase
    case Primary => quality
    case Fallback => FallbackQuality
  }

  /** Turns a finished provider download into the result: audio files go through the `.mp3`
      reconciliation, and the size is read from the filesystem (0 when the file is missing). */
  function Finish(quality: string, filename: Path, title: Option<string>, files: FileSystem, reported: string)
    : (r: (DownloadResult, FileSystem))
    ensures quality == "audio" ==> r.0.filePath == Mp3Path(filename) && r.1 == ReconcileAudio(filename, files).1
    ensures quality != "audio" ==> r.0.filePath == filename && r.1 == files
    ensures r.0.filePath in r.1 ==> r.0.fileSize == r.1[r.0.filePath]
    ensures r.0.filePath !in r.1 ==> r.0.fileSize == 0
    ensures r.0.title == (if title.Some? then title.value else "Unknown")
    ensures r.0.actualQuality == reported
  {
    var (path, files') := if quality == "audio" then ReconcileAudio(filename, files) else (filename, files);
    var size := if path in files' then files'[path] else 0;
    (DownloadResult(path, title.GetOr("Unknown"), size, reported), files')
  }

  /** One provider call, shared by both phases. */
  function Attempt(phase: Phase, quality: string, outcome: ProviderOutcome, files: FileSystem)
    : (r: (Option<DownloadResult>, FileSystem))
    ensures r.0.Some? <==> outcome.Downloads?
    ensures r.0.Some? ==> r.0.value.actualQuality == Label(phase, quality)
    ensures outcome.Raises? ==> r.1 == files
    ensures outcome.Downloads? && quality == "audio" ==>
              r.0.value.filePath == Mp3Path(outcome.filename) && r.1 == ReconcileAudio(outcome.filename, outcome.files).1
    ensures outcome.Downloads? && quality != "audio" ==>
              r.0.value.filePath == outcome.filename && r.1 == outcome.files
    ensures outcome.Downloads? ==> r.0.value.title == outcome.title.GetOr("Unknown")
    ensures r.0.Some? ==> r.0.value.fileSize == (if r.0.value.filePath in r.1 then r.1[r.0.value.filePath] else 0)
  {
    match outcome
    case Raises => (None, files)
    case Downloads(filename, title, after) =>
      var (res, files') := Finish(quality, filename, title, after, Label(phase, quality));
      (Some(res), files')
  }

  /** The cascade; `files` is the filesystem before the first provider call. */
  function Download(catalog: seq<Format>, quality: string, limitMb: nat, files: FileSystem,
                    primary: ProviderOutcome, fallback: ProviderOutcome): (r: Run)
    ensures |r.requests| <= 2
    ensures r.requests == [] <==> (Resolve(catalog, quality, limitMb).None? || Resolve(catalog, quality, limitMb).value == "")
    ensures r.requests == [] ==> r.result.None? && r.files == files
    ensures |r.requests| > 0 ==> r.requests[0] == Request(Resolve(catalog, quality, limitMb).value, quality == "audio")
    ensures |r.requests| == 2 <==> |r.requests| > 0 && primary.Raises?
    ensures |r.requests| == 2 ==> r.requests[1] == Request(Selector(Fallback, quality, ""), quality == "audio")
    ensures |r.requests| == 1 ==> r.result.Some? && r.result.value.actualQuality == quality
    ensures |r.requests| == 2 ==> (r.result.Some? <==> fallback.Downloads?)
    ensures |r.requests| == 2 && r.result.Some? ==> r.result.value.actualQuality == FallbackQuality
    ensures |r.requests| == 1 ==> primary.Downloads? && r.result == Attempt(Primary, quality, primary, files).0
                                  && r.files == Attempt(Primary, quality, primary, files).1
    ensures |r.requests| == 2 ==> r.result == Attempt(Fallback, quality, fallback, files).0
                                  && r.files == Attempt(Fallback, quality, fallback, files).1
    ensures r.result.Some? && quality == "audio" ==>
              r.result.value.filePath == Mp3Path(if |r.requests| == 1 then primary.filename else fallback.filename)
    ensures r.result.Some? ==>
              (r.result.value.actualQuality != quality <==> |r.requests| == 2 && quality != FallbackQuality)
    ensures r.result.Some? ==>
              r.result.value.fileSize == (if r.result.value.filePath in r.files then r.files[r.result.value.filePath] else 0)
  {
    var chosen := Resolve(catalog, quality, limitMb);
    if chosen.None? || chosen.value == "" then
      Run([NotStarted, Unresolved], [], None, files)
    else
      var first := Request(Selector(Primary, quality, chosen.value), quality == "audio");
      var (res1, files1) := Attempt(Primary, quality, primary, files);
      if res1.Some? then
        Run([NotStarted, PrimaryAttempt, Succeeded], [first], res1, files1)
      else
        var second := Request(Selector(Fallback, quality, chosen.value), quality == "audio");
        var (res2, files2) := Attempt(Fallback, quality, fallback, files1);
        Run([NotStarted, PrimaryAttempt, FallbackAttempt, if res2.Some? then Succeeded else Failed],
            [first, second], res2, files2)
  }

  /** The transitions the cascade allows. */
  predicate Next(s: Stage, s': Stage) {
    match s
    case NotStarted => s' == PrimaryAttempt || s' == Unresolved
    case PrimaryAttempt => s' == Succeeded || s' == FallbackAttempt
    case FallbackAttempt => s' == Succeeded || s' == Failed
    case _ => false
  }

  predicate Terminal(s: Stage) {
    s == Succeeded || s == Failed || s == Unresolved
  }

  predicate IsAttempt(s: Stage) {
    s == PrimaryAttempt || s == FallbackAttempt
  }

  /** A complete run of the state machine: it starts at `NotStarted`, takes allowed steps only,
      and stops at a terminal state. */
  predicate ValidRun(stages: seq<Stage>) {
    && |stages| >= 2
    && stages[0] == NotStarted
    && (forall i :: 0 <= i < |stages| - 1 ==> Next(stages[i], stages[i + 1]))
    && Terminal(stages[|stages| - 1])
  }

  /** Every run of the machine passes through at most two attempts, the primary first and the
      fallback second, so it never returns to the primary attempt. */
  lemma {:induction false} ValidRunShape(stages: seq<Stage>)
    requires ValidRun(stages)
    ensures |stages| <= 4
    ensures forall i :: 0 < i < |stages| ==> stages[i] != NotStarted
    ensures forall i :: 1 < i < |stages| ==> stages[i] != PrimaryAttempt
  {
    assert Next(stages[0], stages[1]);
    if |stages| > 2 {
      assert stages[1] == PrimaryAttempt by { assert !Terminal(stages[1]) by { assert Next(stages[1], stages[2]); } }
      assert Next(stages[1], stages[2]);
      if |stages| > 3 {
        assert stages[2] == FallbackAttempt by { assert Next(stages[2], stages[3]); }
        assert Next(stages[2], stages[3]);
        assert |stages| > 4 ==> Next(stages[3], stages[4]);
      }
    }
  }

  /** The cascade is a run of the state machine: one request per attempt state, a result
      exactly when it ends in `Succeeded`, and an early `Unresolved` exit with no request. */
  lemma DownloadFollowsMachine(catalog: seq<Format>, quality: string, limitMb: nat, files: FileSystem,
                               primary: ProviderOutcome, fallback: ProviderOutcome)
    ensures var r := Download(catalog, quality, limitMb, files, primary, fallback);
            && ValidRun(r.stages)
            && |r.stages| == |r.requests| + 2
            && (forall i :: 1 <= i <= |r.requests| ==> IsAttempt(r.stages[i]))
            && (r.result.Some? <==> r.stages[|r.stages| - 1] == Succeeded)
            && (r.stages[|r.stages| - 1] == Unresolved <==> r.requests == [])
  {
  }
}
