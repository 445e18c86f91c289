# YouTube downloader bot: quality resolution and download fallback

This project models the core of a Telegram bot that downloads YouTube media at a quality the
user picks from an inline keyboard (`new2.py`). It covers:

- the **format resolver** `get_best_available_format`. It splits the extractor's catalog into
  video+audio and audio-only formats. It picks the highest-bitrate audio format for `'audio'`.
  For the other tiers it walks a fixed per-tier priority table of exact heights and a `'best'`
  sentinel. Its last resort is the first video+audio format, whatever its size;
- the **download cascade** `download_video_robust`: one primary download with the resolved
  format id, then at most one fallback with a provider-native selector. A primary success
  reports the requested tier; a fallback success reports `'best_available'`;
- the **audio file-name reconciliation**: POSIX `os.path.splitext`, forcing `.mp3`, and
  renaming the first existing `.webm`/`.m4a`/`.opus`/`.mp3` sibling;
- the **size guard and clean-up** of `handle_quality_selection`, and the parsing of the
  keyboard's callback data;
- two small helpers: the new-year countdown split into days, hours, minutes and seconds, and
  the digit-to-bold-digit font.

Everything is pure. The extractor's catalog is a `seq<Format>`. What each provider call does
(raise, or report a file name, a title and the filesystem it left behind) is an input. The
filesystem is a `map<Path, nat>` from existing paths to their sizes. The upload outcome is an
input too. So is the outcome of each `os.remove`, whose failure the code swallows.

Modules: `Wrappers` (Option), `Formats` (format record, partition, filter), `Selection`
(the two scans), `Resolver`, `Paths`, `Cascade`, `Delivery`, `Callback`, `Profile`, and
`Scenarios` (concrete runs).

Behaviour of the code worth noting:

- The size test is strict (`filesize < budget`), needs a known size, and treats a size of 0 as
  unknown. It is not "size, if known, at most the budget".
- The cascade resolves the format before any attempt. An unresolved format ends the run at
  once (`Unresolved`), with no attempt. Also, an empty `format_id` is falsy in Python, so it
  counts as unresolved.
- A missing audio file is not a separate failure of the download. The download returns the
  `.mp3` path with size 0, and the handler then answers "file not found". A file the provider
  produced under some other extension is left on disk.
- Entries that follow `'best'` in the table can never match. This is proved in
  `Resolver.StepsAfterBestUnreachable` and `Resolver.TrailingEntriesDead`.

## Model

| member | source | states |
|---|---|---|
| Formats.Filter | new2.py:183-184 | the comprehension keeps only entries passing the test, and keeps every such entry |
| Formats.FilterConcat | new2.py:183-184 | filtering distributes over concatenation, so the filtered lists keep catalog order |
| Formats.FilterHead | new2.py:183-184 | the head of a filtered list is the first catalog entry passing the test |
| Formats.FilterEmpty | new2.py:183-184 | a filtered list is empty exactly when no catalog entry passes the test |
| Formats.PartitionDisjoint | new2.py:183-184 | no format is both video+audio and audio-only |
| Selection.ScanFrom | new2.py:188-192 | the running-maximum loop only ever holds a format that fits the budget, and once it holds one it never drops back to none |
| Selection.ScanFromSpec | new2.py:219-223 | loop invariant of the running maximum: what it has seen holds no fitting format, or the carried one is the first maximum among the fitting ones |
| Selection.BestFitting | new2.py:188-194 | the scan yields nothing exactly when no format fits; otherwise it yields the first format of maximal key among those that fit (strict `>` keeps the earliest on ties) |
| Selection.FirstMaxUnique | new2.py:191 | the first maximum is unique, so the scan's result is determined by its contract |
| Selection.FirstAtHeight | new2.py:229-232 | the exact-height step returns the first format with that height and a truthy size below the budget; with none, it returns nothing |
| Selection.NoFitNoHeight | new2.py:217-232 | if the `'best'` step finds no fitting format, no exact-height step can match |
| Resolver.ParseTier | new2.py:187-213 | only the string `'audio'` names the audio branch and only `'best'` names the best tier; a string is unrecognised exactly when it is none of `'144'`, `'240'`, `'360'`, `'480'`, `'720'`, `'best'`, `'audio'` |
| Resolver.ParseTierName | new2.py:187-213 | parsing and the table's names are inverse: a recognised string is the name of its tier, and each tier parses back from its name, so no two strings share a tier |
| Resolver.TierSteps | new2.py:201-213 | each numeric tier's six-entry list starts with its own height, the best tier's with the sentinel; the audio tier and unknown strings have no list |
| Resolver.PriorityListsArePermutations | new2.py:201-213 | each tier's list orders all five heights and `'best'`, each exactly once; any other tier has an empty list |
| Resolver.ParseNumericTiers | new2.py:202-213 | the strings `'144'` to `'720'` name the heights they spell; `'best'` and `'audio'` name their branches |
| Resolver.Walk | new2.py:216-232 | the walk yields a format that fits the budget, and yields nothing exactly when every entry of the list yields nothing |
| Resolver.WalkFirstMatch | new2.py:216-232 | the walk returns what the first productive entry yields; every earlier entry yields nothing |
| Resolver.StepsAfterBestUnreachable | new2.py:209-225 | entries placed after `'best'` never change the walk's outcome |
| Resolver.TrailingEntriesDead | new2.py:209-213 | for tiers 480, 720 and best the walk equals the walk cut just after `'best'` |
| Resolver.ChooseTier | new2.py:183-238 | the chosen record comes from the catalog; for the audio tier it is audio-only; for every other tier it has video and audio |
| Resolver.Choose | new2.py:187-238 | the same, for the tier string: only `'audio'` takes the audio branch |
| Resolver.Resolve | new2.py:164-242 | a `format_id` is returned exactly when a record is chosen, and it is that chosen record's `format_id` |
| Resolver.AudioPicksHighestBitrate | new2.py:187-194 | when an audio-only format fits, the result is the first one of maximal `abr` among those that fit |
| Resolver.AudioRelaxesBudget | new2.py:195-197 | when no audio-only format fits, the result is the first audio-only format of the catalog, whatever its size |
| Resolver.AudioNoneIffNoAudio | new2.py:196-198 | the audio tier gives no result exactly when the catalog has no audio-only format |
| Resolver.ExactTierPreferred | new2.py:201-232 | for tiers 144 to 720, if some video+audio format of the requested height fits, the result is the first such format |
| Resolver.BestTierPicksTallest | new2.py:212-225 | for `'best'`, if some video+audio format fits, the result is the first of maximal height among those that fit |
| Resolver.LastResort | new2.py:234-238 | when the walk yields nothing, the result is the first video+audio format of the catalog (size ignored), or nothing if there is none |
| Resolver.VideoNoneIffNoVideo | new2.py:235-238 | a non-audio tier gives no result exactly when the catalog has no video+audio format |
| Resolver.UnknownTierFallsThrough | new2.py:201-238 | a tier string outside the seven the code names (for example `'1080'` or `'best_available'`) has an empty list and goes straight to the last resort |
| Resolver.WalkResultFits | new2.py:216-232 | when the walk over the tier's list yields a format, that format is the result, so the table's fallback order decides it; it fits the budget |
| Paths.SplitExt | new2.py:279 | `splitext` splits the path into base and extension that rejoin to it; the extension is empty or a single dot-led suffix of the last component, never its leading dots |
| Paths.SplitExtJoin | new2.py:279-280 | round trip: a base with a real last component joined with such an extension splits back into the same two parts |
| Paths.Mp3Path | new2.py:279-280 | the forced path ends in `.mp3`; when the base has a real last component, splitting it gives back that base and `.mp3` |
| Paths.Mp3PathIdempotent | new2.py:279-280 | when the base that `splitext` leaves has a non-dot character in its last component, forcing `.mp3` twice gives the same path as forcing it once (without that condition it fails: `dir/..` becomes `dir/...mp3`, then `dir/...mp3.mp3`) |
| Paths.Rename | new2.py:286 | after the rename the target holds the source's size, the source is gone, and every other path is unchanged |
| Paths.Remove | new2.py:505 | after removal the path does not exist and every other path is unchanged |
| Paths.FirstExisting | new2.py:282-287 | the scan stops at the first extension whose sibling exists, in list order |
| Paths.ReconcileAudio | new2.py:278-287 | the returned path is always the `.mp3` one; it exists afterwards exactly when it or some listed sibling existed before; an existing `.mp3` changes nothing |
| Paths.ReconcileRenamesFirstAlternate | new2.py:281-287 | with the `.mp3` missing, the first existing `.webm`/`.m4a`/`.opus` sibling is moved to it; with none, nothing changes and the `.mp3` does not exist |
| Cascade.Selector | new2.py:306-313 | the fallback asks for the audio selector exactly for the audio tier and for the video selector otherwise |
| Cascade.Label | new2.py:291-342 | the reported quality equals the request exactly after the primary attempt, or when the request was literally `'best_available'` |
| Cascade.Finish | new2.py:277-296 | an audio result's path is the `.mp3` path and the filesystem is the one the `.mp3` reconciliation leaves; a video result's path is the provider's file name on the provider's filesystem; the size is read from that filesystem (0 if missing), and the title defaults to `'Unknown'` |
| Cascade.Attempt | new2.py:273-343 | one provider call gives a result exactly when the provider downloads, labelled with the phase's quality; its path is the `.mp3` path of the provider's file name for audio (on the reconciled filesystem) and that file name otherwise (on the provider's filesystem); its size is the size of that path afterwards, or 0 if it is missing; its title is the provider's, or `'Unknown'`; a raising call leaves the filesystem as it was |
| Cascade.Download | new2.py:244-347 | no request and no result when no format resolves; a primary success makes one request and reports the requested tier; a primary failure makes exactly one fallback request with `'best[filesize<50M]/best'` (or the `bestaudio` form for audio); a fallback success reports `'best_available'`; two failures give no result; the result and the final filesystem are those of the attempt that made the last request, so an audio result's path is the `.mp3` path of that attempt's file name, and every result's size is the size of its path in the final filesystem, or 0; the reported quality differs from the request exactly after a fallback, unless the request was `'best_available'` |
| Cascade.ValidRunShape | new2.py:298-347 | any run of the state machine has at most two attempts, primary then fallback, and never returns to the primary attempt |
| Cascade.DownloadFollowsMachine | new2.py:244-347 | every cascade run is a valid run of the state machine, with one request per attempt state and a result exactly when it ends in `Succeeded` |
| Delivery.OverLimit | new2.py:500-503 | the integer test `size > limit * 1048576` holds exactly when the byte count divided by 1024 twice exceeds the limit |
| Delivery.GuardBoundary | new2.py:503 | a file of exactly the budget passes the guard, while a catalog size of exactly the budget does not fit in the resolver |
| Delivery.Deliver | new2.py:488-559 | after the cascade: no result gives "download failed"; a missing file gives "not found"; an existing file is rejected exactly when it is over the limit, with its size; an existing file within the limit goes to the upload and the reply follows its outcome; after a result, only its file is removed (if the removal succeeds); a delivery carries the caveat exactly when the reported quality differs from the request |
| Delivery.HandleSelection | new2.py:482-559 | no download when no format resolves; a missing file is reported as not found; an existing file is rejected exactly when it is over the limit, and the rejection carries its size; an existing file within the limit goes to the upload, and the reply follows the upload's outcome; after a download result, only its file is removed (if the removal succeeds); the caveat is shown exactly when the fallback was used and its label differs from the request |
| Delivery.HandleCallback | new2.py:458-470 | the membership button gets the membership reply and starts nothing; data with no underscore (other than the membership button) is rejected before anything else happens; accepted data goes on to the selection with the quality before its first underscore |
| Delivery.KeyboardButtonSelects | new2.py:434-470 | every keyboard button's data reaches the selection with that button's own quality, whatever the URL |
| Delivery.TryRemove | new2.py:504-507 | a successful removal deletes the path; a raising one leaves the filesystem as it was; no other path changes either way |
| Delivery.TemporaryFileRemoved | new2.py:554-559 | after any run with a download result, that file no longer exists if its removal succeeds, whatever the upload did; if the removal raises, the file stays; no other path is touched |
| Delivery.RemovalFailureNotEscalated | new2.py:555-559 | a failed removal never changes the reply |
| Delivery.NeverUploadsOverLimit | new2.py:500-540 | an upload only starts on an existing file within the budget |
| Delivery.ExactBudgetIsUploaded | new2.py:500-540 | a downloaded file of exactly the budget is not rejected: it goes to the upload |
| Callback.Encode | new2.py:435-440 | for a quality without an underscore, the separator the button writes is the data's first underscore |
| Callback.Parse | new2.py:465-470 | data is rejected exactly when it has no underscore; accepted data is the parsed quality, an underscore and the parsed URL, and that quality has no underscore |
| Callback.KeyboardDataIsNotMembership | new2.py:435-458 | no keyboard button's data equals the membership button's `check_membership` |
| Callback.ParseEncode | new2.py:435-440 | parsing an encoded button returns its quality and URL, for any URL, underscores included |
| Callback.EncodeParse | new2.py:465-470 | accepted data is exactly an encoded pair whose quality has no underscore |
| Callback.ParseRejects | new2.py:465-468 | parsing rejects exactly the data with no underscore |
| Callback.KeyboardRoundTrip | new2.py:434-441 | every keyboard button's data parses back to its own quality and the URL |
| Profile.Countdown | new2.py:51-56 | `days*86400 + hours*3600 + minutes*60 + seconds` equals the input, with hours below 24 and minutes and seconds below 60 |
| Profile.CountdownUnique | new2.py:51-56 | this is the only decomposition within those bounds |
| Profile.ToBold | new2.py:38-40 | the converted text has the same length, and each character is mapped through the table or kept |
| Profile.BoldDigitsContiguous | new2.py:29-32 | the table covers exactly the ASCII digits, mapping each to `0x1D7EC + digit` |
| Profile.BoldRoundTrip | new2.py:38-40 | the converted text has no ASCII digit, and undoing the font gives back any text that had no bold digit |
| Profile.ToBoldIdempotent | new2.py:38-40 | converting twice is the same as converting once |
| Scenarios.ExactHeightUnderBudget | new2.py:206-232 | a 360p request with a 10 MB 360p format and an 80 MB 720p format under 50 MB resolves to the 360p format |
| Scenarios.LastResortThenGuardRejects | new2.py:235-236 | a lone 80 MB 720p format is returned by the last resort; after download, the guard rejects it and removes it |
| Scenarios.AudioRelaxed | new2.py:195-197 | a lone 60 MB audio format is returned despite a 50 MB budget |
| Scenarios.FallbackReported | new2.py:298-343 | a failed primary download followed by a successful fallback reports `'best_available'` |

## Left out

- Telegram plumbing: the handlers, keyboards, message texts, `reply_audio`/`reply_video`, the
  timeouts and `is_user_member`. These are UI and network I/O. The membership gate is assumed
  passed. The upload is an input with three outcomes.
- `yt_dlp`: `extract_info` and `prepare_filename` are foreign-library calls. The catalog and
  each attempt's outcome are parameters. `get_available_formats` and `get_video_info` are not
  modelled. What the selectors mean to the provider is not modelled either: the model records
  which selector was requested, not what it picks.
- The handler and the cascade each fetch the catalog. The model assumes both fetches return
  the same catalog.
- A provider call that raises is modelled as leaving the filesystem unchanged. Partial writes
  are not modelled.
- `os.rename` and `os.path.getsize` are assumed to succeed. In the source, an exception there
  would also send the primary path to the fallback.
- Resolver.ChooseTier: does not model the `TypeError` raised when `abr` or `height` is
  present but `None`. That error makes the source return `None` (new2.py:240-242). In the
  model, `None` means the key is absent, which defaults to 0 in the maximum scans and never
  equals a target height. Non-numeric extractor values are out of scope.
- `MAX_FILE_SIZE` comes from `config`, which is not part of this model. It is taken to be a
  natural number of megabytes. The comparison on Python floats is exact for file sizes below
  2^53 bytes. `Delivery.OverLimit` proves the matching rational identity.
- `abr` is a Dafny `real`, an exact rational. Float rounding and NaN are not modelled.
- The background updater, `update_bot_info_manually`, `shutdown`, signal handlers,
  `initialize_bot`, `main` and the module globals are concurrency and process lifecycle.
- The clock: `datetime.utcnow`, `strftime` and the `int(total_seconds())` truncation. The
  countdown is modelled from a given number of seconds. The `:.1f` display formatting and the
  `quality_names` display table are not modelled.
- The URL regular expression depends on the semantics of Python's `re` library.
