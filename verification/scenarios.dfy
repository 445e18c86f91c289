/** Concrete runs of the model on small catalogs. */
module Scenarios {
  import opened Wrappers
  import opened Formats
  import opened Selection
  import opened Resolver
  import opened Paths
  import opened Cascade
  import opened Delivery

  const MB: nat := Mebibyte

  function Muxed(id: string, height: nat, size: nat): Format {
    Format(id, Some("avc1"), Some("mp4a"), Some(height), None, Some(size))
  }

  function AudioOnly(id: string, abr: real, size: nat): Format {
    Format(id, Some("none"), Some("opus"), None, Some(abr), Some(size))
  }

  /** A 360p request with a 10 MB 360p format and an 80 MB 720p format under a 50 MB limit
      resolves to the 360p format. */
  lemma ExactHeightUnderBudget()
    ensures Resolve([Muxed("a", 360, 10 * MB), Muxed("b", 720, 80 * MB)], "360", 50) == Some("a")
  {
    var catalog := [Muxed("a", 360, 10 * MB), Muxed("b", 720, 80 * MB)];
    assert catalog[1..] == [catalog[1]];
    assert Filter(catalog[1..], HasVideoAndAudio) == [catalog[1]];
    assert VideoFormats(catalog) == catalog;
    ExactTierPreferred(catalog, "360", 50, 360, 0);
  }

  /** A lone 80 MB 720p format: the walk finds nothing under 50 MB, the last resort returns it
      anyway, and the guard then rejects the 80 MB file and removes it. */
  lemma LastResortThenGuardRejects(files: FileSystem)
    requires "dl/v.mp4" !in files
    ensures Resolve([Muxed("b", 720, 80 * MB)], "360", 50) == Some("b")
    ensures HandleSelection("360", [Muxed("b", 720, 80 * MB)], 50, files,
                            Downloads("dl/v.mp4", Some("v"), files["dl/v.mp4" := 80 * MB]), Raises, Sent, Removes)
            == Handled(TooLarge(80 * MB, 50), files)
  {
    var catalog := [Muxed("b", 720, 80 * MB)];
    LastResortPicksOversized(catalog);
    var after := files["dl/v.mp4" := 80 * MB];
    var run := Download(catalog, "360", 50, files, Downloads("dl/v.mp4", Some("v"), after), Raises);
    OversizedDownload(catalog, files, after);
    assert HandleSelection("360", catalog, 50, files, Downloads("dl/v.mp4", Some("v"), after), Raises, Sent, Removes)
           == Deliver("360", run, 50, Sent, Removes);
    OversizedRejected(run, files, after);
  }

  /** The walk finds nothing under 50 MB, so the last resort returns the 80 MB format. */
  lemma LastResortPicksOversized(catalog: seq<Format>)
    requires catalog == [Muxed("b", 720, 80 * MB)]
    ensures Resolve(catalog, "360", 50) == Some("b")
  {
    assert VideoFormats(catalog) == catalog;
    assert !Fits(catalog[0], Budget(50));
    assert NoneFit(catalog, Budget(50));
    assert Walk(catalog, Priority("360"), Budget(50)).None?;
    LastResort(catalog, "360", 50);
  }

  /** The primary attempt downloads the 80 MB file and reports the requested tier. */
  lemma OversizedDownload(catalog: seq<Format>, files: FileSystem, after: FileSystem)
    requires Resolve(catalog, "360", 50) == Some("b")
    requires after == files["dl/v.mp4" := 80 * MB]
    ensures var run := Download(catalog, "360", 50, files, Downloads("dl/v.mp4", Some("v"), after), Raises);
            run.result == Some(DownloadResult("dl/v.mp4", "v", 80 * MB, "360")) && run.files == after
  {
  }

  /** The guard rejects the 80 MB file and removes it, leaving the filesystem as it was. */
  lemma OversizedRejected(run: Run, files: FileSystem, after: FileSystem)
    requires "dl/v.mp4" !in files && after == files["dl/v.mp4" := 80 * MB]
    requires run.result == Some(DownloadResult("dl/v.mp4", "v", 80 * MB, "360")) && run.files == after
    ensures Deliver("360", run, 50, Sent, Removes) == Handled(TooLarge(80 * MB, 50), files)
  {
    assert OverLimit(80 * MB, 50);
    assert after - {"dl/v.mp4"} == files;
  }

  /** A single 60 MB audio format under a 50 MB limit: the resolver relaxes the budget and
      returns it. */
  lemma AudioRelaxed()
    ensures Resolve([AudioOnly("x", 160.0, 60 * MB)], "audio", 50) == Some("x")
  {
    var catalog := [AudioOnly("x", 160.0, 60 * MB)];
    assert AudioFormats(catalog) == catalog;
    assert NoneFit(catalog, Budget(50));
    AudioRelaxesBudget(catalog, 50);
  }

  /** The primary download fails and the fallback succeeds: the result is reported as
      `best_available`, not as the requested tier. */
  lemma FallbackReported(files: FileSystem)
    ensures var r := Download([Muxed("a", 360, 10 * MB)], "360", 50, files,
                              Raises, Downloads("dl/v.mp4", None, files["dl/v.mp4" := 9]));
            && r.requests == [Request("a", false), Request("best[filesize<50M]/best", false)]
            && r.result == Some(DownloadResult("dl/v.mp4", "Unknown", 9, "best_available"))
  {
    ExactHeightUnderBudget();
  }
}
