/** The format catalog reported by the extractor, and how the resolver partitions it. */
module Formats {
  import opened Wrappers

  /** One entry of the catalog. A field that is `None` is a key the entry does not carry:
      `vcodec`/`acodec` hold codec names (the extractor writes "none" for an absent stream),
      `height` is in pixels, `abr` is the audio bitrate and `filesize` is the advisory size in bytes. */
  datatype Format = Format(
    id: string,
    vcodec: Option<string>,
    acodec: Option<string>,
    height: Option<nat>,
    abr: Option<real>,
    filesize: Option<nat>)

  const Mebibyte: nat := 1048576

  /** The byte budget `MAX_FILE_SIZE * 1024 * 1024` for a limit given in megabytes. */
  function Budget(limitMb: nat): nat {
    limitMb * Mebibyte
  }

  /** A format with a video stream and an audio stream (a missing codec key counts as present). */
  predicate HasVideoAndAudio(f: Format) {
    f.vcodec != Some("none") && f.acodec != Some("none")
  }

  /** An audio-only format. */
  predicate IsAudioOnly(f: Format) {
    f.vcodec == Some("none") && f.acodec != Some("none")
  }

  /** The size test of the resolver: the size must be truthy (known and non-zero) and strictly
      below the budget. */
  predicate Fits(f: Format, budget: int) {
    f.filesize.Some? && f.filesize.value != 0 && f.filesize.value < budget
  }

  /** `fmt.get('abr', 0)` */
  function AbrKey(f: Format): real {
    f.abr.GetOr(0.0)
  }

  /** `fmt.get('height', 0)` */
  function HeightKey(f: Format): real {
    f.height.GetOr(0) as real
  }

  /** A list comprehension `[f for f in s if p(f)]`. */
  function Filter(s: seq<Format>, p: Format -> bool): (r: seq<Format>)
    ensures |r| <= |s|
    ensures forall x :: x in r ==> x in s && p(x)
    ensures forall i :: 0 <= i < |s| && p(s[i]) ==> s[i] in r
  {
    if s == [] then [] else (if p(s[0]) then [s[0]] else []) + Filter(s[1..], p)
  }

  function VideoFormats(catalog: seq<Format>): seq<Format> {
    Filter(catalog, HasVideoAndAudio)
  }

  function AudioFormats(catalog: seq<Format>): seq<Format> {
    Filter(catalog, IsAudioOnly)
  }

  /** Filtering distributes over concatenation, so it keeps catalog order. */
  lemma {:induction false} FilterConcat(a: seq<Format>, b: seq<Format>, p: Format -> bool)
    ensures Filter(a + b, p) == Filter(a, p) + Filter(b, p)
    decreases |a|
  {
    if a == [] {
      assert a + b == b;
    } else {
      assert (a + b)[1..] == a[1..] + b;
      FilterConcat(a[1..], b, p);
    }
  }

  /** The head of a filtered list is the first catalog entry that passes the filter. */
  lemma {:induction false} FilterHead(s: seq<Format>, p: Format -> bool)
    requires |Filter(s, p)| > 0
    ensures exists k :: 0 <= k < |s| && p(s[k]) && Filter(s, p)[0] == s[k]
                        && forall j :: 0 <= j < k ==> !p(s[j])
    decreases |s|
  {
    if p(s[0]) {
      assert Filter(s, p)[0] == s[0];
    } else {
      assert Filter(s, p) == Filter(s[1..], p);
      FilterHead(s[1..], p);
      var k :| 0 <= k < |s[1..]| && p(s[1..][k]) && Filter(s[1..], p)[0] == s[1..][k]
               && forall j :: 0 <= j < k ==> !p(s[1..][j]);
      assert forall j :: 0 <= j < k + 1 ==> !p(s[j]) by {
        forall j | 0 <= j < k + 1 ensures !p(s[j]) {
          if j > 0 { assert s[j] == s[1..][j - 1]; }
        }
      }
    }
  }

  /** The filtered list is empty exactly when no catalog entry passes the filter. */
  lemma FilterEmpty(s: seq<Format>, p: Format -> bool)
    ensures Filter(s, p) == [] <==> forall i :: 0 <= i < |s| ==> !p(s[i])
  {
    if Filter(s, p) != [] {
      assert Filter(s, p)[0] in Filter(s, p);
    }
  }

  /** No format is both a video+audio format and an audio-only format. */
  lemma PartitionDisjoint(f: Format)
    ensures !(HasVideoAndAudio(f) && IsAudioOnly(f))
  {
  }
}
