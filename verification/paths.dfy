/** POSIX `os.path.splitext`, the filesystem as a map from existing paths to their sizes, and
    the reconciliation of an audio download's file name with the `.mp3` it should have. */
module Paths {
  import opened Wrappers

  type Path = string

  /** The paths that exist, each with its size in bytes. */
  type FileSystem = map<Path, nat>

  /** `s.rfind(c)`: the last position of `c` in `s`, or -1. */
  function LastIndexOf(s: string, c: char): (r: int)
    ensures -1 <= r < |s|
    ensures r >= 0 ==> s[r] == c
    ensures forall j :: r < j < |s| ==> s[j] != c
  {
    if |s| == 0 then -1
    else if s[|s| - 1] == c then |s| - 1
    else LastIndexOf(s[..|s| - 1], c)
  }

  /** Some character of `p[lo..hi]` is not a dot. */
  predicate HasNonDot(p: string, lo: int, hi: int)
    requires 0 <= lo && hi <= |p|
  {
    exists j :: lo <= j < hi && p[j] != '.'
  }

  /** `posixpath.splitext`: the extension starts at the last dot, provided that dot lies in the
      last path component and is not one of that component's leading dots. */
  function SplitExt(p: string): (r: (string, string))
    ensures r.0 + r.1 == p
    ensures r.1 == [] || (r.1[0] == '.' && '.' !in r.1[1..] && '/' !in r.1)
    ensures r.1 != [] ==> HasNonDot(r.0, LastIndexOf(r.0, '/') + 1, |r.0|)
  {
    var sep := LastIndexOf(p, '/');
    var dot := LastIndexOf(p, '.');
    if dot > sep && HasNonDot(p, sep + 1, dot) then
      assert LastIndexOf(p[..dot], '/') == sep by {
        LastIndexOfPrefix(p, '/', dot);
      }
      (p[..dot], p[dot..])
    else (p, [])
  }

  /** Cutting `s` after its last `c` leaves the last `c` where it was. */
  lemma LastIndexOfPrefix(s: string, c: char, n: nat)
    requires LastIndexOf(s, c) < n <= |s|
    ensures LastIndexOf(s[..n], c) == LastIndexOf(s, c)
  {
    var r := LastIndexOf(s[..n], c);
    var k := LastIndexOf(s, c);
    assert forall j :: 0 <= j < n ==> s[..n][j] == s[j];
  }

  /** `LastIndexOf` of a concatenation whose tail holds no `c`. */
  lemma LastIndexOfConcat(a: string, b: string, c: char)
    requires c !in b
    ensures LastIndexOf(a + b, c) == LastIndexOf(a, c)
  {
    assert forall j :: 0 <= j < |a| ==> (a + b)[j] == a[j];
    assert forall j :: |a| <= j < |a + b| ==> (a + b)[j] == b[j - |a|];
  }

  /** The last dot of `base + ext` is the one that starts `ext`, when `ext` holds no other. */
  lemma LastDotOfJoin(base: string, ext: string)
    requires |ext| > 0 && ext[0] == '.' && '.' !in ext[1..]
    ensures LastIndexOf(base + ext, '.') == |base|
  {
    var p := base + ext;
    assert p[|base|] == '.';
    assert forall j :: |base| < j < |p| ==> p[j] == ext[1..][j - |base| - 1];
  }

  /** A non-dot character of `base[lo..hi]` is still there in `base + ext`. */
  lemma HasNonDotJoin(base: string, ext: string, lo: nat, hi: nat)
    requires lo <= hi <= |base|
    requires HasNonDot(base, lo, hi)
    ensures HasNonDot(base + ext, lo, hi)
  {
    var j :| lo <= j < hi && base[j] != '.';
    assert (base + ext)[j] == base[j];
  }

  /** Round trip: joining a base whose last component has a non-dot character with a
      dot-led extension holding no further dot or slash splits back into the same two parts. */
  lemma SplitExtJoin(base: string, ext: string)
    requires HasNonDot(base, LastIndexOf(base, '/') + 1, |base|)
    requires |ext| > 0 && ext[0] == '.' && '.' !in ext[1..] && '/' !in ext
    ensures SplitExt(base + ext) == (base, ext)
  {
    var p := base + ext;
    LastIndexOfConcat(base, ext, '/');
    LastDotOfJoin(base, ext);
    HasNonDotJoin(base, ext, LastIndexOf(base, '/') + 1, |base|);
    assert p[..|base|] == base;
    assert p[|base|..] == ext;
  }

  /** `os.rename(src, dst)` on a filesystem where `src` exists. */
  function Rename(files: FileSystem, src: Path, dst: Path): (r: FileSystem)
    requires src in files
    ensures dst in r && r[dst] == files[src]
    ensures src != dst ==> src !in r
    ensures forall q :: q != src && q != dst ==> (q in r <==> q in files) && (q in r ==> r[q] == files[q])
  {
    (files - {src})[dst := files[src]]
  }

  /** `os.remove(path)` when it exists; nothing otherwise. */
  function Remove(files: FileSystem, path: Path): (r: FileSystem)
    ensures path !in r
    ensures forall q :: q != path ==> (q in r <==> q in files) && (q in r ==> r[q] == files[q])
  {
    files - {path}
  }

  /** The container extensions searched, in order, when the converted `.mp3` is missing. */
  const AudioExtensions: seq<string> := [".webm", ".m4a", ".opus", ".mp3"]

  /** The position of the first extension in `exts[i..]` for which `base + ext` exists. */
  function FirstExisting(base: Path, exts: seq<string>, files: FileSystem, i: nat): (r: Option<nat>)
    requires i <= |exts|
    ensures r.Some? ==> i <= r.value < |exts| && base + exts[r.value] in files
    ensures r.Some? ==> forall j :: i <= j < r.value ==> base + exts[j] !in files
    ensures r.None? ==> forall j :: i <= j < |exts| ==> base + exts[j] !in files
    decreases |exts| - i
  {
    if i == |exts| then None
    else if base + exts[i] in files then Some(i)
    else FirstExisting(base, exts, files, i + 1)
  }

  /** The path an audio download ends up at: the produced name with its extension forced to
      `.mp3`. */
  function Mp3Path(filename: Path): (r: Path)
    ensures |r| >= 4 && r[|r| - 4..] == ".mp3"
    ensures var base := SplitExt(filename).0;
            HasNonDot(base, LastIndexOf(base, '/') + 1, |base|) ==> SplitExt(r) == (base, ".mp3")
  {
    var base := SplitExt(filename).0;
    if HasNonDot(base, LastIndexOf(base, '/') + 1, |base|) then
      SplitExtJoin(base, ".mp3");
      base + ".mp3"
    else base + ".mp3"
  }

  /** The audio rename: keep the `.mp3` if it exists; otherwise rename the first existing file
      with the same base among `.webm`, `.m4a`, `.opus`, `.mp3` to it; otherwise change nothing.
      The returned path is the `.mp3` one whatever happened. */
  function ReconcileAudio(filename: Path, files: FileSystem): (r: (Path, FileSystem))
    ensures r.0 == Mp3Path(filename)
    ensures r.0 in r.1 <==> (r.0 in files || exists j :: 0 <= j < |AudioExtensions|
                                                          && SplitExt(filename).0 + AudioExtensions[j] in files)
    ensures r.0 in files ==> r.1 == files
  {
    var base := SplitExt(filename).0;
    var target := base + ".mp3";
    if target in files then (target, files)
    else
      match FirstExisting(base, AudioExtensions, files, 0)
      case None => (target, files)
      case Some(i) =>
        if AudioExtensions[i] != ".mp3" then (target, Rename(files, base + AudioExtensions[i], target))
        else (target, files)
  }

  /** When the `.mp3` is missing, the first existing alternate (in the order `.webm`, `.m4a`,
      `.opus`) is moved to it, keeping its size, and every other path is left as it was; when
      there is none, nothing changes and the `.mp3` still does not exist. */
  lemma ReconcileRenamesFirstAlternate(filename: Path, files: FileSystem)
    requires Mp3Path(filename) !in files
    ensures var base := SplitExt(filename).0;
            var r := ReconcileAudio(filename, files);
            && (forall k :: 0 <= k < 3 && base + AudioExtensions[k] in files
                            && (forall j :: 0 <= j < k ==> base + AudioExtensions[j] !in files)
                            ==> r.1 == Rename(files, base + AudioExtensions[k], Mp3Path(filename)))
            && ((forall j :: 0 <= j < |AudioExtensions| ==> base + AudioExtensions[j] !in files)
                ==> r.1 == files && r.0 !in r.1)
  {
    var base := SplitExt(filename).0;
    assert base + AudioExtensions[3] == Mp3Path(filename);
    forall k | 0 <= k < 3 && base + AudioExtensions[k] in files
               && (forall j :: 0 <= j < k ==> base + AudioExtensions[j] !in files)
      ensures ReconcileAudio(filename, files).1 == Rename(files, base + AudioExtensions[k], Mp3Path(filename))
    {
      var i := FirstExisting(base, AudioExtensions, files, 0);
      assert i == Some(k);
    }
  }

  /** Forcing `.mp3` is idempotent when the base keeps a real file name: the reconciled name
      is its own `.mp3` name. */
  lemma Mp3PathIdempotent(filename: Path)
    requires HasNonDot(SplitExt(filename).0, LastIndexOf(SplitExt(filename).0, '/') + 1, |SplitExt(filename).0|)
    ensures Mp3Path(Mp3Path(filename)) == Mp3Path(filename)
  {
    SplitExtJoin(SplitExt(filename).0, ".mp3");
  }
}
