/** The inline-keyboard callback data: `f"{quality}_{url}"` on the way out and
    `data.split('_', 1)` on the way back. */
module Callback {
  import opened Wrappers

  /** `s.find(c)`: the first position of `c` in `s`, or -1. */
  function FirstIndexOf(s: string, c: char): (r: int)
    ensures -1 <= r < |s|
    ensures r >= 0 ==> s[r] == c
    ensures forall j :: 0 <= j < |s| && (r == -1 || j < r) ==> s[j] != c
  {
    if |s| == 0 then -1
    else if s[0] == c then 0
    else
      var r := FirstIndexOf(s[1..], c);
      if r == -1 then -1 else r + 1
  }

  /** The qualities the keyboard offers. */
  const KeyboardQualities: seq<string> := ["144", "240", "360", "480", "720", "audio"]

  /** `f"{quality}_{url}"`: for a quality without an underscore, the separator written is the
      first underscore of the data. */
  function Encode(quality: string, url: string): (r: string)
    ensures '_' !in quality ==> FirstIndexOf(r, '_') == |quality|
  {
    var r := quality + "_" + url;
    assert r[|quality|] == '_';
    assert forall j :: 0 <= j < |quality| ==> r[j] == quality[j];
    r
  }

  /** `split('_', 1)` accepted only when it yields two parts: the text before the first
      underscore and everything after it. Data without an underscore is rejected. */
  function Parse(data: string): (r: Option<(string, string)>)
    ensures r.None? <==> '_' !in data
    ensures r.Some? ==> '_' !in r.value.0 && data == r.value.0 + "_" + r.value.1
  {
    var i := FirstIndexOf(data, '_');
    if i == -1 then None
    else
      assert data == data[..i] + "_" + data[i + 1..];
      Some((data[..i], data[i + 1..]))
  }

  /** Decoding undoes encoding for any quality without an underscore, whatever the URL holds. */
  lemma ParseEncode(quality: string, url: string)
    requires '_' !in quality
    ensures Parse(Encode(quality, url)) == Some((quality, url))
  {
    var d := Encode(quality, url);
    assert d[|quality|] == '_';
    assert forall j :: 0 <= j < |quality| ==> d[j] == quality[j];
    var i := FirstIndexOf(d, '_');
    assert i == |quality|;
    assert d[..i] == quality;
    assert d[i + 1..] == url;
  }

  /** Encoding undoes decoding: accepted data is exactly an encoded pair whose quality has no
      underscore. */
  lemma EncodeParse(data: string)
    requires Parse(data).Some?
    ensures Encode(Parse(data).value.0, Parse(data).value.1) == data
    ensures '_' !in Parse(data).value.0
  {
    var i := FirstIndexOf(data, '_');
    assert data == data[..i] + "_" + data[i + 1..];
  }

  /** Parsing rejects exactly the data that holds no underscore. */
  lemma ParseRejects(data: string)
    ensures Parse(data).None? <==> '_' !in data
  {
  }

  /** Every keyboard button's data decodes back to its quality and the URL. */
  lemma KeyboardRoundTrip(i: nat, url: string)
    requires i < |KeyboardQualities|
    ensures Parse(Encode(KeyboardQualities[i], url)) == Some((KeyboardQualities[i], url))
  {
    ParseEncode(KeyboardQualities[i], url);
  }

  /** No keyboard button's data is the membership button's `"check_membership"`: every
      keyboard quality starts with a digit or `a`. */
  lemma KeyboardDataIsNotMembership(i: nat, url: string)
    requires i < |KeyboardQualities|
    ensures Encode(KeyboardQualities[i], url) != "check_membership"
  {
    var q := KeyboardQualities[i];
    assert q[0] != 'c';
    assert Encode(q, url)[0] == q[0];
  }
}
