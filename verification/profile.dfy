/** The arithmetic behind the profile text: the countdown to the new year split into days,
    hours, minutes and seconds, and the digit-to-bold-digit font. */
module Profile {

  /** `days, hours, minutes, seconds` from a number of seconds. Python's `//` and `%` by a
      positive divisor floor, which is what Dafny's `/` and `%` do here, negative input included. */
  function Countdown(secondsLeft: int): (r: (int, nat, nat, nat))
    ensures r.0 * 86400 + r.1 * 3600 + r.2 * 60 + r.3 == secondsLeft
    ensures r.1 < 24 && r.2 < 60 && r.3 < 60
    ensures secondsLeft >= 0 ==> r.0 >= 0
  {
    var days := secondsLeft / 86400;
    var rest := secondsLeft % 86400;
    var hours := rest / 3600;
    var rest' := rest % 3600;
    (days, hours, rest' / 60, rest' % 60)
  }

  /** The decomposition is the only one with hours below 24 and minutes and seconds below 60. */
  lemma CountdownUnique(d: int, h: nat, m: nat, s: nat)
    requires h < 24 && m < 60 && s < 60
    ensures Countdown(d * 86400 + h * 3600 + m * 60 + s) == (d, h, m, s)
  {
    var total := d * 86400 + h * 3600 + m * 60 + s;
    var below := h * 3600 + m * 60 + s;
    assert 0 <= below < 86400;
    DivModUnique(total, 86400, d, below);
    var inner := m * 60 + s;
    assert 0 <= inner < 3600;
    DivModUnique(below, 3600, h, inner);
    DivModUnique(inner, 60, m, s);
  }

  /** Floor division and remainder are determined by `n == q * k + r` with `0 <= r < k`. */
  lemma DivModUnique(n: int, k: int, q: int, r: int)
    requires k > 0 && 0 <= r < k && n == q * k + r
    ensures n / k == q && n % k == r
  {
    var q', r' := n / k, n % k;
    assert q' * k + r' == q * k + r;
    if q' < q {
      assert (q - q') * k == r' - r;
      assert (q - q') * k >= k by { MulAtLeast(q - q', k); }
    } else if q < q' {
      assert (q' - q) * k == r - r';
      assert (q' - q) * k >= k by { MulAtLeast(q' - q, k); }
    }
  }

  lemma MulAtLeast(a: int, k: int)
    requires a >= 1 && k > 0
    ensures a * k >= k
  {
  }

  /** The bold sans-serif digits U+1D7EC to U+1D7F5 the font maps '0' to '9' onto. */
  const BoldDigits: map<char, char> := map[
    '0' := '\U{1D7EC}', '1' := '\U{1D7ED}', '2' := '\U{1D7EE}', '3' := '\U{1D7EF}', '4' := '\U{1D7F0}',
    '5' := '\U{1D7F1}', '6' := '\U{1D7F2}', '7' := '\U{1D7F3}', '8' := '\U{1D7F4}', '9' := '\U{1D7F5}']

  /** `UNICODE_NUMBERS.get(c, c)` */
  function BoldChar(c: char): char {
    if c in BoldDigits then BoldDigits[c] else c
  }

  /** `convert_to_unicode_font`: digits become bold digits, every other character stays. */
  function ToBold(text: string): (r: string)
    ensures |r| == |text|
    ensures forall i :: 0 <= i < |text| ==> r[i] == BoldChar(text[i])
  {
    if text == [] then [] else [BoldChar(text[0])] + ToBold(text[1..])
  }

  predicate IsAsciiDigit(c: char) {
    '0' <= c <= '9'
  }

  predicate IsBoldDigit(c: char) {
    '\U{1D7EC}' <= c <= '\U{1D7F5}'
  }

  /** The table maps each ASCII digit `d` to the code point `0x1D7EC + (d - '0')`. */
  lemma BoldDigitsContiguous(c: char)
    ensures c in BoldDigits <==> IsAsciiDigit(c)
    ensures IsAsciiDigit(c) ==> BoldDigits[c] as int == 0x1D7EC + (c as int - '0' as int)
  {
  }

  /** The inverse mapping, from bold digits back to ASCII digits. */
  function FromBoldChar(c: char): char {
    if IsBoldDigit(c) then (c as int - 0x1D7EC + '0' as int) as char else c
  }

  function FromBold(text: string): (r: string)
    ensures |r| == |text|
    ensures forall i :: 0 <= i < |text| ==> r[i] == FromBoldChar(text[i])
  {
    if text == [] then [] else [FromBoldChar(text[0])] + FromBold(text[1..])
  }

  /** One character: a bold digit never comes out as an ASCII digit, and undoing the font
      gives back any character that was not a bold digit. */
  lemma BoldCharRoundTrip(c: char)
    requires !IsBoldDigit(c)
    ensures FromBoldChar(BoldChar(c)) == c
    ensures !IsAsciiDigit(BoldChar(c))
  {
    BoldDigitsContiguous(c);
    if IsAsciiDigit(c) {
      var b := BoldDigits[c];
      assert IsBoldDigit(b);
      assert (b as int - 0x1D7EC + '0' as int) == c as int;
    }
  }

  /** The converted text holds no ASCII digit, and undoing the font gives the text back when
      it held no bold digit to begin with. */
  lemma BoldRoundTrip(text: string)
    requires forall i :: 0 <= i < |text| ==> !IsBoldDigit(text[i])
    ensures FromBold(ToBold(text)) == text
    ensures forall i :: 0 <= i < |text| ==> !IsAsciiDigit(ToBold(text)[i])
  {
    var bold := ToBold(text);
    forall i | 0 <= i < |text|
      ensures FromBold(bold)[i] == text[i] && !IsAsciiDigit(bold[i])
    {
      BoldCharRoundTrip(text[i]);
    }
  }

  /** Converting twice converts once. */
  lemma ToBoldIdempotent(text: string)
    ensures ToBold(ToBold(text)) == ToBold(text)
  {
    forall i | 0 <= i < |text| ensures BoldChar(BoldChar(text[i])) == BoldChar(text[i]) {
      BoldDigitsContiguous(text[i]);
      BoldDigitsContiguous(BoldChar(text[i]));
    }
  }
}
