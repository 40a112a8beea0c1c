/**
 * The pieces of Python's text handling that the condition evaluator uses on a
 * string literal: `str.strip()`, `str.replace(c, '')`, `str.isdigit()` and
 * `float(str)`.
 */
module PyText {
  import opened Wrappers
  import Seqs

  /**
   * The characters `str.isspace()` accepts, which are the ones `str.strip()`
   * removes, as inclusive ranges of code points.
   */
  const SpaceRanges: seq<(char, char)> := [
    ('\t', '\r'), ('\U{1c}', ' '), ('\U{85}', '\U{85}'), ('\U{a0}', '\U{a0}'),
    ('\U{1680}', '\U{1680}'), ('\U{2000}', '\U{200a}'), ('\U{2028}', '\U{2029}'),
    ('\U{202f}', '\U{202f}'), ('\U{205f}', '\U{205f}'), ('\U{3000}', '\U{3000}')]

  predicate InRanges(c: char, rs: seq<(char, char)>) {
    rs != [] && ((rs[0].0 <= c <= rs[0].1) || InRanges(c, rs[1..]))
  }

  predicate IsSpace(c: char) {
    InRanges(c, SpaceRanges)
  }

  /** A character that lies outside every range is not in any of them. */
  lemma {:induction false} OutsideRanges(c: char, rs: seq<(char, char)>)
    requires forall k :: 0 <= k < |rs| ==> c < rs[k].0 || rs[k].1 < c
    ensures !InRanges(c, rs)
  {
    if rs != [] {
      OutsideRanges(c, rs[1..]);
    }
  }

  /** Printable ASCII other than the space character is not whitespace. */
  lemma VisibleIsNotSpace(c: char)
    requires '!' <= c <= '~'
    ensures !IsSpace(c)
  {
    OutsideRanges(c, SpaceRanges);
  }

  predicate AllSpace(s: string) {
    forall i :: 0 <= i < |s| ==> IsSpace(s[i])
  }

  /** `s.strip()`: removes leading and trailing whitespace. */
  function Strip(s: string): (r: string)
    ensures |r| <= |s|
    ensures r == [] || (!IsSpace(r[0]) && !IsSpace(r[|r| - 1]))
  {
    if |s| > 0 && IsSpace(s[0]) then Strip(s[1..])
    else if |s| > 0 && IsSpace(s[|s| - 1]) then Strip(s[..|s| - 1])
    else s
  }

  /** A text that neither starts nor ends with whitespace is its own strip. */
  lemma StripKeeps(s: string)
    requires s != [] && !IsSpace(s[0]) && !IsSpace(s[|s| - 1])
    ensures Strip(s) == s
  {
  }

  /** Whitespace alone strips to nothing. */
  lemma {:induction false} StripAllSpace(s: string)
    requires AllSpace(s)
    ensures Strip(s) == []
    decreases |s|
  {
    if |s| > 0 {
      assert AllSpace(s[1..]) by {
        forall i | 0 <= i < |s[1..]| ensures IsSpace(s[1..][i]) { assert s[1..][i] == s[i + 1]; }
      }
      StripAllSpace(s[1..]);
    }
  }

  /** Leading whitespace in front of a non-space character is removed and nothing else changes. */
  lemma {:induction false} StripLeading(pre: string, u: string)
    requires AllSpace(pre) && u != [] && !IsSpace(u[0])
    ensures Strip(pre + u) == Strip(u)
    decreases |pre|
  {
    var s := pre + u;
    if |pre| > 0 {
      assert s[0] == pre[0];
      assert s[1..] == pre[1..] + u;
      StripLeading(pre[1..], u);
    } else {
      assert s == u;
    }
  }

  /** Trailing whitespace after a text that does not start or end with whitespace is removed. */
  lemma {:induction false} StripTrailing(mid: string, post: string)
    requires AllSpace(post) && mid != [] && !IsSpace(mid[0]) && !IsSpace(mid[|mid| - 1])
    ensures Strip(mid + post) == mid
    decreases |post|
  {
    var s := mid + post;
    if |post| > 0 {
      assert s[0] == mid[0];
      assert s[|s| - 1] == post[|post| - 1];
      assert s[..|s| - 1] == mid + post[..|post| - 1];
      StripTrailing(mid, post[..|post| - 1]);
    } else {
      assert s == mid;
    }
  }

  /**
   * Strip is fully determined by the whitespace around a text that neither
   * starts nor ends with whitespace: it removes exactly that whitespace.
   */
  lemma StripSurrounded(pre: string, mid: string, post: string)
    requires AllSpace(pre) && AllSpace(post)
    requires mid == [] || (!IsSpace(mid[0]) && !IsSpace(mid[|mid| - 1]))
    ensures Strip(pre + mid + post) == mid
  {
    if mid == [] {
      assert pre + mid + post == pre + post;
      AllSpaceAppend(pre, post);
      StripAllSpace(pre + post);
    } else {
      StripTrailing(mid, post);
      assert (mid + post)[0] == mid[0];
      StripLeading(pre, mid + post);
      Seqs.AppendAssoc(pre, mid, post);
    }
  }

  lemma AllSpaceAppend(a: string, b: string)
    requires AllSpace(a) && AllSpace(b)
    ensures AllSpace(a + b)
  {
    forall i | 0 <= i < |a + b| ensures IsSpace((a + b)[i]) {
      if i < |a| { assert (a + b)[i] == a[i]; } else { assert (a + b)[i] == b[i - |a|]; }
    }
  }

  /** `s.replace(c, '')`: every occurrence of `c` removed, everything else kept in order. */
  function RemoveAll(s: string, c: char): (r: string)
    ensures multiset(r) == multiset(s)[c := 0]
  {
    if s == [] then []
    else
      assert s == [s[0]] + s[1..];
      (if s[0] == c then [] else [s[0]]) + RemoveAll(s[1..], c)
  }

  predicate IsDigit(c: char) {
    '0' <= c <= '9'
  }

  /** `s.isdigit()` on ASCII text: non-empty and made of decimal digits only. */
  predicate IsDigits(s: string) {
    |s| > 0 && forall i :: 0 <= i < |s| ==> IsDigit(s[i])
  }

  /** Every character is a digit; the empty text qualifies (an empty integer or fraction part). */
  predicate OnlyDigits(s: string) {
    forall i :: 0 <= i < |s| ==> IsDigit(s[i])
  }

  /** The number a run of decimal digits denotes. */
  function DigitsValue(s: string): (n: nat)
    requires OnlyDigits(s)
    ensures |s| == 1 ==> n == (s[0] as int) - ('0' as int)
  {
    if s == [] then 0
    else DigitsValue(s[..|s| - 1]) * 10 + ((s[|s| - 1] as int) - ('0' as int))
  }

  function Pow10(n: nat): (p: nat)
    ensures p >= 1
  {
    if n == 0 then 1 else 10 * Pow10(n - 1)
  }

  /** Index of the first occurrence of `c` in `s`, or `|s|` when there is none. */
  function IndexOf(s: string, c: char): (k: nat)
    ensures k <= |s|
    ensures forall i :: 0 <= i < k ==> s[i] != c
    ensures k < |s| ==> s[k] == c
  {
    if s == [] then 0
    else if s[0] == c then 0
    else 1 + IndexOf(s[1..], c)
  }

  /** Index of the first exponent marker `e` or `E`, or `|s|`. */
  function IndexOfExponent(s: string): (k: nat)
    ensures k <= |s|
    ensures forall i :: 0 <= i < k ==> s[i] != 'e' && s[i] != 'E'
    ensures k < |s| ==> s[k] == 'e' || s[k] == 'E'
  {
    if s == [] then 0
    else if s[0] == 'e' || s[0] == 'E' then 0
    else 1 + IndexOfExponent(s[1..])
  }

  /**
   * The mantissa of a float literal: `digits`, `digits.`, `digits.digits` or
   * `.digits`, with at least one digit.
   */
  function ParseMantissa(s: string): Option<real> {
    var d := IndexOf(s, '.');
    var whole, frac := s[..d], if d < |s| then s[d + 1..] else [];
    if OnlyDigits(whole) && OnlyDigits(frac) && |whole| + |frac| > 0 then
      Some(DigitsValue(whole) as real + DigitsValue(frac) as real / Pow10(|frac|) as real)
    else None
  }

  /** The exponent of a float literal: an optional sign and at least one digit. */
  function ParseExponent(s: string): Option<int> {
    if |s| > 0 && (s[0] == '+' || s[0] == '-') then
      if IsDigits(s[1..]) then Some(if s[0] == '-' then -(DigitsValue(s[1..]) as int) else DigitsValue(s[1..]))
      else None
    else if IsDigits(s) then Some(DigitsValue(s))
    else None
  }

  function Scale(m: real, e: int): real {
    if e >= 0 then m * Pow10(e) as real else m / Pow10(-e) as real
  }

  /** An unsigned float literal: a mantissa and an optional exponent. */
  function ParseUnsigned(s: string): Option<real> {
    var k := IndexOfExponent(s);
    if k == |s| then ParseMantissa(s)
    else
      match (ParseMantissa(s[..k]), ParseExponent(s[k + 1..]))
      case (Some(m), Some(e)) => Some(Scale(m, e))
      case _ => None
  }

  /**
   * `float(s)` on an already stripped ASCII text: `None` where Python raises
   * `ValueError`. The value is the exact decimal, not the nearest double.
   */
  function ParseFloat(s: string): Option<real> {
    if |s| > 0 && (s[0] == '+' || s[0] == '-') then
      match ParseUnsigned(s[1..])
      case Some(v) => Some(if s[0] == '-' then -v else v)
      case None => None
    else ParseUnsigned(s)
  }

  /** A run of digits with no dot and no exponent parses to the integer it spells. */
  lemma DigitsParse(s: string)
    requires IsDigits(s)
    ensures ParseUnsigned(s) == Some(DigitsValue(s) as real)
  {
    var k := IndexOfExponent(s);
    if k < |s| {
      assert false;
    }
    var d := IndexOf(s, '.');
    if d < |s| {
      assert false;
    }
    assert s[..d] == s;
    var v := DigitsValue(s) as real;
    assert ParseMantissa(s) == Some(v + DigitsValue([]) as real / Pow10(0) as real);
    assert DigitsValue([]) as real / Pow10(0) as real == 0.0;
  }

  /**
   * A text without exponent marker that holds a character other than a digit
   * or a dot is not an unsigned float literal.
   */
  lemma StrayCharDoesNotParse(s: string, i: nat)
    requires forall j :: 0 <= j < |s| ==> s[j] != 'e' && s[j] != 'E'
    requires i < |s| && !IsDigit(s[i]) && s[i] != '.'
    ensures ParseUnsigned(s) == None
  {
    var d := IndexOf(s, '.');
    if i < d {
      assert s[..d][i] == s[i];
    } else {
      assert s[d + 1..][i - d - 1] == s[i];
    }
  }

  /** A text without exponent marker that holds two dots is not an unsigned float literal. */
  lemma TwoDotsDoNotParse(s: string, i: nat, j: nat)
    requires forall k :: 0 <= k < |s| ==> s[k] != 'e' && s[k] != 'E'
    requires i < j < |s| && s[i] == '.' && s[j] == '.'
    ensures ParseUnsigned(s) == None
  {
    var k := IndexOfExponent(s);
    if k < |s| {
      assert false;
    }
    var d := IndexOf(s, '.');
    assert d <= i;
    assert s[d + 1..][j - d - 1] == s[j];
  }

  /** `float()` of a run of ASCII digits is the integer the digits spell. */
  lemma FloatOfDigits(s: string)
    requires IsDigits(s)
    ensures ParseFloat(s) == Some(DigitsValue(s) as real)
  {
    DigitsParse(s);
  }

  /**
   * `float()` rejects a text without exponent marker that holds a character
   * other than a digit or a dot, unless that character is the leading sign.
   */
  lemma FloatStrayChar(s: string, i: nat)
    requires forall j :: 0 <= j < |s| ==> s[j] != 'e' && s[j] != 'E'
    requires i < |s| && !IsDigit(s[i]) && s[i] != '.'
    requires i > 0 || (s[i] != '+' && s[i] != '-')
    ensures ParseFloat(s) == None
  {
    if s[0] == '+' || s[0] == '-' {
      var u := s[1..];
      assert u[i - 1] == s[i];
      StrayCharDoesNotParse(u, i - 1);
    } else {
      StrayCharDoesNotParse(s, i);
    }
  }

  /** `float()` rejects a text without exponent marker that holds two dots. */
  lemma FloatTwoDots(s: string, i: nat, j: nat)
    requires forall k :: 0 <= k < |s| ==> s[k] != 'e' && s[k] != 'E'
    requires i < j < |s| && s[i] == '.' && s[j] == '.'
    ensures ParseFloat(s) == None
  {
    if s[0] == '+' || s[0] == '-' {
      var u := s[1..];
      assert u[i - 1] == s[i] && u[j - 1] == s[j];
      TwoDotsDoNotParse(u, i - 1, j - 1);
    } else {
      TwoDotsDoNotParse(s, i, j);
    }
  }

  /** The value of the decimal literal `w.f`: the whole part plus the fraction. */
  function DecimalValue(w: string, f: string): real
    requires OnlyDigits(w) && OnlyDigits(f)
  {
    DigitsValue(w) as real + DigitsValue(f) as real / Pow10(|f|) as real
  }

  /** An unsigned decimal literal `w.f` without exponent reads as its whole part plus its fraction. */
  lemma DecimalParseUnsigned(w: string, f: string)
    requires OnlyDigits(w) && OnlyDigits(f) && |w| + |f| > 0
    ensures ParseUnsigned(w + "." + f) == Some(DecimalValue(w, f))
  {
    var s := w + "." + f;
    assert forall i :: 0 <= i < |s| ==> IsDigit(s[i]) || s[i] == '.' by {
      forall i | 0 <= i < |s| ensures IsDigit(s[i]) || s[i] == '.' {
        if i < |w| { assert s[i] == w[i]; }
        else if i > |w| { assert s[i] == f[i - |w| - 1]; }
      }
    }
    var k := IndexOfExponent(s);
    if k < |s| {
      assert false;
    }
    var d := IndexOf(s, '.');
    assert s[|w|] == '.';
    assert d == |w|;
    assert s[..d] == w;
    assert s[d + 1..] == f;
  }

  /** Without a leading sign, `float()` reads what the unsigned grammar reads. */
  lemma FloatOfUnsigned(u: string, v: real)
    requires ParseUnsigned(u) == Some(v) && |u| > 0 && u[0] != '+' && u[0] != '-'
    ensures ParseFloat(u) == Some(v)
  {
  }

  /** A leading `-` negates what the unsigned grammar reads, and a leading `+` keeps it. */
  lemma FloatOfSigned(u: string, v: real, sign: char)
    requires ParseUnsigned(u) == Some(v) && (sign == '-' || sign == '+')
    ensures ParseFloat([sign] + u) == Some(if sign == '-' then -v else v)
  {
    var t := [sign] + u;
    assert t[0] == sign && t[1..] == u;
  }

  /**
   * `float()` of a decimal literal `w.f` without exponent is its whole part
   * plus its fraction, negated under a leading `-` and unchanged under `+`.
   */
  lemma FloatOfDecimal(w: string, f: string)
    requires OnlyDigits(w) && OnlyDigits(f) && |w| + |f| > 0
    ensures ParseFloat(w + "." + f) == Some(DecimalValue(w, f))
    ensures ParseFloat(['-'] + (w + "." + f)) == Some(-DecimalValue(w, f))
    ensures ParseFloat(['+'] + (w + "." + f)) == Some(DecimalValue(w, f))
  {
    var u := w + "." + f;
    DecimalParseUnsigned(w, f);
    assert u[0] == if |w| > 0 then w[0] else '.';
    FloatOfUnsigned(u, DecimalValue(w, f));
    FloatOfSigned(u, DecimalValue(w, f), '-');
    FloatOfSigned(u, DecimalValue(w, f), '+');
  }
}
