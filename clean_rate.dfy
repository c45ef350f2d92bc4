/**
  The rate-string cleaner `clean_rate` of tg.py: every `,` becomes `.`, then the
  leftmost match of the regular expression `\d+(\.\d+)?` is read as a decimal
  number. Python's float is replaced by an exact `real`.
 */
module RateCleaner {
  import opened Wrappers

  predicate IsDigit(c: char) {
    '0' <= c <= '9'
  }

  predicate AllDigits(s: string) {
    forall i :: 0 <= i < |s| ==> IsDigit(s[i])
  }

  predicate NoDigit(s: string) {
    forall i :: 0 <= i < |s| ==> !IsDigit(s[i])
  }

  /** `rate.replace(",", ".")` */
  function ReplaceCommas(s: string): (r: string)
    ensures |r| == |s|
    ensures forall i :: 0 <= i < |s| ==> r[i] == (if s[i] == ',' then '.' else s[i])
  {
    if s == [] then [] else [if s[0] == ',' then '.' else s[0]] + ReplaceCommas(s[1..])
  }

  /**
    The language of `\d+(\.\d+)?`, stated without reference to any scanner: a
    non-empty text of digits and dots that begins and ends with a digit and
    holds at most one non-digit.
   */
  predicate IsNumeral(t: string) {
    && |t| > 0
    && IsDigit(t[0])
    && IsDigit(t[|t| - 1])
    && (forall i :: 0 <= i < |t| ==> IsDigit(t[i]) || t[i] == '.')
    && (forall i, j :: 0 <= i < j < |t| ==> IsDigit(t[i]) || IsDigit(t[j]))
  }

  /** A match of the pattern: the half-open slice `s[start..end]`. */
  datatype Span = Span(start: nat, end: nat)

  /**
    What `re.search` returns for this pattern: a match that starts at the
    leftmost position where any match starts, and (the greedy quantifiers)
    extends as far as any match from that position does.
   */
  ghost predicate LeftmostLongest(s: string, m: Span) {
    && m.start <= m.end <= |s|
    && IsNumeral(s[m.start..m.end])
    && (forall i, e :: 0 <= i < m.start && i <= e <= |s| ==> !IsNumeral(s[i..e]))
    && (forall e :: m.start <= e <= |s| && IsNumeral(s[m.start..e]) ==> e <= m.end)
  }

  /** Index of the first digit at or after `i`, or `|s|` when there is none. */
  function FirstDigitFrom(s: string, i: nat): (k: nat)
    requires i <= |s|
    ensures i <= k <= |s|
    ensures k < |s| ==> IsDigit(s[k])
    ensures forall j :: i <= j < k ==> !IsDigit(s[j])
    decreases |s| - i
  {
    if i == |s| || IsDigit(s[i]) then i else FirstDigitFrom(s, i + 1)
  }

  /** End of the maximal run of digits that starts at `i` (greedy `\d+`). */
  function DigitRunEnd(s: string, i: nat): (k: nat)
    requires i <= |s|
    ensures i <= k <= |s|
    ensures forall j :: i <= j < k ==> IsDigit(s[j])
    ensures k < |s| ==> !IsDigit(s[k])
    decreases |s| - i
  {
    if i < |s| && IsDigit(s[i]) then DigitRunEnd(s, i + 1) else i
  }

  /** The ensures of `DigitRunEnd` pin its result down. */
  lemma DigitRunEndIs(s: string, i: nat, k: nat)
    requires i <= k <= |s|
    requires forall j :: i <= j < k ==> IsDigit(s[j])
    requires k < |s| ==> !IsDigit(s[k])
    ensures DigitRunEnd(s, i) == k
  {
  }

  /**
    `re.search(r"\d+(\.\d+)?", s)` as a scan: skip to the first digit, take the
    digit run, then take `.` and a second run only when a digit follows the dot.
   */
  function Search(s: string): (m: Option<Span>)
    ensures m.None? <==> NoDigit(s)
    ensures m.Some? ==> LeftmostLongest(s, m.value)
  {
    var lo := FirstDigitFrom(s, 0);
    if lo == |s| then None
    else
      var p := DigitRunEnd(s, lo);
      if p + 1 < |s| && s[p] == '.' && IsDigit(s[p + 1]) then
        var q := DigitRunEnd(s, p + 1);
        SearchFractionMatch(s, lo, p, q);
        Some(Span(lo, q))
      else
        SearchWholeMatch(s, lo, p);
        Some(Span(lo, p))
  }

  lemma NothingBefore(s: string, lo: nat)
    requires lo <= |s|
    requires forall j :: 0 <= j < lo ==> !IsDigit(s[j])
    ensures forall i, e :: 0 <= i < lo && i <= e <= |s| ==> !IsNumeral(s[i..e])
  {
    forall i, e | 0 <= i < lo && i <= e <= |s|
      ensures !IsNumeral(s[i..e])
    {
      if e > i {
        assert s[i..e][0] == s[i];
      }
    }
  }

  lemma SearchWholeMatch(s: string, lo: nat, p: nat)
    requires lo < p <= |s|
    requires forall j :: 0 <= j < lo ==> !IsDigit(s[j])
    requires forall j :: lo <= j < p ==> IsDigit(s[j])
    requires p < |s| ==> !IsDigit(s[p])
    requires !(p + 1 < |s| && s[p] == '.' && IsDigit(s[p + 1]))
    ensures LeftmostLongest(s, Span(lo, p))
  {
    NothingBefore(s, lo);
    forall e | lo <= e <= |s| && IsNumeral(s[lo..e])
      ensures e <= p
    {
      if e > p {
        assert false;
      }
    }
  }

  lemma SearchFractionMatch(s: string, lo: nat, p: nat, q: nat)
    requires lo < p && p + 1 < q <= |s|
    requires forall j :: 0 <= j < lo ==> !IsDigit(s[j])
    requires forall j :: lo <= j < p ==> IsDigit(s[j])
    requires s[p] == '.'
    requires forall j :: p + 1 <= j < q ==> IsDigit(s[j])
    requires q < |s| ==> !IsDigit(s[q])
    ensures LeftmostLongest(s, Span(lo, q))
  {
    NothingBefore(s, lo);
    var t := s[lo..q];
    assert forall i :: 0 <= i < |t| ==> t[i] == s[lo + i];
    assert IsNumeral(t);
    forall e | lo <= e <= |s| && IsNumeral(s[lo..e])
      ensures e <= q
    {
      if e > q {
        assert false;
      }
    }
  }

  function Pow10(n: nat): (p: nat)
    ensures p >= 1
  {
    if n == 0 then 1 else 10 * Pow10(n - 1)
  }

  function DigitValue(c: char): (v: nat)
    requires IsDigit(c)
    ensures v < 10
  {
    c as int - '0' as int
  }

  /** The decimal value of a run of digits; leading zeros are allowed. */
  function DigitsValue(d: string): (v: nat)
    requires AllDigits(d)
    ensures v < Pow10(|d|)
  {
    if d == [] then 0 else DigitsValue(d[..|d| - 1]) * 10 + DigitValue(d[|d| - 1])
  }

  /** `float(t)` for a text `t` of the pattern's language, as an exact real. */
  function NumeralValue(t: string): (v: real)
    requires IsNumeral(t)
    ensures v >= 0.0
  {
    var p := DigitRunEnd(t, 0);
    var whole := DigitsValue(t[..p]) as real;
    if p == |t| then whole
    else
      assert t[p] == '.' && p < |t| - 1;
      whole + DigitsValue(t[p + 1..]) as real / Pow10(|t| - p - 1) as real
  }

  /** `clean_rate(rate)`: `None` when no number can be found. */
  function CleanRate(rate: string): (r: Option<real>)
    ensures r.None? <==> NoDigit(rate)
    ensures r.Some? ==> r.value >= 0.0
  {
    var s := ReplaceCommas(rate);
    match Search(s)
    case None => None
    case Some(m) => Some(NumeralValue(s[m.start..m.end]))
  }

  /** The value of `whole.frac` (or of `whole` alone when `frac` is empty). */
  function DecimalValue(whole: string, frac: string): real
    requires AllDigits(whole) && AllDigits(frac)
  {
    DigitsValue(whole) as real + DigitsValue(frac) as real / Pow10(|frac|) as real
  }

  /** Any two spans that both meet the search's specification are the same. */
  lemma LeftmostLongestUnique(s: string, m: Span, m': Span)
    requires LeftmostLongest(s, m) && LeftmostLongest(s, m')
    ensures m == m'
  {
  }

  lemma ReplaceCommasConcat(a: string, b: string)
    ensures ReplaceCommas(a + b) == ReplaceCommas(a) + ReplaceCommas(b)
  {
    var l, r := ReplaceCommas(a + b), ReplaceCommas(a) + ReplaceCommas(b);
    assert |l| == |r|;
    forall i | 0 <= i < |l| ensures l[i] == r[i] {
      if i < |a| { assert (a + b)[i] == a[i]; } else { assert (a + b)[i] == b[i - |a|]; }
    }
  }

  /** The text `whole.frac` is in the pattern's language and reads as `DecimalValue`. */
  lemma NumeralValueDecimal(whole: string, frac: string)
    requires |whole| > 0 && AllDigits(whole)
    requires |frac| > 0 && AllDigits(frac)
    ensures IsNumeral(whole + ['.'] + frac)
    ensures NumeralValue(whole + ['.'] + frac) == DecimalValue(whole, frac)
  {
    var t := whole + ['.'] + frac;
    assert forall i :: 0 <= i < |whole| ==> t[i] == whole[i];
    assert forall i :: |whole| < i < |t| ==> t[i] == frac[i - |whole| - 1];
    assert IsNumeral(t);
    DigitRunEndIs(t, 0, |whole|);
    assert t[..|whole|] == whole;
    assert t[|whole| + 1..] == frac;
  }

  /** A run of digits alone reads as its integer value. */
  lemma NumeralValueWhole(whole: string)
    requires |whole| > 0 && AllDigits(whole)
    ensures IsNumeral(whole)
    ensures NumeralValue(whole) == DigitsValue(whole) as real
  {
    DigitRunEndIs(whole, 0, |whole|);
    assert whole[..|whole|] == whole;
  }

  /** Commas in a text of digits are unchanged by the replacement. */
  lemma ReplaceCommasDigits(d: string)
    requires AllDigits(d)
    ensures ReplaceCommas(d) == d
  {
  }

  lemma ReplaceCommasDecimal(prefix: string, whole: string, point: char, frac: string, suffix: string)
    requires AllDigits(whole) && AllDigits(frac)
    requires point == ',' || point == '.'
    ensures ReplaceCommas(prefix + whole + [point] + frac + suffix)
         == ReplaceCommas(prefix) + whole + ['.'] + frac + ReplaceCommas(suffix)
  {
    ReplaceCommasConcat(prefix + whole + [point] + frac, suffix);
    ReplaceCommasConcat(prefix + whole + [point], frac);
    ReplaceCommasConcat(prefix + whole, [point]);
    ReplaceCommasConcat(prefix, whole);
    ReplaceCommasDigits(whole);
    ReplaceCommasDigits(frac);
  }

  lemma SearchDecimal(pre: string, whole: string, frac: string, post: string)
    requires NoDigit(pre)
    requires |whole| > 0 && AllDigits(whole)
    requires |frac| > 0 && AllDigits(frac)
    requires post == [] || !IsDigit(post[0])
    ensures Search(pre + whole + ['.'] + frac + post)
         == Some(Span(|pre|, |pre| + |whole| + 1 + |frac|))
  {
    var s := pre + whole + ['.'] + frac + post;
    var lo, p := |pre|, |pre| + |whole|;
    var q := p + 1 + |frac|;
    assert forall i :: lo <= i < p ==> s[i] == whole[i - lo];
    assert forall i :: p + 1 <= i < q ==> s[i] == frac[i - p - 1];
    assert forall i :: 0 <= i < lo ==> s[i] == pre[i];
    assert q < |s| ==> s[q] == post[0];
    SearchFractionMatch(s, lo, p, q);
    LeftmostLongestUnique(s, Search(s).value, Span(lo, q));
  }

  /** Once the match in the replaced text is known, the cleaned rate is the value of that slice. */
  lemma CleanRateOfMatch(rate: string, m: Span)
    requires Search(ReplaceCommas(rate)) == Some(m)
    ensures CleanRate(rate) == Some(NumeralValue(ReplaceCommas(rate)[m.start..m.end]))
  {
  }

  /** The replacement leaves a text without digits without digits, and keeps a non-digit first character. */
  lemma ReplaceCommasNoDigit(prefix: string, suffix: string)
    requires NoDigit(prefix)
    requires suffix == [] || !IsDigit(suffix[0])
    ensures NoDigit(ReplaceCommas(prefix))
    ensures ReplaceCommas(suffix) == [] || !IsDigit(ReplaceCommas(suffix)[0])
  {
  }

  lemma DecimalSlice(pre: string, whole: string, frac: string, post: string)
    ensures (pre + whole + ['.'] + frac + post)[|pre|..|pre| + |whole| + 1 + |frac|] == whole + ['.'] + frac
  {
    var s := pre + whole + ['.'] + frac + post;
    assert s == pre + (whole + ['.'] + frac) + post;
  }

  /**
    A number written with `,` or `.` as its decimal point, after text without
    digits and before text that does not continue it, is read exactly:
    `clean_rate("12,50 zł") == 12.5`.
   */
  lemma CleanRateDecimal(prefix: string, whole: string, point: char, frac: string, suffix: string)
    requires NoDigit(prefix)
    requires |whole| > 0 && AllDigits(whole)
    requires point == ',' || point == '.'
    requires |frac| > 0 && AllDigits(frac)
    requires suffix == [] || !IsDigit(suffix[0])
    ensures CleanRate(prefix + whole + [point] + frac + suffix) == Some(DecimalValue(whole, frac))
  {
    var rate := prefix + whole + [point] + frac + suffix;
    var pre, post := ReplaceCommas(prefix), ReplaceCommas(suffix);
    var m := Span(|pre|, |pre| + |whole| + 1 + |frac|);
    ReplaceCommasDecimal(prefix, whole, point, frac, suffix);
    ReplaceCommasNoDigit(prefix, suffix);
    SearchDecimal(pre, whole, frac, post);
    CleanRateOfMatch(rate, m);
    DecimalSlice(pre, whole, frac, post);
    NumeralValueDecimal(whole, frac);
  }

  lemma ReplaceCommasWhole(prefix: string, whole: string, suffix: string)
    requires AllDigits(whole)
    ensures ReplaceCommas(prefix + whole + suffix) == ReplaceCommas(prefix) + whole + ReplaceCommas(suffix)
  {
    ReplaceCommasConcat(prefix + whole, suffix);
    ReplaceCommasConcat(prefix, whole);
    ReplaceCommasDigits(whole);
  }

  lemma SearchWhole(pre: string, whole: string, post: string)
    requires NoDigit(pre)
    requires |whole| > 0 && AllDigits(whole)
    requires post == [] || !IsDigit(post[0])
    requires !(|post| >= 2 && post[0] == '.' && IsDigit(post[1]))
    ensures Search(pre + whole + post) == Some(Span(|pre|, |pre| + |whole|))
  {
    var s := pre + whole + post;
    var lo, p := |pre|, |pre| + |whole|;
    assert forall i :: lo <= i < p ==> s[i] == whole[i - lo];
    assert forall i :: 0 <= i < lo ==> s[i] == pre[i];
    assert p < |s| ==> s[p] == post[0];
    assert p + 1 < |s| ==> s[p + 1] == post[1];
    SearchWholeMatch(s, lo, p);
    LeftmostLongestUnique(s, Search(s).value, Span(lo, p));
  }

  /** A whole number that is not followed by a decimal point and a digit is read as is. */
  lemma CleanRateWhole(prefix: string, whole: string, suffix: string)
    requires NoDigit(prefix)
    requires |whole| > 0 && AllDigits(whole)
    requires suffix == [] || !IsDigit(suffix[0])
    requires !(|suffix| >= 2 && (suffix[0] == ',' || suffix[0] == '.') && IsDigit(suffix[1]))
    ensures CleanRate(prefix + whole + suffix) == Some(DigitsValue(whole) as real)
  {
    var pre, post := ReplaceCommas(prefix), ReplaceCommas(suffix);
    var s := pre + whole + post;
    var m := Span(|pre|, |pre| + |whole|);
    assert ReplaceCommas(prefix + whole + suffix) == s by {
      ReplaceCommasWhole(prefix, whole, suffix);
    }
    assert Search(s) == Some(m) by {
      SearchWhole(pre, whole, post);
    }
    assert NumeralValue(s[m.start..m.end]) == DigitsValue(whole) as real by {
      assert s[m.start..m.end] == whole;
      NumeralValueWhole(whole);
    }
  }

  /** Replacing commas once more changes nothing: commas and dots are read alike. */
  lemma CleanRateIgnoresCommas(rate: string)
    ensures CleanRate(ReplaceCommas(rate)) == CleanRate(rate)
  {
    assert ReplaceCommas(ReplaceCommas(rate)) == ReplaceCommas(rate);
  }

  /** The fraction never reaches the next unit: the integer part is the digit run before the point. */
  lemma {:induction false} DecimalValueFloor(whole: string, frac: string)
    requires AllDigits(whole) && AllDigits(frac)
    ensures (DecimalValue(whole, frac)).Floor == DigitsValue(whole)
  {
    FractionBelowOne(DigitsValue(frac), Pow10(|frac|));
  }

  lemma FractionBelowOne(a: nat, b: nat)
    requires a < b
    ensures 0.0 <= a as real / b as real < 1.0
  {
  }

  lemma DecimalValueExample()
    ensures DecimalValue("12", "50") == 12.5
  {
    assert DigitsValue("12") == 12 by {
      assert "12"[..1] == "1";
    }
    assert DigitsValue("50") == 50 by {
      assert "50"[..1] == "5";
    }
  }

  /** `clean_rate("12,50 zł")` reads 12.5: the comma is a decimal point and the currency sign is ignored. */
  lemma CleanRateCommaExample()
    ensures CleanRate("12,50 zł") == Some(12.5)
  {
    assert "12,50 zł" == [] + "12" + [','] + "50" + " zł";
    CleanRateDecimal([], "12", ',', "50", " zł");
    DecimalValueExample();
  }

  /** `clean_rate("abc")` finds no number. */
  lemma CleanRateLettersExample()
    ensures CleanRate("abc") == None
  {
    assert NoDigit("abc");
  }
}
