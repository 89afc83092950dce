/** Character classes and the small string operations the coordinate
    extractor and the analysis filter are built from. */
module Text {

  /** An ASCII decimal digit; this is the model's reading of the regex class `\d`. */
  predicate IsDigit(c: char) {
    '0' <= c <= '9'
  }

  /** The code points for which Python's `str.isspace()` holds. The same set is
      what `\s` matches in a `str` pattern and what `str.strip()` removes. */
  predicate IsSpace(c: char) {
    || c == ' '
    || ('\U{9}' <= c <= '\U{d}')
    || ('\U{1c}' <= c <= '\U{1f}')
    || c == '\U{85}'
    || c == '\U{a0}'
    || c == '\U{1680}'
    || ('\U{2000}' <= c <= '\U{200a}')
    || c == '\U{2028}'
    || c == '\U{2029}'
    || c == '\U{202f}'
    || c == '\U{205f}'
    || c == '\U{3000}'
  }

  lemma SpaceIsNotDigit(c: char)
    ensures IsSpace(c) ==> !IsDigit(c)
  {
  }

  predicate AllDigits(w: string) {
    forall i :: 0 <= i < |w| ==> IsDigit(w[i])
  }

  predicate AllSpace(w: string) {
    forall i :: 0 <= i < |w| ==> IsSpace(w[i])
  }

  /** The end of the longest run of `inClass` characters starting at `i`:
      what a greedy `\d+` or `\s*` consumes from position `i`. */
  function RunEnd(text: string, i: nat, inClass: char -> bool): (j: nat)
    requires i <= |text|
    ensures i <= j <= |text|
    ensures forall k :: i <= k < j ==> inClass(text[k])
    ensures j == |text| || !inClass(text[j])
    decreases |text| - i
  {
    if i < |text| && inClass(text[i]) then RunEnd(text, i + 1, inClass) else i
  }

  /** A run that covers `[i, k)` ends at `k` or later; one that ends at `k`
      needs the character at `k` to leave the class. */
  lemma RunEndAtLeast(text: string, i: nat, k: nat, inClass: char -> bool)
    requires i <= k <= |text|
    requires forall m :: i <= m < k ==> inClass(text[m])
    ensures k <= RunEnd(text, i, inClass)
    ensures (k == |text| || !inClass(text[k])) ==> RunEnd(text, i, inClass) == k
  {
  }

  function DigitValue(c: char): nat
    requires IsDigit(c)
  {
    c as int - '0' as int
  }

  function DigitChar(d: nat): (c: char)
    requires d < 10
    ensures IsDigit(c) && DigitValue(c) == d
  {
    ('0' as int + d) as char
  }

  /** The number a run of decimal digits denotes, as Python's `int()` reads it
      (leading zeros allowed). */
  function Value(w: string): nat
    requires AllDigits(w)
    decreases |w|
  {
    if |w| == 0 then 0 else 10 * Value(w[..|w| - 1]) + DigitValue(w[|w| - 1])
  }

  /** The decimal rendering of `n`, as Python's `str()` writes a non-negative int. */
  function Decimal(n: nat): (s: string)
    ensures 1 <= |s|
    ensures AllDigits(s)
    ensures |s| == 1 || s[0] != '0'
    decreases n
  {
    if n < 10 then [DigitChar(n)] else Decimal(n / 10) + [DigitChar(n % 10)]
  }

  /** Reading back a rendered number gives the number. */
  lemma {:induction false} ValueOfDecimal(n: nat)
    ensures Value(Decimal(n)) == n
    decreases n
  {
    if n >= 10 {
      var s := Decimal(n);
      assert s[..|s| - 1] == Decimal(n / 10);
      ValueOfDecimal(n / 10);
    }
  }

  /** A leading zero does not change the number, as with `int("07") == 7`. */
  lemma {:induction false} ValueLeadingZero(w: string)
    requires AllDigits(w)
    ensures AllDigits(['0'] + w) && Value(['0'] + w) == Value(w)
    decreases |w|
  {
    var z := ['0'] + w;
    if |w| > 0 {
      assert z[..|z| - 1] == ['0'] + w[..|w| - 1];
      assert z[|z| - 1] == w[|w| - 1];
      ValueLeadingZero(w[..|w| - 1]);
    }
  }

  /** Position of the first character of `s` that is not whitespace (or `|s|`). */
  function LeadEnd(s: string): (i: nat)
    ensures i <= |s|
    ensures AllSpace(s[..i])
    ensures i == |s| || !IsSpace(s[i])
  {
    RunEnd(s, 0, IsSpace)
  }

  /** One past the last character of `s` at or after `lo` that is not whitespace (or `lo`). */
  function TrailStart(s: string, lo: nat): (j: nat)
    requires lo <= |s|
    ensures lo <= j <= |s|
    ensures AllSpace(s[j..])
    ensures j == lo || !IsSpace(s[j - 1])
    decreases |s| - lo
  {
    if lo == |s| then lo
    else if IsSpace(s[|s| - 1]) then
      var j := TrailStart(s[..|s| - 1], lo);
      assert s[j..] == s[..|s| - 1][j..] + [s[|s| - 1]];
      j
    else |s|
  }

  /** Python's `str.strip()` with no argument: drop leading and trailing whitespace. */
  function Strip(s: string): (r: string)
    ensures |r| == 0 || (!IsSpace(r[0]) && !IsSpace(r[|r| - 1]))
    ensures exists i :: 0 <= i <= |s| - |r| && r == s[i..i + |r|] && AllSpace(s[..i]) && AllSpace(s[i + |r|..])
  {
    var i := LeadEnd(s);
    var j := TrailStart(s, i);
    assert s[i..j] == s[i..i + |s[i..j]|];
    s[i..j]
  }

  /** `kw` occurs in `line` starting at position `i`. */
  predicate OccursAt(line: string, kw: string, i: nat) {
    i + |kw| <= |line| && line[i..i + |kw|] == kw
  }

  /** Scan for `kw` from position `i` onwards. */
  function ContainsFrom(line: string, kw: string, i: nat): (b: bool)
    ensures b <==> exists k :: i <= k && OccursAt(line, kw, k)
    decreases |line| - i
  {
    if i + |kw| > |line| then false
    else if line[i..i + |kw|] == kw then assert OccursAt(line, kw, i); true
    else ContainsFrom(line, kw, i + 1)
  }

  /** Python's substring test `kw in line`. */
  function Contains(line: string, kw: string): (b: bool)
    ensures b <==> exists k :: OccursAt(line, kw, k)
  {
    ContainsFrom(line, kw, 0)
  }
}
