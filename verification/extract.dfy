/** The coordinate extractor: eight textual forms of a "row, column" pair,
    each tried for its leftmost occurrence, first form that yields a pair
    inside the 19 x 19 board wins.

    Each form is a digit run, a separator, a second digit run and, for the
    two forms with Chinese unit words, a closing word. The forms are data
    (`Pattern`); `MatchesWith` says declaratively when a span of text is an
    occurrence of a form, and `ScanAt` is the deterministic scanner that
    finds the occurrence a backtracking regex engine reports. */
module Extract {
  import opened Common
  import opened Text

  /** How much whitespace a gap may hold: none, any amount, or at least one. */
  datatype Spaces = NoSpace | AnySpace | SomeSpace

  /** The text between the two numbers: a whitespace gap, then (when `marks` is
      not empty) exactly one character out of `marks`, then a second gap.
      With no mark character only the `lead` gap is used. */
  datatype Separator = Separator(lead: Spaces, marks: seq<char>, trail: Spaces)

  /** One coordinate form. `close`, when present, is a character that must
      follow the second number after optional whitespace. */
  datatype Pattern = Pattern(sep: Separator, close: Option<char>)

  /** The forms in the order they are tried (src/go_ai.py:102-111). */
  const Patterns: seq<Pattern> := [
    // digits, an ASCII or full-width comma, optional whitespace, digits
    Pattern(Separator(NoSpace, [',', '，'], AnySpace), None),
    // the same with optional whitespace before the comma as well
    Pattern(Separator(AnySpace, [',', '，'], AnySpace), None),
    // digits, at least one whitespace character, digits
    Pattern(Separator(SomeSpace, [], NoSpace), None),
    // digits, a hyphen, digits
    Pattern(Separator(NoSpace, ['-'], NoSpace), None),
    // digits, a full stop, digits
    Pattern(Separator(NoSpace, ['.'], NoSpace), None),
    // digits "row" digits "column", whitespace allowed around the words
    Pattern(Separator(AnySpace, ['行'], AnySpace), Some('列')),
    // digits "column" digits "row"
    Pattern(Separator(AnySpace, ['列'], AnySpace), Some('行')),
    // digits, an ASCII comma with optional whitespace on both sides, digits
    Pattern(Separator(AnySpace, [','], AnySpace), None)
  ]

  /** The largest number accepted for either component (1-indexed). The
      extractor compares against the literal 19, not the board's size field. */
  const MaxCoordinate: nat := 19

  /** A form whose occurrences are unambiguous: the separator is never empty,
      and neither it nor the closing word can be confused with digits or
      with each other's whitespace. All eight forms have this shape. */
  predicate Deterministic(p: Pattern) {
    && (p.sep.marks != [] || p.sep.lead == SomeSpace)
    && (forall c :: c in p.sep.marks ==> !IsDigit(c) && !IsSpace(c))
    && (p.close.Some? ==> !IsDigit(p.close.value) && !IsSpace(p.close.value))
  }

  lemma PatternsDeterministic()
    ensures forall i :: 0 <= i < |Patterns| ==> Deterministic(Patterns[i])
  {
  }

  // ---------------------------------------------------------------------
  // Declarative meaning of an occurrence

  predicate SpacesFit(rule: Spaces, w: string) {
    match rule
    case NoSpace => |w| == 0
    case AnySpace => AllSpace(w)
    case SomeSpace => |w| > 0 && AllSpace(w)
  }

  ghost predicate SeparatorFits(sep: Separator, w: string) {
    if sep.marks == [] then SpacesFit(sep.lead, w)
    else exists k :: 0 <= k < |w| && w[k] in sep.marks && SpacesFit(sep.lead, w[..k]) && SpacesFit(sep.trail, w[k + 1..])
  }

  ghost predicate CloseFits(close: Option<char>, rest: string) {
    match close
    case None => true
    case Some(c) => exists k :: 0 <= k < |rest| && rest[k] == c && AllSpace(rest[..k])
  }

  /** Positions of an occurrence: the first number is `text[start..end1]`,
      the second `text[start2..end2]`. */
  datatype Span = Span(start: nat, end1: nat, start2: nat, end2: nat)

  /** `m` is one way for form `p` to occur in `text`. */
  ghost predicate MatchesWith(p: Pattern, text: string, m: Span) {
    && m.start < m.end1 <= m.start2 < m.end2 <= |text|
    && AllDigits(text[m.start..m.end1])
    && SeparatorFits(p.sep, text[m.end1..m.start2])
    && AllDigits(text[m.start2..m.end2])
    && CloseFits(p.close, text[m.end2..])
  }

  /** Some occurrence of `p` starts at position `s`. */
  ghost predicate MatchesAt(p: Pattern, text: string, s: nat) {
    exists m: Span :: m.start == s && MatchesWith(p, text, m)
  }

  /** The second number is read greedily: it is not followed by another digit. */
  predicate Greedy(text: string, m: Span) {
    m.end2 <= |text| && (m.end2 == |text| || !IsDigit(text[m.end2]))
  }

  // ---------------------------------------------------------------------
  // The scanner

  /** Consume a whitespace gap obeying `rule` from position `i`; returns where it ends. */
  function SkipSpaces(rule: Spaces, text: string, i: nat): (r: Option<nat>)
    requires i <= |text|
    ensures r.Some? ==> i <= r.value <= |text| && SpacesFit(rule, text[i..r.value])
    ensures r.Some? ==> r.value == |text| || !IsSpace(text[r.value]) || rule == NoSpace
  {
    match rule
    case NoSpace => Some(i)
    case AnySpace => Some(RunEnd(text, i, IsSpace))
    case SomeSpace =>
      var j := RunEnd(text, i, IsSpace);
      if j > i then Some(j) else None
  }

  /** A gap that fits `rule` and is not followed by whitespace is what `SkipSpaces` consumes. */
  lemma SkipSpacesExact(rule: Spaces, text: string, i: nat, j: nat)
    requires i <= j <= |text|
    requires SpacesFit(rule, text[i..j])
    requires j == |text| || !IsSpace(text[j])
    ensures SkipSpaces(rule, text, i) == Some(j)
  {
    if rule != NoSpace {
      assert forall m :: i <= m < j ==> IsSpace(text[m]) by {
        forall m | i <= m < j ensures IsSpace(text[m]) {
          assert text[m] == text[i..j][m - i];
        }
      }
      RunEndAtLeast(text, i, j, IsSpace);
    }
  }

  /** Consume the separator of a form from position `i`; returns where the second number may start. */
  function ScanSeparator(sep: Separator, text: string, i: nat): (r: Option<nat>)
    requires i <= |text|
    ensures r.Some? ==> i <= r.value <= |text|
  {
    match SkipSpaces(sep.lead, text, i)
    case None => None
    case Some(k) =>
      if sep.marks == [] then Some(k)
      else if k < |text| && text[k] in sep.marks then SkipSpaces(sep.trail, text, k + 1)
      else None
  }

  /** Check the closing word (if any) after position `i`. */
  function ScanClose(close: Option<char>, text: string, i: nat): bool
    requires i <= |text|
  {
    match close
    case None => true
    case Some(c) =>
      var k := RunEnd(text, i, IsSpace);
      k < |text| && text[k] == c
  }

  /** The occurrence of `p` that starts at `s`, if any, read greedily. */
  function ScanAt(p: Pattern, text: string, s: nat): (r: Option<Span>)
    requires s <= |text|
    ensures r.Some? ==> r.value.start == s && r.value.end2 <= |text|
  {
    if s < |text| && IsDigit(text[s]) then
      var e1 := RunEnd(text, s, IsDigit);
      match ScanSeparator(p.sep, text, e1)
      case None => None
      case Some(s2) =>
        if s2 < |text| && IsDigit(text[s2]) then
          var e2 := RunEnd(text, s2, IsDigit);
          if ScanClose(p.close, text, e2) then Some(Span(s, e1, s2, e2)) else None
        else None
    else None
  }

  lemma AllDigitsSlice(text: string, i: nat, j: nat)
    requires i <= j <= |text|
    requires forall k :: i <= k < j ==> IsDigit(text[k])
    ensures AllDigits(text[i..j])
  {
  }

  lemma AllSpaceSlice(text: string, i: nat, j: nat)
    requires i <= j <= |text|
    requires forall k :: i <= k < j ==> IsSpace(text[k])
    ensures AllSpace(text[i..j])
  {
  }

  /** What the scanner reports is an occurrence, and its second number is maximal. */
  lemma ScanAtSound(p: Pattern, text: string, s: nat)
    requires s <= |text|
    requires ScanAt(p, text, s).Some?
    ensures MatchesWith(p, text, ScanAt(p, text, s).value)
    ensures Greedy(text, ScanAt(p, text, s).value)
  {
    var m := ScanAt(p, text, s).value;
    AllDigitsSlice(text, s, m.end1);
    AllDigitsSlice(text, m.start2, m.end2);
    ScanSeparatorSound(p.sep, text, m.end1);
    if p.close.Some? {
      ScanCloseSound(p.close.value, text, m.end2);
    }
  }

  /** What `ScanSeparator` consumes is a separator. */
  lemma ScanSeparatorSound(sep: Separator, text: string, i: nat)
    requires i <= |text|
    requires ScanSeparator(sep, text, i).Some?
    ensures SeparatorFits(sep, text[i..ScanSeparator(sep, text, i).value])
  {
    var j := ScanSeparator(sep, text, i).value;
    var k := SkipSpaces(sep.lead, text, i).value;
    if sep.marks != [] {
      var w := text[i..j];
      assert text[k] in sep.marks;
      assert w[k - i] == text[k];
      assert w[..k - i] == text[i..k];
      assert w[k - i + 1..] == text[k + 1..j];
    }
  }

  /** A closing word accepted by `ScanClose` fits the rest of the text. */
  lemma ScanCloseSound(c: char, text: string, i: nat)
    requires i <= |text|
    requires ScanClose(Some(c), text, i)
    ensures CloseFits(Some(c), text[i..])
  {
    var rest := text[i..];
    var k := RunEnd(text, i, IsSpace);
    AllSpaceSlice(text, i, k);
    assert rest[k - i] == c;
    assert rest[..k - i] == text[i..k];
  }

  /** A separator occurrence followed by a digit is exactly what `ScanSeparator`
      consumes, and it starts with a non-digit. */
  lemma SeparatorScan(p: Pattern, text: string, i: nat, j: nat)
    requires Deterministic(p)
    requires i <= j < |text|
    requires SeparatorFits(p.sep, text[i..j])
    requires IsDigit(text[j])
    ensures i < j && !IsDigit(text[i])
    ensures ScanSeparator(p.sep, text, i) == Some(j)
  {
    if p.sep.marks == [] {
      SpaceSeparatorScan(p, text, i, j);
    } else {
      var w := text[i..j];
      var k :| 0 <= k < |w| && w[k] in p.sep.marks && SpacesFit(p.sep.lead, w[..k]) && SpacesFit(p.sep.trail, w[k + 1..]);
      MarkInWindow(p.sep, text, i, k, j);
      MarkSeparatorScan(p, text, i, i + k, j);
    }
  }

  /** Moves the mark found in the window `text[i..j]` to text positions. */
  lemma MarkInWindow(sep: Separator, text: string, i: nat, k: nat, j: nat)
    requires i <= j <= |text| && k < j - i
    requires text[i..j][k] in sep.marks
    requires SpacesFit(sep.lead, text[i..j][..k]) && SpacesFit(sep.trail, text[i..j][k + 1..])
    ensures text[i + k] in sep.marks
    ensures SpacesFit(sep.lead, text[i..i + k]) && SpacesFit(sep.trail, text[i + k + 1..j])
  {
    var w := text[i..j];
    assert w[..k] == text[i..i + k];
    assert w[k + 1..] == text[i + k + 1..j];
  }

  /** The case of a separator made of whitespace alone. */
  lemma SpaceSeparatorScan(p: Pattern, text: string, i: nat, j: nat)
    requires Deterministic(p) && p.sep.marks == []
    requires i <= j < |text|
    requires SpacesFit(p.sep.lead, text[i..j])
    requires IsDigit(text[j])
    ensures i < j && !IsDigit(text[i])
    ensures ScanSeparator(p.sep, text, i) == Some(j)
  {
    SpaceIsNotDigit(text[j]);
    assert IsSpace(text[i..j][0]);
    SpaceIsNotDigit(text[i]);
    SkipSpacesExact(p.sep.lead, text, i, j);
  }

  /** The case of a separator with a mark character at position `k`. */
  lemma MarkSeparatorScan(p: Pattern, text: string, i: nat, k: nat, j: nat)
    requires Deterministic(p) && p.sep.marks != []
    requires i <= k < j < |text|
    requires text[k] in p.sep.marks
    requires SpacesFit(p.sep.lead, text[i..k]) && SpacesFit(p.sep.trail, text[k + 1..j])
    requires IsDigit(text[j])
    ensures !IsDigit(text[i])
    ensures ScanSeparator(p.sep, text, i) == Some(j)
  {
    SpaceIsNotDigit(text[j]);
    if k > i {
      assert IsSpace(text[i..k][0]);
      SpaceIsNotDigit(text[i]);
    }
    SkipSpacesExact(p.sep.lead, text, i, k);
    SkipSpacesExact(p.sep.trail, text, k + 1, j);
  }

  /** A closing word that fits the rest of the text passes `ScanClose`, and the
      rest starts with a non-digit. */
  lemma CloseScan(p: Pattern, text: string, i: nat)
    requires Deterministic(p)
    requires p.close.Some?
    requires i <= |text|
    requires CloseFits(p.close, text[i..])
    ensures i < |text| && !IsDigit(text[i])
    ensures ScanClose(p.close, text, i)
  {
    var rest := text[i..];
    var k :| 0 <= k < |rest| && rest[k] == p.close.value && AllSpace(rest[..k]);
    if k > 0 {
      assert IsSpace(rest[..k][0]);
      SpaceIsNotDigit(rest[0]);
    }
    assert text[i] == rest[0];
    assert rest[..k] == text[i..i + k];
    assert text[i + k] == rest[k];
    SkipSpacesExact(AnySpace, text, i, i + k);
  }

  lemma DigitsAt(text: string, i: nat, j: nat)
    requires i <= j <= |text|
    requires AllDigits(text[i..j])
    ensures forall k :: i <= k < j ==> IsDigit(text[k])
  {
    forall k | i <= k < j ensures IsDigit(text[k]) {
      assert text[k] == text[i..j][k - i];
    }
  }

  /** Every occurrence starting at `m.start` is found by the scanner, which
      agrees with it on the first number and the separator and reads the
      second number at least as far; a greedy occurrence is found exactly. */
  lemma ScanAtComplete(p: Pattern, text: string, m: Span)
    requires Deterministic(p)
    requires MatchesWith(p, text, m)
    ensures ScanAt(p, text, m.start).Some?
    ensures ScanAt(p, text, m.start).value.end1 == m.end1
    ensures ScanAt(p, text, m.start).value.start2 == m.start2
    ensures ScanAt(p, text, m.start).value.end2 >= m.end2
    ensures Greedy(text, m) ==> ScanAt(p, text, m.start) == Some(m)
  {
    DigitsAt(text, m.start, m.end1);
    DigitsAt(text, m.start2, m.end2);
    SeparatorScan(p, text, m.end1, m.start2);
    RunEndAtLeast(text, m.start, m.end1, IsDigit);
    RunEndAtLeast(text, m.start2, m.end2, IsDigit);
    if p.close.Some? {
      CloseScan(p, text, m.end2);
    }
  }

  // ---------------------------------------------------------------------
  // Leftmost occurrence

  /** The leftmost occurrence of `p` starting at or after `s`. */
  function FirstMatchFrom(p: Pattern, text: string, s: nat): (r: Option<Span>)
    requires Deterministic(p)
    requires s <= |text|
    ensures r.Some? ==> s <= r.value.start && MatchesWith(p, text, r.value) && Greedy(text, r.value)
    ensures r.Some? ==> forall t :: s <= t < r.value.start ==> !MatchesAt(p, text, t)
    ensures r.None? ==> forall t :: s <= t <= |text| ==> !MatchesAt(p, text, t)
    decreases |text| - s
  {
    match ScanAt(p, text, s)
    case Some(m) =>
      ScanAtSound(p, text, s);
      Some(m)
    case None =>
      NoScanNoMatch(p, text, s);
      if s == |text| then None else FirstMatchFrom(p, text, s + 1)
  }

  lemma NoScanNoMatch(p: Pattern, text: string, s: nat)
    requires Deterministic(p)
    requires s <= |text|
    requires ScanAt(p, text, s).None?
    ensures !MatchesAt(p, text, s)
  {
    if MatchesAt(p, text, s) {
      var m: Span :| m.start == s && MatchesWith(p, text, m);
      ScanAtComplete(p, text, m);
    }
  }

  /** The occurrence Python's `re.findall(...)[0]` reports: the one that starts
      leftmost, with both numbers read as far as they go. */
  function FirstMatch(p: Pattern, text: string): (r: Option<Span>)
    requires Deterministic(p)
    ensures r.Some? ==> MatchesWith(p, text, r.value) && Greedy(text, r.value)
    ensures r.Some? ==> forall t :: 0 <= t < r.value.start ==> !MatchesAt(p, text, t)
    ensures r.None? <==> forall t :: 0 <= t <= |text| ==> !MatchesAt(p, text, t)
  {
    var r := FirstMatchFrom(p, text, 0);
    assert r.Some? ==> MatchesAt(p, text, r.value.start);
    r
  }

  /** Every occurrence starts on a digit. */
  lemma MatchStartsWithDigit(p: Pattern, text: string, t: nat)
    requires t < |text| && !IsDigit(text[t])
    ensures !MatchesAt(p, text, t)
  {
  }

  /** An occurrence with no occurrence to its left is the one `FirstMatch` reports. */
  lemma LeftmostIs(p: Pattern, text: string, m: Span)
    requires Deterministic(p)
    requires MatchesWith(p, text, m) && Greedy(text, m)
    requires forall t :: 0 <= t < m.start ==> !MatchesAt(p, text, t)
    ensures FirstMatch(p, text) == Some(m)
  {
    var first := FirstMatch(p, text);
    assert MatchesAt(p, text, m.start);
    assert first.Some?;
    var r := first.value;
    assert MatchesAt(p, text, r.start);
    assert r.start == m.start;
    ScanAtComplete(p, text, r);
    ScanAtComplete(p, text, m);
  }

  /** The first position where the scanner succeeds holds the occurrence
      `FirstMatch` reports. */
  lemma FirstScanIsFirstMatch(p: Pattern, text: string, s: nat)
    requires Deterministic(p)
    requires s <= |text| && ScanAt(p, text, s).Some?
    requires forall t :: 0 <= t < s ==> ScanAt(p, text, t).None?
    ensures FirstMatch(p, text) == ScanAt(p, text, s)
  {
    ScanAtSound(p, text, s);
    forall t | 0 <= t < s ensures !MatchesAt(p, text, t) {
      NoScanNoMatch(p, text, t);
    }
    LeftmostIs(p, text, ScanAt(p, text, s).value);
  }

  /** A form the scanner finds at no position has no occurrence. */
  lemma NoScanAnywhere(p: Pattern, text: string)
    requires Deterministic(p)
    requires forall t :: 0 <= t <= |text| ==> ScanAt(p, text, t).None?
    ensures FirstMatch(p, text) == None
  {
    forall t | 0 <= t <= |text| ensures !MatchesAt(p, text, t) {
      NoScanNoMatch(p, text, t);
    }
  }

  /** The two numbers of an occurrence. */
  function Numbers(text: string, m: Span): (nat, nat)
    requires m.start <= m.end1 <= m.start2 <= m.end2 <= |text|
    requires AllDigits(text[m.start..m.end1]) && AllDigits(text[m.start2..m.end2])
  {
    (Value(text[m.start..m.end1]), Value(text[m.start2..m.end2]))
  }

  /** The pair an occurrence stands for: its two numbers made 0-indexed, when
      both are in 1..19. */
  function ReadPair(text: string, m: Span): (r: Option<(int, int)>)
    requires m.start <= m.end1 <= m.start2 <= m.end2 <= |text|
    requires AllDigits(text[m.start..m.end1]) && AllDigits(text[m.start2..m.end2])
    ensures r.Some? <==> 1 <= Numbers(text, m).0 <= MaxCoordinate && 1 <= Numbers(text, m).1 <= MaxCoordinate
    ensures r.Some? ==> r.value == (Numbers(text, m).0 - 1, Numbers(text, m).1 - 1)
    ensures r.Some? ==> 0 <= r.value.0 < MaxCoordinate && 0 <= r.value.1 < MaxCoordinate
  {
    var (row, col) := Numbers(text, m);
    if 1 <= row <= MaxCoordinate && 1 <= col <= MaxCoordinate then Some((row - 1, col - 1)) else None
  }

  /** The leftmost occurrence of form `i`. */
  function FormMatch(i: nat, text: string): (r: Option<Span>)
    requires i < |Patterns|
    ensures Deterministic(Patterns[i]) && r == FirstMatch(Patterns[i], text)
    ensures r.Some? ==> MatchesWith(Patterns[i], text, r.value)
  {
    PatternsDeterministic();
    FirstMatch(Patterns[i], text)
  }

  /** What form `i` contributes on its own: its leftmost occurrence, converted
      to 0-indexed when both numbers are in 1..19, and nothing otherwise. */
  function FormResult(i: nat, text: string): (r: Option<(int, int)>)
    requires i < |Patterns|
    ensures r.Some? ==> 0 <= r.value.0 < MaxCoordinate && 0 <= r.value.1 < MaxCoordinate
    ensures r.Some? <==> exists m :: FormMatch(i, text) == Some(m)
                                   && 1 <= Numbers(text, m).0 <= MaxCoordinate
                                   && 1 <= Numbers(text, m).1 <= MaxCoordinate
    // The pair is the two numbers of that occurrence, made 0-indexed.
    ensures r.Some? ==> var m := FormMatch(i, text).value;
                        r.value == (Numbers(text, m).0 - 1, Numbers(text, m).1 - 1)
  {
    match FormMatch(i, text)
    case None => None
    case Some(m) => ReadPair(text, m)
  }

  /** What each form contributes, in list order. */
  function FormResults(text: string): (rs: seq<Option<(int, int)>>)
    ensures |rs| == |Patterns|
    ensures forall j :: 0 <= j < |Patterns| ==> rs[j] == FormResult(j, text)
  {
    seq(|Patterns|, j requires 0 <= j < |Patterns| => FormResult(j, text))
  }

  /** `extract_coordinates`: the 0-indexed pair of the first form whose
      leftmost occurrence holds two numbers in 1..19, or none at all. */
  function ExtractCoordinates(text: string): (r: Option<(int, int)>)
    ensures r.Some? ==> 0 <= r.value.0 < MaxCoordinate && 0 <= r.value.1 < MaxCoordinate
    ensures r.Some? ==> exists j :: 0 <= j < |Patterns| && FormResult(j, text) == r
                                   && forall k :: 0 <= k < j ==> FormResult(k, text).None?
    ensures r.None? <==> forall k :: 0 <= k < |Patterns| ==> FormResult(k, text).None?
  {
    var rs := FormResults(text);
    match FirstIndex(rs, (o: Option<(int, int)>) => o.Some?)
    case None => None
    case Some(j) =>
      assert FormResult(j, text) == rs[j];
      rs[j]
  }

  /** The first form that yields a pair decides the result. */
  lemma FirstFormDecides(text: string, j: nat)
    requires j < |Patterns| && FormResult(j, text).Some?
    requires forall k :: 0 <= k < j ==> FormResult(k, text).None?
    ensures ExtractCoordinates(text) == FormResult(j, text)
  {
  }

  /** Text without a digit yields no pair. */
  lemma NoDigitsNoPair(text: string)
    requires forall i :: 0 <= i < |text| ==> !IsDigit(text[i])
    ensures ExtractCoordinates(text) == None
  {
    forall k | 0 <= k < |Patterns| ensures FormResult(k, text).None? {
      forall t | 0 <= t <= |text| ensures !MatchesAt(Patterns[k], text, t) {
        if t < |text| {
          MatchStartsWithDigit(Patterns[k], text, t);
        }
      }
      assert FormMatch(k, text).None?;
    }
  }
}
