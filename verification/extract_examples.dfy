/** Worked inputs for the coordinate extractor: the ordinary case, an input
    with numbers but no recognisable pair, and a first pair out of range that
    falls through to a later form. */
module ExtractExamples {
  import opened Common
  import opened Text
  import opened Extract

  /** "13,7" reads as row 13, column 7, i.e. (12, 6) 0-indexed. */
  lemma PlainPair()
    ensures ExtractCoordinates("13,7") == Some((12, 6))
  {
    var text := "13,7";
    PatternsDeterministic();
    var m := Span(0, 2, 3, 4);
    assert RunEnd(text, 0, IsDigit) == 2;
    assert RunEnd(text, 3, IsSpace) == 3;
    assert RunEnd(text, 3, IsDigit) == 4;
    assert ScanAt(Patterns[0], text, 0) == Some(m);
    FirstScanIsFirstMatch(Patterns[0], text, 0);
    assert text[0..2] == "13" && text[3..4] == "7";
    assert Value("13") == 13 && Value("7") == 7;
    assert FormResult(0, text) == Some((12, 6));
  }

  /** "row 25, col 3" has no pair of numbers in any of the eight forms. */
  lemma NoPairInText()
    ensures ExtractCoordinates("row 25, col 3") == None
  {
    var text := "row 25, col 3";
    PatternsDeterministic();
    forall i | 0 <= i < |Patterns| ensures FormResult(i, text).None? {
      forall t | 0 <= t <= |text| ensures ScanAt(Patterns[i], text, t).None? {
        RowColNoScan(i, t);
      }
      NoScanAnywhere(Patterns[i], text);
    }
  }

  lemma RowColNoScan(i: nat, t: nat)
    requires i < |Patterns| && t <= 13
    ensures ScanAt(Patterns[i], "row 25, col 3", t).None?
  {
    var text := "row 25, col 3";
    if t == 4 || t == 5 {
      RowColNoScanAt25(i, t);
    } else if t == 12 {
      RowColNoScanAt3(i);
    } else {
      assert t == 13 || !IsDigit(text[t]);
    }
  }

  /** From "25" the text goes on with ", c": no form's separator leads to a digit. */
  lemma RowColNoScanAt25(i: nat, t: nat)
    requires i < |Patterns| && (t == 4 || t == 5)
    ensures ScanAt(Patterns[i], "row 25, col 3", t).None?
  {
    var text := "row 25, col 3";
    assert RunEnd(text, t, IsDigit) == 6;
    SeparatorAfter25(i);
    assert text[8] == 'c';
  }

  /** After "25" every separator either fails or stops before the "c". */
  lemma SeparatorAfter25(i: nat)
    requires i < |Patterns|
    ensures var s := ScanSeparator(Patterns[i].sep, "row 25, col 3", 6);
            s.None? || s == Some(8)
  {
    var text := "row 25, col 3";
    assert text[6] == ',' && text[7] == ' ' && text[8] == 'c';
    assert RunEnd(text, 7, IsSpace) == 8;
    assert RunEnd(text, 6, IsSpace) == 6;
    if i == 0 {} else if i == 1 {} else if i == 2 {} else if i == 3 {}
    else if i == 4 {} else if i == 5 {} else if i == 6 {} else {}
  }

  /** "3" ends the text: there is nothing after it for a separator. */
  lemma RowColNoScanAt3(i: nat)
    requires i < |Patterns|
    ensures ScanAt(Patterns[i], "row 25, col 3", 12).None?
  {
    var text := "row 25, col 3";
    assert RunEnd(text, 12, IsDigit) == 13;
    var sep := Patterns[i].sep;
    assert ScanSeparator(sep, text, 13).None? || ScanSeparator(sep, text, 13) == Some(13) by {
      if i == 0 {} else if i == 1 {} else if i == 2 {} else if i == 3 {}
      else if i == 4 {} else if i == 5 {} else if i == 6 {} else {}
    }
  }

  /** In "25,3 then 4-5" the comma forms find (25, 3) first, which is off the
      board; they do not look further, the whitespace form finds nothing, and
      the hyphen form supplies (4, 5), i.e. (3, 4) 0-indexed. */
  lemma OutOfRangeFallsThrough()
    ensures ExtractCoordinates("25,3 then 4-5") == Some((3, 4))
  {
    var text := "25,3 then 4-5";
    CommaFormsSeeOffBoardPair(0);
    CommaFormsSeeOffBoardPair(1);
    WhitespaceFormFindsNothing();
    HyphenFormFindsPair();
    FourthFormDecides(text);
  }

  /** When the first three forms yield nothing and the fourth yields a pair,
      that pair is the result. */
  lemma FourthFormDecides(text: string)
    requires FormResult(0, text).None? && FormResult(1, text).None? && FormResult(2, text).None?
    requires FormResult(3, text).Some?
    ensures ExtractCoordinates(text) == FormResult(3, text)
  {
    FirstFormDecides(text, 3);
  }

  lemma CommaFormsSeeOffBoardPair(i: nat)
    requires i == 0 || i == 1
    ensures FormResult(i, "25,3 then 4-5").None?
  {
    var text := "25,3 then 4-5";
    var first := Span(0, 2, 3, 4);
    PatternsDeterministic();
    CommaScan(i);
    FirstScanIsFirstMatch(Patterns[i], text, 0);
    assert text[0..2] == "25";
    assert Value("25") == 25;
    assert Numbers(text, first).0 == 25;
  }

  /** Both comma forms read "25,3" at the start. */
  lemma CommaScan(i: nat)
    requires i == 0 || i == 1
    ensures ScanAt(Patterns[i], "25,3 then 4-5", 0) == Some(Span(0, 2, 3, 4))
  {
    var text := "25,3 then 4-5";
    assert RunEnd(text, 0, IsDigit) == 2;
    assert RunEnd(text, 3, IsDigit) == 4;
    assert ScanSeparator(Patterns[i].sep, text, 2) == Some(3) by {
      assert RunEnd(text, 3, IsSpace) == 3;
      if i == 1 {
        assert RunEnd(text, 2, IsSpace) == 2;
      }
    }
  }

  lemma WhitespaceFormFindsNothing()
    ensures FormResult(2, "25,3 then 4-5").None?
  {
    var text := "25,3 then 4-5";
    PatternsDeterministic();
    forall t | 0 <= t <= |text| ensures ScanAt(Patterns[2], text, t).None? {
      WhitespaceNoScan(t);
    }
    NoScanAnywhere(Patterns[2], text);
  }

  lemma HyphenFormFindsPair()
    ensures FormResult(3, "25,3 then 4-5") == Some((3, 4))
  {
    var text := "25,3 then 4-5";
    var hyphen := Span(10, 11, 12, 13);
    HyphenFirstMatch();
    assert text[10..11] == "4" && text[12..13] == "5";
    assert Value("4") == 4 && Value("5") == 5;
    assert Numbers(text, hyphen) == (4, 5);
  }

  lemma HyphenFirstMatch()
    ensures FirstMatch(Patterns[3], "25,3 then 4-5") == Some(Span(10, 11, 12, 13))
  {
    var text := "25,3 then 4-5";
    PatternsDeterministic();
    HyphenScan();
    forall t | 0 <= t < 10 ensures ScanAt(Patterns[3], text, t).None? {
      HyphenNoScanBefore(t);
    }
    FirstScanIsFirstMatch(Patterns[3], text, 10);
  }

  lemma HyphenScan()
    ensures ScanAt(Patterns[3], "25,3 then 4-5", 10) == Some(Span(10, 11, 12, 13))
  {
    var text := "25,3 then 4-5";
    assert RunEnd(text, 10, IsDigit) == 11;
    assert RunEnd(text, 12, IsDigit) == 13;
  }

  lemma WhitespaceNoScan(t: nat)
    requires t <= 13
    ensures ScanAt(Patterns[2], "25,3 then 4-5", t).None?
  {
    if t <= 3 {
      WhitespaceNoScanLeft(t);
    } else {
      WhitespaceNoScanRight(t);
    }
  }

  lemma WhitespaceNoScanLeft(t: nat)
    requires t <= 3
    ensures ScanAt(Patterns[2], "25,3 then 4-5", t).None?
  {
    var text := "25,3 then 4-5";
    if t == 0 || t == 1 {
      WhitespaceNoScanAt25(t);
    } else if t == 3 {
      WhitespaceNoScanAt3();
    } else {
      assert !IsDigit(text[t]);
    }
  }

  /** "25" is followed by a comma, not by whitespace. */
  lemma WhitespaceNoScanAt25(t: nat)
    requires t == 0 || t == 1
    ensures ScanAt(Patterns[2], "25,3 then 4-5", t).None?
  {
    var text := "25,3 then 4-5";
    assert RunEnd(text, t, IsDigit) == 2;
    assert RunEnd(text, 2, IsSpace) == 2;
  }

  /** "3" is followed by whitespace and then a letter. */
  lemma WhitespaceNoScanAt3()
    ensures ScanAt(Patterns[2], "25,3 then 4-5", 3).None?
  {
    var text := "25,3 then 4-5";
    assert RunEnd(text, 3, IsDigit) == 4;
    assert RunEnd(text, 4, IsSpace) == 5;
    assert !IsDigit(text[5]);
  }

  lemma WhitespaceNoScanRight(t: nat)
    requires 3 < t <= 13
    ensures ScanAt(Patterns[2], "25,3 then 4-5", t).None?
  {
    var text := "25,3 then 4-5";
    if t == 10 {
      assert RunEnd(text, t, IsDigit) == 11;
      assert RunEnd(text, 11, IsSpace) == 11;
    } else if t == 12 {
      assert RunEnd(text, t, IsDigit) == 13;
    } else {
      assert t == 13 || !IsDigit(text[t]);
    }
  }

  lemma HyphenNoScanBefore(t: nat)
    requires t < 10
    ensures ScanAt(Patterns[3], "25,3 then 4-5", t).None?
  {
    var text := "25,3 then 4-5";
    if t == 0 || t == 1 {
      HyphenNoScanAt25(t);
    } else if t == 3 {
      HyphenNoScanAt3();
    } else {
      assert !IsDigit(text[t]);
    }
  }

  lemma HyphenNoScanAt25(t: nat)
    requires t == 0 || t == 1
    ensures ScanAt(Patterns[3], "25,3 then 4-5", t).None?
  {
    var text := "25,3 then 4-5";
    assert RunEnd(text, t, IsDigit) == 2;
    assert text[2] == ',';
  }

  lemma HyphenNoScanAt3()
    ensures ScanAt(Patterns[3], "25,3 then 4-5", 3).None?
  {
    var text := "25,3 then 4-5";
    assert RunEnd(text, 3, IsDigit) == 4;
    assert text[4] == ' ';
  }
}
