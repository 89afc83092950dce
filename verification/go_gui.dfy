/** The two decisions of the window that are not drawing: which lines of the
    AI's analysis are shown, and what a click on the grid does. */
module GoGui {
  import opened Common
  import opened Text
  import GoAi

  // ---------------------------------------------------------------------
  // Splitting and joining on the two-character separator

  /** The separator the analysis is split on and joined with: a backslash
      followed by the letter n (two characters, not a line break). */
  const Sep: string := ['\\', 'n']

  /** The separator starts at position `j` of `s`. */
  predicate SepStarts(s: string, j: int) {
    0 <= j && j + 1 < |s| && s[j] == '\\' && s[j + 1] == 'n'
  }

  predicate SepFree(s: string) {
    forall j :: 0 <= j < |s| ==> !SepStarts(s, j)
  }

  /** An occurrence of the separator is a backslash followed by an n. */
  lemma SepAt(s: string, j: nat)
    ensures OccursAt(s, Sep, j) <==> SepStarts(s, j)
  {
    if j + 2 <= |s| {
      assert s[j..j + 2] == [s[j], s[j + 1]];
    }
  }

  /** Being free of the separator is Python's `Sep not in s`. */
  lemma SepFreeIsNotContained(s: string)
    ensures SepFree(s) <==> !Contains(s, Sep)
  {
    if Contains(s, Sep) {
      var j: nat :| OccursAt(s, Sep, j);
      SepAt(s, j);
    } else {
      forall j | 0 <= j < |s| ensures !SepStarts(s, j) {
        SepAt(s, j);
      }
    }
  }

  /** The first position at or after `i` where the separator starts. */
  function FindSep(s: string, i: nat): (k: Option<nat>)
    requires i <= |s|
    ensures k.Some? ==> i <= k.value && SepStarts(s, k.value)
    ensures k.Some? ==> forall j :: i <= j < k.value ==> !SepStarts(s, j)
    ensures k.None? ==> forall j :: i <= j ==> !SepStarts(s, j)
    decreases |s| - i
  {
    if i + 2 > |s| then None
    else if s[i] == '\\' && s[i + 1] == 'n' then Some(i)
    else FindSep(s, i + 1)
  }

  /** A window of a string without the separator has none either. */
  lemma SepFreeSlice(s: string, lo: nat, hi: nat)
    requires lo <= hi <= |s|
    requires forall j :: lo <= j && j + 1 < hi ==> !SepStarts(s, j)
    ensures SepFree(s[lo..hi])
  {
    forall k | 0 <= k < hi - lo ensures !SepStarts(s[lo..hi], k) {
      if SepStarts(s[lo..hi], k) {
        assert SepStarts(s, lo + k);
      }
    }
  }

  /** Python's `s.split(Sep)`: the pieces between separators, left to right. */
  function Split(s: string): (parts: seq<string>)
    ensures |parts| >= 1
    ensures forall k :: 0 <= k < |parts| ==> SepFree(parts[k])
    ensures Join(parts) == s
    ensures SepFree(s) ==> parts == [s]
    decreases |s|
  {
    match FindSep(s, 0)
    case None => [s]
    case Some(k) =>
      SepFreeSlice(s, 0, k);
      var rest := Split(s[k + 2..]);
      JoinCons(s[..k], rest);
      assert s == s[..k] + Sep + s[k + 2..];
      [s[..k]] + rest
  }

  /** Text with no backslash is one piece, line breaks and all. */
  lemma NoBackslashOnePiece(s: string)
    requires forall j :: 0 <= j < |s| ==> s[j] != '\\'
    ensures Split(s) == [s]
  {
  }

  /** Python's `Sep.join(parts)`. */
  function Join(parts: seq<string>): string
    decreases |parts|
  {
    if |parts| == 0 then ""
    else if |parts| == 1 then parts[0]
    else parts[0] + Sep + Join(parts[1..])
  }

  /** Joining a piece in front of a non-empty list puts a separator after it. */
  lemma JoinCons(p: string, rest: seq<string>)
    requires |rest| >= 1
    ensures Join([p] + rest) == p + Sep + Join(rest)
  {
    assert ([p] + rest)[1..] == rest;
  }

  /** Splitting a joined list of separator-free pieces gives the pieces back:
      the backslash and the n of the separator differ, so no separator can
      straddle a piece boundary. */
  lemma {:induction false} SplitJoin(parts: seq<string>)
    requires |parts| >= 1
    requires forall k :: 0 <= k < |parts| ==> SepFree(parts[k])
    ensures Split(Join(parts)) == parts
    decreases |parts|
  {
    if |parts| > 1 {
      var p := parts[0];
      var s := Join(parts);
      assert s == p + Sep + Join(parts[1..]);
      FirstSepAfter(p, Join(parts[1..]));
      assert s[|p| + 2..] == Join(parts[1..]);
      assert s[..|p|] == p;
      SplitJoin(parts[1..]);
    }
  }

  /** In `p + Sep + t` with `p` free of the separator, the first separator
      is the one right after `p`. */
  lemma FirstSepAfter(p: string, t: string)
    requires SepFree(p)
    ensures FindSep(p + Sep + t, 0) == Some(|p|)
  {
    var s := p + Sep + t;
    assert SepStarts(s, |p|);
    forall j | 0 <= j < |p| ensures !SepStarts(s, j) {
      if j + 1 < |p| {
        assert !SepStarts(p, j);
        assert s[j] == p[j] && s[j + 1] == p[j + 1];
      } else {
        assert s[j + 1] == '\\';
      }
    }
    FindSepIsFirst(s, 0, |p|);
  }

  /** `FindSep` reports the first occurrence. */
  lemma FindSepIsFirst(s: string, i: nat, k: nat)
    requires i <= k && SepStarts(s, k)
    requires forall j :: i <= j < k ==> !SepStarts(s, j)
    ensures FindSep(s, i) == Some(k)
  {
  }

  // ---------------------------------------------------------------------
  // The analysis filter

  /** Words that keep a line whatever its length: recommend, suggest,
      coordinate, play at, choose, position. */
  const PrimaryKeywords: seq<string> := ["推荐", "建议", "坐标", "下在", "选择", "位置"]

  /** Words that keep a line shorter than `ShortLine`: advantage,
      disadvantage, strategy, response. */
  const SecondaryKeywords: seq<string> := ["优势", "劣势", "策略", "应对"]

  const ShortLine: nat := 50
  const MaxKeptLines: nat := 3
  const MaxPlainLength: nat := 100
  const Ellipsis: string := "..."

  predicate HasAny(line: string, keywords: seq<string>) {
    exists k :: 0 <= k < |keywords| && Contains(line, keywords[k])
  }

  /** A stripped line is worth showing. */
  predicate KeepLine(line: string) {
    HasAny(line, PrimaryKeywords) || (|line| < ShortLine && HasAny(line, SecondaryKeywords))
  }

  /** Every piece of the text, with surrounding whitespace removed. */
  function StrippedLines(text: string): (lines: seq<string>)
    ensures |lines| == |Split(text)|
    ensures forall k :: 0 <= k < |lines| ==> lines[k] == Strip(Split(text)[k])
  {
    var parts := Split(text);
    seq(|parts|, k requires 0 <= k < |parts| => Strip(parts[k]))
  }

  /** The stripped lines worth showing, in their original order. */
  function KeyLines(text: string): (kept: seq<string>)
    ensures forall line :: line in kept <==> line in StrippedLines(text) && KeepLine(line)
  {
    Filter(StrippedLines(text), KeepLine)
  }

  /** `simplify_ai_analysis`. */
  function SimplifyAnalysis(analysis: string): (r: string)
    // With key lines, the result reads back as exactly the first three of them.
    ensures |KeyLines(analysis)| > 0 ==>
              var kept := KeyLines(analysis);
              Split(r) == kept[..if |kept| < MaxKeptLines then |kept| else MaxKeptLines]
    // Without, short text comes back unchanged ...
    ensures |KeyLines(analysis)| == 0 && |analysis| <= MaxPlainLength ==> r == analysis
    // ... and long text is cut to its first 100 characters and marked.
    ensures |KeyLines(analysis)| == 0 && |analysis| > MaxPlainLength ==>
              |r| == MaxPlainLength + 3 && r[..MaxPlainLength] == analysis[..MaxPlainLength] && r[MaxPlainLength..] == Ellipsis
  {
    var kept := KeyLines(analysis);
    if |kept| > 0 then
      var shown := kept[..if |kept| < MaxKeptLines then |kept| else MaxKeptLines];
      KeyLinesSepFree(analysis);
      SplitJoin(shown);
      Join(shown)
    else if |analysis| > MaxPlainLength then analysis[..MaxPlainLength] + Ellipsis
    else analysis
  }

  /** A window of a separator-free string is separator-free. */
  lemma SepFreeWindow(s: string, lo: nat, hi: nat)
    requires SepFree(s) && lo <= hi <= |s|
    ensures SepFree(s[lo..hi])
  {
    SepFreeSlice(s, lo, hi);
  }

  /** Stripping a piece without the separator leaves a line without it. */
  lemma StripSepFree(s: string)
    requires SepFree(s)
    ensures SepFree(Strip(s))
  {
    var i := LeadEnd(s);
    var j := TrailStart(s, i);
    assert Strip(s) == s[i..j];
    SepFreeWindow(s, i, j);
  }

  lemma KeyLinesSepFree(text: string)
    ensures forall k :: 0 <= k < |KeyLines(text)| ==> SepFree(KeyLines(text)[k])
  {
    var lines := StrippedLines(text);
    forall k | 0 <= k < |lines| ensures SepFree(lines[k]) {
      StripSepFree(Split(text)[k]);
    }
    var kept := KeyLines(text);
    forall k | 0 <= k < |kept| ensures SepFree(kept[k]) {
      assert kept[k] in lines;
    }
  }

  /** A line that has already been stripped is left alone by `Strip`. */
  lemma StripStripped(s: string)
    requires |s| == 0 || (!IsSpace(s[0]) && !IsSpace(s[|s| - 1]))
    ensures Strip(s) == s
  {
    if |s| > 0 {
      assert LeadEnd(s) == 0;
      assert TrailStart(s, 0) == |s|;
      assert s[0..|s|] == s;
    }
  }

  /** A key line is already stripped and worth keeping. */
  lemma KeptLineIsStripped(text: string, line: string)
    requires line in KeyLines(text)
    ensures KeepLine(line) && Strip(line) == line
  {
    var lines := StrippedLines(text);
    var m :| 0 <= m < |lines| && lines[m] == line;
    StripStripped(line);
  }

  /** The lines of a simplified text are found again, all of them, by the
      filter. */
  lemma {:induction false} ShownLinesKept(analysis: string)
    requires |KeyLines(analysis)| > 0
    ensures var kept := KeyLines(analysis);
            KeyLines(SimplifyAnalysis(analysis)) == kept[..if |kept| < MaxKeptLines then |kept| else MaxKeptLines]
  {
    var kept := KeyLines(analysis);
    var shown := kept[..if |kept| < MaxKeptLines then |kept| else MaxKeptLines];
    forall k | 0 <= k < |shown| ensures KeepLine(shown[k]) && Strip(shown[k]) == shown[k] {
      assert shown[k] in kept;
      KeptLineIsStripped(analysis, shown[k]);
    }
    KeyLinesOfStrippedKept(SimplifyAnalysis(analysis), shown);
  }

  /** Text whose pieces are stripped lines worth keeping keeps all of them. */
  lemma KeyLinesOfStrippedKept(r: string, shown: seq<string>)
    requires Split(r) == shown
    requires forall k :: 0 <= k < |shown| ==> KeepLine(shown[k]) && Strip(shown[k]) == shown[k]
    ensures KeyLines(r) == shown
  {
    var lines := StrippedLines(r);
    assert lines == shown;
    FilterKeepsAll(lines, KeepLine);
  }

  /** Once key lines exist, simplifying again changes nothing. */
  lemma {:induction false} SimplifyIdempotent(analysis: string)
    requires |KeyLines(analysis)| > 0
    ensures SimplifyAnalysis(SimplifyAnalysis(analysis)) == SimplifyAnalysis(analysis)
  {
    var r := SimplifyAnalysis(analysis);
    var r2 := SimplifyAnalysis(r);
    ShownLinesKept(analysis);
    assert Split(r2) == Split(r);
    assert r2 == Join(Split(r2));
  }

  // ---------------------------------------------------------------------
  // Clicking on the grid

  /** What a click on grid point `(row, col)` leads to. */
  datatype ClickOutcome =
    | NotConnected          // the AI is not connected: a warning, no move
    | AiToMove              // it is white's turn: a notice, no move
    | OffGrid               // the point is outside the grid: ignored
    | Occupied              // `make_move` refused the point: a warning
    | Placed(askAi: bool)   // black played there; `askAi` starts the AI's reply

  /** `on_canvas_click` over the grid point the click rounds to. */
  function OnClick(g: GoAi.Game, connected: bool, autoAi: bool, row: int, col: int): (res: (GoAi.Game, ClickOutcome))
    ensures res.1.Placed? <==> connected && g.current == GoAi.Black && GoAi.EmptyAt(g.board, row, col)
    ensures res.1.Placed? ==> res.0 == GoAi.Place(g, row, col) && res.0.board[row][col] == GoAi.Black
    ensures res.1.Placed? ==> (res.1.askAi <==> autoAi)
    ensures !res.1.Placed? ==> res.0 == g
    ensures !connected ==> res.1 == NotConnected
    ensures connected && g.current != GoAi.Black ==> res.1 == AiToMove
    ensures connected && g.current == GoAi.Black && !GoAi.InBounds(row, col) ==> res.1 == OffGrid
    ensures GoAi.Valid(g) ==> GoAi.Valid(res.0)
  {
    if !connected then (g, NotConnected)
    else if g.current != GoAi.Black then (g, AiToMove)
    else if !(0 <= row < 19 && 0 <= col < 19) then (g, OffGrid)
    else
      var (h, ok) := GoAi.MakeMove(g, row, col);
      if ok then (h, Placed(autoAi && h.current == GoAi.White)) else (h, Occupied)
  }
}
