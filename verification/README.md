# Go playing robot: a Dafny model of its game core

The program is a Go board in a desktop window. The user plays black by
clicking, and a language model plays white. The model's reply is free text.
A coordinate extractor reads a "row, column" pair out of that reply. When the
reply names no usable point, a fixed list of conventional fallback points is
tried instead. The program places stones only: it has no captures, no ko
rule and no scoring.

This project models that core as pure functions over immutable values.

- `Text` (text.dfy) holds the character classes and string helpers the
  program leans on:
  - ASCII digits;
  - the whitespace set of Python's `str.isspace()`;
  - `int()` / `str()` for natural numbers;
  - `strip()`;
  - substring search.
- `Extract` (extract.dfy) is `extract_coordinates`.
  - Its eight regular expressions are data (`Pattern`).
  - `MatchesWith` states declaratively what an occurrence of a form is.
  - `ScanAt` is a deterministic scanner, proved sound and complete for the
    greedy occurrence a backtracking regex engine reports.
  - `FirstMatch` finds the leftmost occurrence, as `re.findall(...)[0]` does.
  - `ExtractExamples` (extract_examples.dfy) works the extractor on concrete
    replies.
- `Fallback` (fallback.dfy) is `get_smart_fallback_positions`, as a list.
- `Grid` (grid.dfy) holds square integer grids and the count of occupied
  points.
- `GoAi` (go_ai.dfy) is the AI player's game state:
  - `make_move`, `reset_game`, and the part of the background task that runs
    after the model has answered (`AiCommit`);
  - the invariant every reachable state keeps (`Valid`);
  - whole sessions of moves, replies and resets.
- `GoBoard` (go_board.dfy) is the standalone `GoBoard` class and its `Stone`
  enum.
- `GoGui` (go_gui.dfy) is the window's non-drawing logic:
  - `simplify_ai_analysis`, with Python's `split`/`join` on its separator;
  - the gating in `on_canvas_click`.

Two behaviours of the code that a reader might not expect. The model follows
the code in both.

- **A late reply is still committed.** The code has no session token. The
  background task of `ai_think` writes the grid, the move list and the turn
  directly, so a reply that arrives after `reset_game` is applied to the new
  game. `AiCommit` therefore applies any reply to whatever state it is given.
  `GoAi.ReplyMovesWhileCornerStarFree` shows the consequence: on a freshly
  reset game, every successful reply plays a stone.
- **The analysis is split on backslash-n, not on line breaks.**
  `simplify_ai_analysis` splits the analysis text on the two characters
  backslash and `n`, not on a line break. `GoGui.Split` does the same, and
  `GoGui.NoBackslashOnePiece` shows that a reply with real line breaks but no
  backslash is one line.

## Model

| member | source | states |
|---|---|---|
| Text.Strip | src/go_gui.py:232 | The result has no whitespace at either end and is a window of the input with only whitespace cut off on both sides. |
| Text.Contains | src/go_gui.py:233 | True exactly when the keyword occurs at some position of the line. |
| Text.RunEnd | src/go_ai.py:103 | A greedy `\d+` or `\s*` from a position stops at the first character outside the class: every character before the end is in the class, the one at the end is not. |
| Text.ValueOfDecimal | src/go_ai.py:181 | Reading back the decimal rendering of a number gives the number: `int(str(n)) == n`. |
| Text.Value | src/go_ai.py:117 | `int()` of a digit run, read in base 10. `ValueOfDecimal` and `ValueLeadingZero` state what it reads. |
| Text.Decimal | src/go_ai.py:181 | `str()` of a non-negative int: at least one character, all digits, and no leading zero unless the number is 0. `ValueOfDecimal` proves it reads back. |
| Text.ValueLeadingZero | src/go_ai.py:117 | A leading zero does not change the number read, as `int("07") == 7`. |
| Extract.PatternsDeterministic | src/go_ai.py:102-111 | Each of the eight forms has a non-empty separator (a mark character, or at least one whitespace character), and its mark and closing characters are neither digits nor whitespace. |
| Extract.Patterns | src/go_ai.py:102-111 | The eight forms in the order they are tried: comma or full-width comma (U+FF0C), the same with space before the mark, whitespace, hyphen, full stop, 行 then 列, 列 then 行, and ASCII comma with space on both sides. |
| Extract.ScanAtSound | src/go_ai.py:102-111 | Whatever the scanner reports at a position is an occurrence of the form there, with both digit runs maximal. |
| Extract.ScanAtComplete | src/go_ai.py:102-111 | Every occurrence of a form at a position is found by the scanner with the same first number and separator, and the greedy one is found exactly. |
| Extract.FirstMatchFrom | src/go_ai.py:114-117 | The scan from a position returns the first position at which the form occurs, with the greedy occurrence there, or reports that the form occurs nowhere further on. |
| Extract.FirstMatch | src/go_ai.py:114-117 | The occurrence examined is the leftmost one and the greedy one; there is none exactly when the form occurs nowhere. |
| Extract.FirstScanIsFirstMatch | src/go_ai.py:114-117 | When the scanner fails at every earlier position and succeeds at a position, the occurrence it reads there is the one the search reports. |
| Extract.LeftmostIs | src/go_ai.py:114-117 | A greedy occurrence with none to its left is the one examined. |
| Extract.NoScanAnywhere | src/go_ai.py:114-115 | A form the scanner finds at no position has no occurrence to examine. |
| Extract.FormResult | src/go_ai.py:115-122 | One form yields a pair exactly when its leftmost occurrence has both numbers in 1..19. The pair is then (first number - 1, second number - 1), within 0..18. |
| Extract.ExtractCoordinates | src/go_ai.py:99-124 | The result is the pair of the first form in list order that yields one, with both components in 0..18; there is none exactly when no form yields a pair. |
| Extract.FirstFormDecides | src/go_ai.py:113-122 | When every earlier form yields nothing and a form yields a pair, that pair is the result. |
| Extract.NoDigitsNoPair | src/go_ai.py:113-124 | Text without a digit yields no pair. |
| ExtractExamples.PlainPair | src/go_ai.py:103-120 | "13,7" gives row 12, column 6. |
| ExtractExamples.NoPairInText | src/go_ai.py:113-124 | "row 25, col 3" gives no pair: no form occurs anywhere in it, since "25," is followed by " c" and "3" ends the text. |
| ExtractExamples.OutOfRangeFallsThrough | src/go_ai.py:113-122 | In "25,3 then 4-5" the comma forms see 25,3 and give nothing, the whitespace form finds nothing, and the hyphen form gives (3, 4). |
| Fallback.FallbackPositions | src/go_ai.py:201-222 | No position offered has been played, and every position offered is on the 19 x 19 board. |
| Fallback.FallbackMembers | src/go_ai.py:204-222 | A position is offered exactly when it is in one of the three lists and has not been played. |
| Fallback.FallbackInDeclarationOrder | src/go_ai.py:206-222 | The offered positions are the star points, small-eye points and other points in declaration order, with the played positions removed. |
| Fallback.FallbackRepeatsCornerPoint | src/go_ai.py:207-219 | While (15, 15) is unplayed it is offered twice. |
| Fallback.FallbackOnEmptyBoard | src/go_ai.py:204-222 | With nothing played, all 26 listed positions are offered in order. |
| Fallback.FirstWhileCornerStarFree | src/go_ai.py:207-210 | While (3, 3) is unplayed it is the first position offered. |
| Grid.Zeros | src/go_ai.py:230 | The new grid is square, all zero, and holds no stone. |
| GoAi.Reset | src/go_ai.py:228-233 | After a reset the grid is all zero, black is to move, the move list is empty, the thinking flag is off, and the state invariant holds. |
| GoAi.Place | src/go_ai.py:88-90 | The point takes the mover's colour, every other point is unchanged, the move is appended and the turn passes. |
| GoAi.PlaceKeepsValid | src/go_ai.py:88-90 | Placing on an empty point keeps the invariant: alternation, moves on their points, distinct points, every stone recorded, stones counted by moves. |
| GoAi.MakeMove | src/go_ai.py:84-92 | It succeeds exactly on an empty point of the board; success is a placement, failure changes nothing, and the invariant is kept. |
| GoAi.FirstEmpty | src/go_ai.py:174-175 | The first listed point that is empty, with every earlier one occupied; none when all are occupied. |
| GoAi.Usable | src/go_ai.py:153-158 | A coordinate is used exactly when the extractor produced it and its point is empty; it is then the extracted coordinate. |
| GoAi.AiCommit | src/go_ai.py:144-193 | An exception or a non-200 status reports its message and changes nothing. Either both coordinates are reported or neither. A reported point was empty and now holds the mover's stone, with no other change. When a status-200 reply yields a coordinate whose point is empty, that point is played and reported with the reply text. The invariant is kept. |
| GoAi.AiCommitFallsBack | src/go_ai.py:172-182 | With no usable coordinate and a free fallback point, the first free fallback point is played and the message names it 1-indexed. |
| GoAi.AiCommitGivesUp | src/go_ai.py:184-187 | With no usable coordinate and no free fallback point, nothing changes and the reply text is reported. |
| GoAi.CommitPlacesOneStone | src/go_ai.py:160-178 | A commit that reports a point has recorded exactly one move and passed the turn. |
| GoAi.ReplyMovesWhileFallbackFree | src/go_ai.py:153-182 | While some fallback point is free, every successful reply plays a stone. |
| GoAi.ReplyMovesWhileCornerStarFree | src/go_ai.py:172-182 | While (3, 3) is unplayed and empty, as after a reset, every successful reply plays a stone. |
| GoAi.FallbackMessageReadsBack | src/go_ai.py:181 | The fallback message, fed to the extractor, yields the point it names. |
| GoAi.FallbackMessage | src/go_ai.py:181 | The fallback message names the point 1-indexed as "(row, col)" after a fixed prefix. `FallbackMessageReadsBack` shows the extractor reads the point back. |
| GoAi.Step | src/go_ai.py:84-92 | A reset gives the reset state; a move or a reply either changes nothing or adds one move and passes the turn; the invariant is kept. |
| GoAi.RunKeepsValid | src/go_ai.py:88-90 | Every sequence of moves, replies and resets from a valid state ends in a valid state. |
| GoAi.TurnFollowsMoveCount | src/go_ai.py:228-233 | After any session started by a reset, black is to move exactly when the number of moves is even, and the grid holds as many stones as there are moves. |
| GoBoard.Value | src/go_board.py:7-10 | Stones are stored as 0, 1 or 2, and 0 means empty. |
| GoBoard.NewBoard | src/go_board.py:13-19 | A new board is square of the given size, all empty, with no captures, no moves and no ko point. |
| GoBoard.IsValidMove | src/go_board.py:21-28 | A move is valid exactly when its point is on the board, empty and not the ko point; an off-board point is never valid. |
| GoBoard.PlaceStone | src/go_board.py:30-35 | It succeeds exactly on a valid move. Success sets the point to the stone's value, leaves every other point alone and appends the move. Failure changes nothing. Size, captures and ko point never change. |
| GoBoard.GetBoardState | src/go_board.py:37-38 | The snapshot is square of the board's size and shows every point as the board does. |
| GoBoard.SnapshotOutlivesPlacement | src/go_board.py:37-38 | A snapshot taken before a move shows the point empty, while a snapshot of the board after the move shows the stone. |
| GoBoard.Replay | src/go_board.py:16-19 | A board built only by placement keeps its size, never gets a ko point and never counts a capture. |
| GoBoard.ValidMeansOnBoardAndEmpty | src/go_board.py:19-28 | On such a board a move is valid exactly when its point is on the board and empty. |
| GoBoard.PlacementCountsStones | src/go_board.py:33-34 | A valid placement adds one stone to the grid, or none when the stone is `Empty`. |
| GoBoard.StonesMatchHistory | src/go_board.py:30-35 | On a board built by placement, the number of stones equals the number of recorded moves whose stone is not `Empty`. |
| GoBoard.EmptyStoneOnlyRecords | src/go_board.py:21-35 | Placing `Empty` succeeds, leaves the grid unchanged, records a move, and the point can be played again. |
| GoBoard.NoTurnOrder | src/go_board.py:21-35 | Black can place twice in a row on two valid points. |
| GoGui.FindSep | src/go_gui.py:228 | The first position at or after the start where the backslash-n separator occurs, or none. |
| GoGui.SepFreeIsNotContained | src/go_gui.py:228 | A text is free of the separator exactly when Python's substring test finds no backslash-n in it. |
| GoGui.Split | src/go_gui.py:228 | There is at least one piece, no piece contains the separator, joining the pieces with it gives back the text, and text without it is a single piece. |
| GoGui.SplitJoin | src/go_gui.py:228-240 | Splitting a join of separator-free pieces gives back the pieces. |
| GoGui.Join | src/go_gui.py:240 | `"\\n".join`: pieces with the two-character separator between them. `Split` and `SplitJoin` show that it undoes the split and is undone by it. |
| GoGui.NoBackslashOnePiece | src/go_gui.py:228 | Text without a backslash, line breaks included, is one piece. |
| GoGui.StrippedLines | src/go_gui.py:231-232 | One stripped line per piece of the split. |
| GoGui.KeyLines | src/go_gui.py:231-236 | A line is kept exactly when it is a stripped piece that has a primary keyword, or is shorter than 50 characters and has a secondary keyword. |
| GoGui.KeepLine | src/go_gui.py:233-236 | A stripped line is kept when it has a primary keyword, or is shorter than 50 characters and has a secondary keyword. |
| GoGui.SimplifyAnalysis | src/go_gui.py:225-243 | With kept lines, the result splits back into exactly the first three or fewer of them in order. Without kept lines, text of at most 100 characters is returned unchanged, and longer text becomes its first 100 characters followed by "...". |
| GoGui.ShownLinesKept | src/go_gui.py:239-240 | The lines of a simplified text are all kept again by the filter. |
| GoGui.SimplifyIdempotent | src/go_gui.py:225-243 | Once kept lines exist, simplifying the result again changes nothing. |
| GoGui.OnClick | src/go_gui.py:170-198 | A click plays exactly when the AI is connected, black is to move and the point is on the board and empty; the play is `make_move`'s placement of a black stone; otherwise nothing changes. The AI reply is requested exactly when auto-reply is on. |

## Left out

- Extract.ExtractCoordinates: digits are ASCII only. Python's `\d` also matches every other Unicode decimal digit, and `int()` reads those, so such replies are outside the model.
- GoBoard.GetBoardState: the model has values, not objects. It cannot state that the numpy copy does not alias the board; `SnapshotOutlivesPlacement` states the observable consequence instead.
- The language-model call (`Generation.call`), the API key and `.env` loading, and the `__init__` check for a missing key are left out, because they are network and configuration I/O. The call's outcome is the `Response` input of `AiCommit`.
- The background thread of `get_quick_ai_move` and its races with the window are left out, because they are concurrency. `AiCommit` is the thread's work after the call returns, run as one step.
- When no completion callback is given, nothing is reported. The model always produces the report, and the `if callback:` tests are left out.
- Exceptions are modelled only as the call's `Raised` outcome. No other statement of the commit can raise on the modelled inputs.
- `get_ai_move` is left out because it only forwards to `get_quick_ai_move`.
- `analyze_position`, `get_ai_suggestion` and the `ai_thinking` flag they use are left out, because they only send prompts to the model. `reset_game` still clears the flag.
- Prompt texts and `get_board_state_description` are left out, because they are free-form text sent to the model.
- `print` logging is left out.
- Drawing, dialogs, the info panel and `_update_ai_result` are left out, because they are presentation. `OnClick` returns which warning or notice would be shown.
- The float rounding from pixels to grid points in `on_canvas_click` is left out; `OnClick` takes the rounded row and column as inputs.
- main.py is only a launcher and is not part of this model.
