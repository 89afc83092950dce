/** The game state kept by the AI player object: a 19 x 19 grid of
    0 (empty), 1 (black, the user) and -1 (white, the AI), the player to
    move, and the list of moves made. Placement only: nothing is ever
    captured. The AI's move is decided from the reply text of the language
    model; the call itself and the background thread are outside the model,
    so the reply arrives here as a `Response` value. */
module GoAi {
  import opened Common
  import opened Text
  import opened Grid
  import Extract
  import Fallback

  const BoardSize: nat := 19
  const Black: int := 1
  const White: int := -1

  datatype Move = Move(row: int, col: int, player: int)

  datatype Game = Game(board: seq<seq<int>>, current: int, history: seq<Move>, thinking: bool)

  predicate InBounds(r: int, c: int) {
    0 <= r < BoardSize && 0 <= c < BoardSize
  }

  /** The grid has the fixed 19 x 19 shape. */
  predicate Shaped(board: seq<seq<int>>) {
    Square(board, BoardSize)
  }

  /** Point `(r, c)` is on the board and holds no stone. */
  predicate EmptyAt(board: seq<seq<int>>, r: int, c: int) {
    InBounds(r, c) && r < |board| && c < |board[r]| && board[r][c] == 0
  }

  /** The player to move after `n` moves have been made since the start. */
  function PlayerAfter(n: nat): int {
    if n % 2 == 0 then Black else White
  }

  /** The points of the moves made, in order. */
  function Positions(history: seq<Move>): (ps: seq<(int, int)>)
    ensures |ps| == |history|
    ensures forall k :: 0 <= k < |history| ==> ps[k] == (history[k].row, history[k].col)
  {
    seq(|history|, k requires 0 <= k < |history| => (history[k].row, history[k].col))
  }

  lemma PositionsAppend(history: seq<Move>, m: Move)
    ensures Positions(history + [m]) == Positions(history) + [(m.row, m.col)]
  {
  }

  // ---------------------------------------------------------------------
  // The state invariant

  /** What every state reached from a reset satisfies: the grid holds only
      0, 1 and -1; moves alternate starting with black and the player to move
      is the one after the last move; each move's point holds its player and
      no point was played twice; every stone on the grid was recorded; and
      the number of stones equals the number of moves. */
  ghost predicate Valid(g: Game) {
    && Shaped(g.board)
    && (forall i, j :: InBounds(i, j) ==> g.board[i][j] == 0 || g.board[i][j] == Black || g.board[i][j] == White)
    && g.current == PlayerAfter(|g.history|)
    && (forall k :: 0 <= k < |g.history| ==> g.history[k].player == PlayerAfter(k))
    && (forall k :: 0 <= k < |g.history| ==>
          InBounds(g.history[k].row, g.history[k].col) && g.board[g.history[k].row][g.history[k].col] == g.history[k].player)
    && (forall k, l :: 0 <= k < l < |g.history| ==> Positions(g.history)[k] != Positions(g.history)[l])
    && (forall i, j :: InBounds(i, j) && g.board[i][j] != 0 ==> (i, j) in Positions(g.history))
    && Stones(g.board) == |g.history|
  }

  // ---------------------------------------------------------------------
  // Operations

  /** `reset_game`: empty grid, black to move, no moves, not thinking. */
  function Reset(): (g: Game)
    ensures Shaped(g.board)
    ensures forall i, j :: InBounds(i, j) ==> g.board[i][j] == 0
    ensures g.current == Black && g.history == [] && !g.thinking
    ensures Valid(g)
  {
    Game(Zeros(BoardSize), Black, [], false)
  }

  /** Put the stone of the player to move on `(r, c)`, record the move and
      pass the turn. Shared by the user's move and both AI commit paths. */
  function Place(g: Game, r: int, c: int): (h: Game)
    requires EmptyAt(g.board, r, c)
    ensures |h.board| == |g.board|
    ensures forall i :: 0 <= i < |g.board| ==> |h.board[i]| == |g.board[i]|
    ensures h.board[r][c] == g.current
    ensures forall i, j :: 0 <= i < |g.board| && 0 <= j < |g.board[i]| && (i, j) != (r, c) ==> h.board[i][j] == g.board[i][j]
    ensures h.history == g.history + [Move(r, c, g.current)]
    ensures h.current == -g.current
    ensures h.thinking == g.thinking
  {
    Game(g.board[r := g.board[r][c := g.current]], -g.current, g.history + [Move(r, c, g.current)], g.thinking)
  }

  /** Placing on an empty point keeps the invariant: one more stone, one more
      move, the turn passes to the other colour. */
  lemma PlaceKeepsValid(g: Game, r: int, c: int)
    requires Valid(g)
    requires EmptyAt(g.board, r, c)
    ensures Valid(Place(g, r, c))
  {
    var h := Place(g, r, c);
    PlaceOnUnplayedPoint(g, r, c);
    PlaceKeepsHistoryOnBoard(g, r, c);
    PlaceKeepsPointsDistinct(g, r, c);
    PlaceKeepsStonesRecorded(g, r, c);
    PlaceAddsOneStone(g.board, r, c, g.current);
  }

  /** Putting a stone on an empty point adds one to the stone count. */
  lemma PlaceAddsOneStone(board: seq<seq<int>>, r: int, c: int, v: int)
    requires EmptyAt(board, r, c) && v != 0
    ensures Stones(board[r := board[r][c := v]]) == Stones(board) + 1
  {
    RowStonesUpdate(board[r], c, v);
    StonesUpdate(board, r, board[r][c := v]);
  }

  /** An empty point has not been played. */
  lemma PlaceOnUnplayedPoint(g: Game, r: int, c: int)
    requires Valid(g)
    requires EmptyAt(g.board, r, c)
    ensures (r, c) !in Positions(g.history)
  {
  }

  lemma PlaceKeepsHistoryOnBoard(g: Game, r: int, c: int)
    requires Valid(g)
    requires EmptyAt(g.board, r, c)
    ensures var h := Place(g, r, c);
            forall k :: 0 <= k < |h.history| ==>
              InBounds(h.history[k].row, h.history[k].col) && h.board[h.history[k].row][h.history[k].col] == h.history[k].player
  {
    var h := Place(g, r, c);
    PlaceOnUnplayedPoint(g, r, c);
    forall k | 0 <= k < |h.history|
      ensures InBounds(h.history[k].row, h.history[k].col) && h.board[h.history[k].row][h.history[k].col] == h.history[k].player
    {
      if k < |g.history| {
        assert Positions(g.history)[k] != (r, c);
      }
    }
  }

  lemma PlaceKeepsPointsDistinct(g: Game, r: int, c: int)
    requires Valid(g)
    requires EmptyAt(g.board, r, c)
    ensures var ps := Positions(Place(g, r, c).history);
            forall k, l :: 0 <= k < l < |ps| ==> ps[k] != ps[l]
  {
    var n := |g.history|;
    var ps := Positions(Place(g, r, c).history);
    PlaceOnUnplayedPoint(g, r, c);
    PositionsAppend(g.history, Move(r, c, g.current));
    assert ps == Positions(g.history) + [(r, c)];
    forall k, l | 0 <= k < l < |ps| ensures ps[k] != ps[l] {
      if l == n {
        assert ps[k] == Positions(g.history)[k];
      }
    }
  }

  lemma PlaceKeepsStonesRecorded(g: Game, r: int, c: int)
    requires Valid(g)
    requires EmptyAt(g.board, r, c)
    ensures var h := Place(g, r, c);
            forall i, j :: InBounds(i, j) && h.board[i][j] != 0 ==> (i, j) in Positions(h.history)
  {
    var h := Place(g, r, c);
    PositionsAppend(g.history, Move(r, c, g.current));
    assert Positions(h.history) == Positions(g.history) + [(r, c)];
    forall i, j | InBounds(i, j) && h.board[i][j] != 0 ensures (i, j) in Positions(h.history) {
      if (i, j) != (r, c) {
        assert (i, j) in Positions(g.history);
      }
    }
  }

  /** `make_move`: succeeds exactly on an empty point of the board; on
      failure nothing changes. */
  function MakeMove(g: Game, r: int, c: int): (res: (Game, bool))
    ensures res.1 <==> EmptyAt(g.board, r, c)
    ensures res.1 ==> res.0 == Place(g, r, c)
    ensures !res.1 ==> res.0 == g
    ensures Valid(g) ==> Valid(res.0)
  {
    if EmptyAt(g.board, r, c) then
      PlaceKeepsValidIfValid(g, r, c);
      (Place(g, r, c), true)
    else (g, false)
  }

  lemma PlaceKeepsValidIfValid(g: Game, r: int, c: int)
    requires EmptyAt(g.board, r, c)
    ensures Valid(g) ==> Valid(Place(g, r, c))
  {
    if Valid(g) {
      PlaceKeepsValid(g, r, c);
    }
  }

  /** The first point of `pts` that is empty on `board`, with its position in the list. */
  function FirstEmpty(board: seq<seq<int>>, pts: seq<(int, int)>): (r: Option<nat>)
    ensures r.Some? ==> r.value < |pts| && EmptyAt(board, pts[r.value].0, pts[r.value].1)
    ensures r.Some? ==> forall j :: 0 <= j < r.value ==> !EmptyAt(board, pts[j].0, pts[j].1)
    ensures r.None? ==> forall j :: 0 <= j < |pts| ==> !EmptyAt(board, pts[j].0, pts[j].1)
  {
    FirstIndex(pts, (p: (int, int)) => EmptyAt(board, p.0, p.1))
  }

  // ---------------------------------------------------------------------
  // Committing the AI's move

  /** What the model call produced: an HTTP-style status with the reply text
      and the error message, or an exception with its message. */
  datatype Response = Reply(status: int, text: string, message: string) | Raised(error: string)

  /** The arguments handed to the completion callback. */
  datatype Report = Report(row: Option<int>, col: Option<int>, text: string)

  const StatusOk: int := 200
  const ApiFailurePrefix: string := "API调用失败："
  const ThinkErrorPrefix: string := "AI思考出错："
  const FallbackPrefix: string := "AI选择备用位置: ("

  /** The message reported when a fallback point is used; it shows the point
      1-indexed, as `(row, col)`. */
  function FallbackMessage(r: nat, c: nat): string {
    FallbackPrefix + Decimal(r + 1) + ", " + Decimal(c + 1) + ")"
  }

  /** The coordinate read from the reply, when it names an empty point. */
  function Usable(g: Game, text: string): (r: Option<(int, int)>)
    ensures r.Some? ==> EmptyAt(g.board, r.value.0, r.value.1)
    ensures r.Some? ==> r == Extract.ExtractCoordinates(text)
    ensures var rc := Extract.ExtractCoordinates(text);
            rc.Some? && EmptyAt(g.board, rc.value.0, rc.value.1) ==> r == rc
  {
    var rc := Extract.ExtractCoordinates(text);
    if rc.Some? && EmptyAt(g.board, rc.value.0, rc.value.1) then rc else None
  }

  /** The part of the background task after the model has answered. */
  function AiCommit(g: Game, resp: Response): (res: (Game, Report))
    // An exception or a non-200 status reports the error and changes nothing.
    ensures resp.Raised? ==> res == (g, Report(None, None, ThinkErrorPrefix + resp.error))
    ensures resp.Reply? && resp.status != StatusOk ==> res == (g, Report(None, None, ApiFailurePrefix + resp.message))
    // Either both coordinates are reported or neither.
    ensures res.1.row.Some? <==> res.1.col.Some?
    // A reported point was empty and is now the AI's stone; no point means no change.
    ensures res.1.row.Some? ==> EmptyAt(g.board, res.1.row.value, res.1.col.value)
                                && res.0 == Place(g, res.1.row.value, res.1.col.value)
    ensures res.1.row.None? ==> res.0 == g
    // An extracted coordinate on an empty point is played, with the reply as the message.
    ensures resp.Reply? && resp.status == StatusOk && Usable(g, resp.text).Some? ==>
              res.1 == Report(Some(Usable(g, resp.text).value.0), Some(Usable(g, resp.text).value.1), resp.text)
    ensures forall r, c ::
              (resp.Reply? && resp.status == StatusOk && Extract.ExtractCoordinates(resp.text) == Some((r, c)) && EmptyAt(g.board, r, c))
              ==> res.1 == Report(Some(r), Some(c), resp.text)
    ensures Valid(g) ==> Valid(res.0)
  {
    match resp
    case Raised(e) => (g, Report(None, None, ThinkErrorPrefix + e))
    case Reply(status, text, message) =>
      if status != StatusOk then (g, Report(None, None, ApiFailurePrefix + message))
      else match Usable(g, text)
        case Some(rc) =>
          PlaceKeepsValidIfValid(g, rc.0, rc.1);
          (Place(g, rc.0, rc.1), Report(Some(rc.0), Some(rc.1), text))
        case None =>
          var fallback := Fallback.FallbackPositions(Positions(g.history));
          match FirstEmpty(g.board, fallback)
          case Some(i) =>
            var p := fallback[i];
            PlaceKeepsValidIfValid(g, p.0, p.1);
            (Place(g, p.0, p.1), Report(Some(p.0), Some(p.1), FallbackMessage(p.0, p.1)))
          case None => (g, Report(None, None, text))
  }

  /** When the reply names no usable point, the first fallback point that is
      still empty is played, and the message names it 1-indexed. */
  lemma AiCommitFallsBack(g: Game, text: string, message: string)
    requires Usable(g, text).None?
    requires FirstEmpty(g.board, Fallback.FallbackPositions(Positions(g.history))).Some?
    ensures var fallback := Fallback.FallbackPositions(Positions(g.history));
            var res := AiCommit(g, Reply(StatusOk, text, message));
            && res.1.row.Some? && res.1.col.Some?
            && (exists i :: 0 <= i < |fallback| && fallback[i] == (res.1.row.value, res.1.col.value)
                           && forall j :: 0 <= j < i ==> !EmptyAt(g.board, fallback[j].0, fallback[j].1))
            && res.1.text == FallbackMessage(res.1.row.value, res.1.col.value)
  {
    var fallback := Fallback.FallbackPositions(Positions(g.history));
    var i := FirstEmpty(g.board, fallback).value;
    var res := AiCommit(g, Reply(StatusOk, text, message));
    assert res.1.row == Some(fallback[i].0) && res.1.col == Some(fallback[i].1);
  }

  /** When neither the reply nor any fallback point is usable, nothing is
      played and the reply text is reported. */
  lemma AiCommitGivesUp(g: Game, text: string, message: string)
    requires Usable(g, text).None?
    requires forall p :: p in Fallback.FallbackPositions(Positions(g.history)) ==> !EmptyAt(g.board, p.0, p.1)
    ensures AiCommit(g, Reply(StatusOk, text, message)) == (g, Report(None, None, text))
  {
  }

  /** While (3, 3) is unplayed and empty, it is the first fallback point and it is free. */
  lemma FirstFallbackFree(g: Game)
    requires (3, 3) !in Positions(g.history) && EmptyAt(g.board, 3, 3)
    ensures FirstEmpty(g.board, Fallback.FallbackPositions(Positions(g.history))) == Some(0)
  {
    Fallback.FirstWhileCornerStarFree(Positions(g.history));
    FirstEmptyAtHead(g.board, Fallback.FallbackPositions(Positions(g.history)));
  }

  /** A commit that reports a point has made exactly one move and passed the turn. */
  lemma CommitPlacesOneStone(g: Game, resp: Response)
    requires AiCommit(g, resp).1.row.Some?
    ensures var res := AiCommit(g, resp);
            |res.0.history| == |g.history| + 1 && res.0.current == -g.current
  {
    var res := AiCommit(g, resp);
    var h := Place(g, res.1.row.value, res.1.col.value);
    assert res.0 == h;
  }

  /** While some fallback point is empty, every successful reply plays a
      stone: the reply's own point or the first free fallback point. */
  lemma ReplyMovesWhileFallbackFree(g: Game, text: string, message: string)
    requires FirstEmpty(g.board, Fallback.FallbackPositions(Positions(g.history))).Some?
    ensures AiCommit(g, Reply(StatusOk, text, message)).1.row.Some?
  {
    if Usable(g, text).None? {
      FallbackReportsPoint(g, text, message);
    } else {
      UsableReplyReportsPoint(g, text, message);
    }
  }

  /** A reply naming an empty point reports that point. */
  lemma UsableReplyReportsPoint(g: Game, text: string, message: string)
    requires Usable(g, text).Some?
    ensures AiCommit(g, Reply(StatusOk, text, message)).1.row.Some?
  {
  }

  /** With a free fallback point, the commit reports a point. */
  lemma FallbackReportsPoint(g: Game, text: string, message: string)
    requires Usable(g, text).None?
    requires FirstEmpty(g.board, Fallback.FallbackPositions(Positions(g.history))).Some?
    ensures AiCommit(g, Reply(StatusOk, text, message)).1.row.Some?
  {
  }

  /** There is no session check: on a game where (3, 3) is still free, as
      on the game a reset produces, every successful reply plays a stone. */
  lemma ReplyMovesWhileCornerStarFree(g: Game, text: string, message: string)
    requires (3, 3) !in Positions(g.history) && EmptyAt(g.board, 3, 3)
    ensures AiCommit(g, Reply(StatusOk, text, message)).1.row.Some?
  {
    FirstFallbackFree(g);
    ReplyMovesWhileFallbackFree(g, text, message);
  }

  /** A reset leaves (3, 3) free, so the lemma above applies to a reply that
      arrives after a reset. */
  lemma ResetLeavesCornerStarFree()
    ensures (3, 3) !in Positions(Reset().history) && EmptyAt(Reset().board, 3, 3)
  {
  }

  lemma FirstEmptyAtHead(board: seq<seq<int>>, pts: seq<(int, int)>)
    requires |pts| > 0 && EmptyAt(board, pts[0].0, pts[0].1)
    ensures FirstEmpty(board, pts) == Some(0)
  {
  }

  /** The fallback message is itself read back by the extractor as the point it names. */
  lemma FallbackMessageReadsBack(r: nat, c: nat)
    requires InBounds(r, c)
    ensures Extract.ExtractCoordinates(FallbackMessage(r, c)) == Some((r, c))
  {
    var text := FallbackMessage(r, c);
    var m := FallbackSpan(r, c);
    var p := Extract.Patterns[0];
    Extract.PatternsDeterministic();
    FallbackSpanMatches(r, c);
    FallbackPrefixMatchesNothing(r, c);
    Extract.LeftmostIs(p, text, m);
    FallbackSpanNumbers(r, c);
    assert Extract.FormResult(0, text) == Some((r, c));
  }

  /** Where the two numbers of a fallback message lie. */
  function FallbackSpan(r: nat, c: nat): Extract.Span {
    var n := |FallbackPrefix|;
    var k1 := |Decimal(r + 1)|;
    var k2 := |Decimal(c + 1)|;
    Extract.Span(n, n + k1, n + k1 + 2, n + k1 + 2 + k2)
  }

  lemma FallbackSpanSlices(r: nat, c: nat)
    ensures var text := FallbackMessage(r, c);
            var m := FallbackSpan(r, c);
            && m.end2 < |text|
            && text[m.start..m.end1] == Decimal(r + 1)
            && text[m.end1..m.start2] == ", "
            && text[m.start2..m.end2] == Decimal(c + 1)
            && text[m.end2..] == ")"
  {
    var text := FallbackMessage(r, c);
    var m := FallbackSpan(r, c);
    assert text == FallbackPrefix + Decimal(r + 1) + ", " + Decimal(c + 1) + ")";
  }

  /** The first form occurs at the span, and its second number ends there. */
  lemma FallbackSpanMatches(r: nat, c: nat)
    ensures Extract.MatchesWith(Extract.Patterns[0], FallbackMessage(r, c), FallbackSpan(r, c))
    ensures Extract.Greedy(FallbackMessage(r, c), FallbackSpan(r, c))
  {
    var text := FallbackMessage(r, c);
    var m := FallbackSpan(r, c);
    var p := Extract.Patterns[0];
    FallbackSpanSlices(r, c);
    assert Extract.SeparatorFits(p.sep, ", ") by {
      assert ", "[0] in p.sep.marks && ", "[..0] == [] && ", "[1..] == " ";
    }
    assert text[m.end2] == ")"[0];
  }

  /** Nothing in the fixed prefix is a digit, so no occurrence starts there. */
  lemma FallbackPrefixMatchesNothing(r: nat, c: nat)
    ensures forall t :: 0 <= t < FallbackSpan(r, c).start ==> !Extract.MatchesAt(Extract.Patterns[0], FallbackMessage(r, c), t)
  {
    var text := FallbackMessage(r, c);
    forall t | 0 <= t < |FallbackPrefix| ensures !Extract.MatchesAt(Extract.Patterns[0], text, t) {
      assert text[t] == FallbackPrefix[t];
      Extract.MatchStartsWithDigit(Extract.Patterns[0], text, t);
    }
  }

  /** The numbers read from the span are the 1-indexed point. */
  lemma FallbackSpanNumbers(r: nat, c: nat)
    ensures Extract.Numbers(FallbackMessage(r, c), FallbackSpan(r, c)) == (r + 1, c + 1)
  {
    FallbackSpanSlices(r, c);
    ValueOfDecimal(r + 1);
    ValueOfDecimal(c + 1);
  }

  // ---------------------------------------------------------------------
  // Whole sessions

  /** The calls that change the game: a user move through `make_move`, an
      AI reply committed by the background task, and a reset. */
  datatype Event = UserMove(row: int, col: int) | AiReply(resp: Response) | ResetGame

  function Step(g: Game, e: Event): (h: Game)
    ensures e.ResetGame? ==> h == Reset()
    ensures !e.ResetGame? ==> h == g || (|h.history| == |g.history| + 1 && h.current == -g.current)
    ensures Valid(g) ==> Valid(h)
  {
    match e
    case UserMove(r, c) => MakeMove(g, r, c).0
    case AiReply(resp) => AiCommit(g, resp).0
    case ResetGame => Reset()
  }

  function Run(g: Game, events: seq<Event>): Game
    decreases |events|
  {
    if |events| == 0 then g else Run(Step(g, events[0]), events[1..])
  }

  lemma {:induction false} RunKeepsValid(g: Game, events: seq<Event>)
    requires Valid(g)
    ensures Valid(Run(g, events))
    decreases |events|
  {
    if |events| > 0 {
      RunKeepsValid(Step(g, events[0]), events[1..]);
    }
  }

  /** After any session started by a reset: black is to move exactly when an
      even number of moves has been made, and there are as many stones on
      the grid as recorded moves. */
  lemma TurnFollowsMoveCount(events: seq<Event>)
    ensures var g := Run(Reset(), events);
            && (g.current == Black <==> |g.history| % 2 == 0)
            && Stones(g.board) == |g.history|
  {
    RunKeepsValid(Reset(), events);
  }
}
