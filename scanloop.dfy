/**
 * The stand-alone scanning loop: each cycle captures the board, recognizes
 * it, waits for a change, takes the first placement as the baseline,
 * confirms a change with a second capture, decodes the move against the
 * baseline (retrying once with a fresh capture), hands a decoded move to
 * the chess engine and prints the engine's best move. Captures are a finite
 * feed of recognized placements, already stripped of surrounding spaces; the
 * loop ends when the feed does.
 */
module ScanLoop {
  import opened Wrappers
  import Board
  import Text

  /**
   * How the decoder is called. As written the call passes two arguments to a
   * three-parameter function, which raises a TypeError once both placements
   * are expanded; `Corrected` passes the side to move as well.
   */
  datatype Caller = AsWritten | Corrected(whiteOnMove: bool)

  /** The result of one decoding attempt: a move, the caught InvalidMove, or an exception that ends the loop. */
  datatype Attempt = Moved(move: string) | Invalid | Raised(exception: string)

  /** Why the loop stopped. */
  datatype Exit = FeedExhausted | Escaped(exception: string)

  /** The loop's variables, plus what it hands to the engine and prints. */
  datatype ScanState = ScanState(previousFen: Option<string>, played: seq<string>, printed: seq<string>)

  const Start: ScanState := ScanState(None, [], [])

  const InvalidMoveText: string := "INVALID MOVE"

  /**
   * The chess engine, seen from the loop: after the moves played so far, the
   * last one just made, `make_moves_from_current_position` followed by
   * `get_best_move` gives the best move (None when there is none), or the
   * text of the exception one of them raised.
   */
  type Engine = seq<string> -> Result<Option<string>, string>

  /** The line `print("BEST MOVE: ", best)` writes: two arguments joined by a space, None shown as "None". */
  function BestMoveLine(best: Option<string>): (line: string)
    ensures |line| >= 12 && line[..12] == "BEST MOVE:  "
    ensures best.Some? ==> line[12..] == best.value
    ensures best.None? ==> line[12..] == "None"
  {
    "BEST MOVE: " + " " + (match best case Some(m) => m case None => "None")
  }

  /** The name of the Python exception each decoder error is raised as. */
  function ExceptionName(e: Board.DecodeError): string
  {
    match e
    case InvalidMove => "InvalidMove"
    case NotPlacementOnly => "AssertionError"
    case IndexError => "IndexError"
    case UnboundLocal => "UnboundLocalError"
  }

  /** One decoding call: both placements are expanded first, then the decoder is called. */
  function Decode(caller: Caller, previous: string, current: string): Attempt
  {
    match Board.FenToListSpec(previous)
    case Failure(e) => Raised(ExceptionName(e))
    case Success(b1) =>
      match Board.FenToListSpec(current)
      case Failure(e) => Raised(ExceptionName(e))
      case Success(b2) =>
        match caller
        case AsWritten => Raised("TypeError")
        case Corrected(w) =>
          match Board.DiffMove(b1, b2, w)
          case Success(m) => Moved(m)
          case Failure(e) => if e == Board.InvalidMove then Invalid else Raised(ExceptionName(e))
  }

  /**
   * A decoded move is handed to the engine, the best move is printed, and the
   * placement the move came from becomes the baseline. An engine exception
   * ends the loop before the baseline moves.
   */
  function Played(engine: Engine, st: ScanState, move: string, current: string): Result<ScanState, string>
  {
    match engine(st.played + [move])
    case Failure(e) => Failure(e)
    case Success(best) =>
      Success(st.(previousFen := Some(current), played := st.played + [move], printed := st.printed + [BestMoveLine(best)]))
  }

  /** The loop from capture `i` of the feed on, as a specification. */
  function RunFrom(caller: Caller, engine: Engine, feed: seq<string>, i: nat, st: ScanState): (ScanState, Exit)
    decreases |feed| - i
  {
    if i >= |feed| then (st, FeedExhausted)
    else
      var current := feed[i];
      if st.previousFen == Some(current) then RunFrom(caller, engine, feed, i + 1, st)
      else if st.previousFen.None? then RunFrom(caller, engine, feed, i + 1, st.(previousFen := Some(current)))
      else if i + 1 >= |feed| then (st, FeedExhausted)
      else if feed[i + 1] != current then RunFrom(caller, engine, feed, i + 2, st)
      else
        match Decode(caller, st.previousFen.value, current)
        case Moved(m) => PlayedFrom(caller, engine, feed, i + 2, st, m, current)
        case Raised(e) => (st, Escaped(e))
        case Invalid =>
          if i + 2 >= |feed| then (st, FeedExhausted)
          else
            var retried := feed[i + 2];
            match Decode(caller, st.previousFen.value, retried)
            case Moved(m) => PlayedFrom(caller, engine, feed, i + 3, st, m, retried)
            case Raised(e) => (st, Escaped(e))
            case Invalid => RunFrom(caller, engine, feed, i + 3, st.(printed := st.printed + [InvalidMoveText]))
  }

  /** The loop after a decoded move: the engine's exception ends it, otherwise it goes on from capture `i`. */
  function PlayedFrom(caller: Caller, engine: Engine, feed: seq<string>, i: nat, st: ScanState, move: string, current: string): (ScanState, Exit)
    requires i <= |feed|
    decreases |feed| - i + 1
  {
    match Played(engine, st, move, current)
    case Failure(e) => (st, Escaped(e))
    case Success(st') => RunFrom(caller, engine, feed, i, st')
  }

  /** The whole loop over a feed. */
  function Run(caller: Caller, engine: Engine, feed: seq<string>): (ScanState, Exit)
  {
    RunFrom(caller, engine, feed, 0, Start)
  }

  /** The decoding call, through the decoder's own loops. */
  method DecodeCall(caller: Caller, previous: string, current: string) returns (r: Attempt)
    ensures r == Decode(caller, previous, current)
  {
    var b1 := Board.FenToList(previous);
    if b1.Failure? {
      return Raised(ExceptionName(b1.error));
    }
    var b2 := Board.FenToList(current);
    if b2.Failure? {
      return Raised(ExceptionName(b2.error));
    }
    match caller
    case AsWritten =>
      return Raised("TypeError");
    case Corrected(w) =>
      var d := Board.GetDiffMove(b1.value, b2.value, w);
      match d
      case Success(m) =>
        return Moved(m);
      case Failure(e) =>
        return if e == Board.InvalidMove then Invalid else Raised(ExceptionName(e));
  }

  /** `scan_screen`: the `while True` loop, each capture taking the next recognized placement. */
  method ScanScreen(caller: Caller, engine: Engine, feed: seq<string>) returns (played: seq<string>, printed: seq<string>, exit: Exit)
    ensures (ScanState(Run(caller, engine, feed).0.previousFen, played, printed), exit) == Run(caller, engine, feed)
  {
    var st := Start;
    var i := 0;
    while i < |feed|
      invariant i <= |feed|
      invariant RunFrom(caller, engine, feed, i, st) == Run(caller, engine, feed)
      decreases |feed| - i
    {
      var next, st', stop := Cycle(caller, engine, feed, i, st);
      if stop.Some? {
        return st'.played, st'.printed, stop.value;
      }
      i, st := next, st';
    }
    return st.played, st.printed, FeedExhausted;
  }

  /**
   * One pass of the loop body from capture `i`: skip, baseline, confirmation
   * and decoding with its retry. `stop` is the exit when the loop ends in this
   * pass (a raised exception, or the feed running out mid-cycle).
   */
  method Cycle(caller: Caller, engine: Engine, feed: seq<string>, i: nat, st: ScanState) returns (next: nat, st': ScanState, stop: Option<Exit>)
    requires i < |feed|
    ensures i < next <= |feed|
    ensures stop.Some? ==> RunFrom(caller, engine, feed, i, st) == (st', stop.value)
    ensures stop.None? ==> RunFrom(caller, engine, feed, i, st) == RunFrom(caller, engine, feed, next, st')
  {
    var currentFen := feed[i];
    next, st', stop := i + 1, st, None;
    if st.previousFen == Some(currentFen) {
      return;
    }
    if st.previousFen.None? {
      st' := st.(previousFen := Some(currentFen));
      return;
    }
    if next >= |feed| {
      stop := Some(FeedExhausted);
      return;
    }
    var confirmed := feed[next];
    next := next + 1;
    if currentFen != confirmed {
      return;
    }
    var attempt := DecodeCall(caller, st.previousFen.value, currentFen);
    if attempt.Invalid? {
      if next >= |feed| {
        stop := Some(FeedExhausted);
        return;
      }
      currentFen := feed[next];
      next := next + 1;
      attempt := DecodeCall(caller, st.previousFen.value, currentFen);
      if attempt.Invalid? {
        st' := st.(printed := st.printed + [InvalidMoveText]);
        return;
      }
    }
    if attempt.Raised? {
      stop := Some(Escaped(attempt.exception));
      return;
    }
    var reply := engine(st.played + [attempt.move]);
    if reply.Failure? {
      stop := Some(Escaped(reply.error));
      return;
    }
    st' := st.(previousFen := Some(currentFen), played := st.played + [attempt.move], printed := st.printed + [BestMoveLine(reply.value)]);
  }

  // ----- one cycle at a time -----

  /** A recognition equal to the baseline is skipped without any change. */
  lemma SameRecognitionSkipped(caller: Caller, engine: Engine, feed: seq<string>, i: nat, st: ScanState)
    requires i < |feed| && st.previousFen == Some(feed[i])
    ensures RunFrom(caller, engine, feed, i, st) == RunFrom(caller, engine, feed, i + 1, st)
  {
  }

  /** The first recognition becomes the baseline, and no move is produced. */
  lemma FirstRecognitionIsBaseline(caller: Caller, engine: Engine, feed: seq<string>, i: nat, st: ScanState)
    requires i < |feed| && st.previousFen.None?
    ensures RunFrom(caller, engine, feed, i, st) == RunFrom(caller, engine, feed, i + 1, st.(previousFen := Some(feed[i])))
  {
  }

  /** When the confirming capture recognizes differently, the cycle is dropped and the baseline kept. */
  lemma UnconfirmedDropped(caller: Caller, engine: Engine, feed: seq<string>, i: nat, st: ScanState)
    requires i + 1 < |feed| && st.previousFen.Some? && st.previousFen.value != feed[i] && feed[i + 1] != feed[i]
    ensures RunFrom(caller, engine, feed, i, st) == RunFrom(caller, engine, feed, i + 2, st)
  {
  }

  /**
   * A confirmed change that decodes after at most one retry is handed to the
   * engine. If the engine answers, its best move is printed and the baseline
   * becomes the placement of the attempt that succeeded; if it raises, the
   * loop ends with the state it had.
   */
  lemma ConfirmedMove(caller: Caller, engine: Engine, feed: seq<string>, i: nat, st: ScanState)
    requires i + 1 < |feed| && st.previousFen.Some? && st.previousFen.value != feed[i] && feed[i + 1] == feed[i]
    ensures var p := st.previousFen.value;
      var d := Decode(caller, p, feed[i]);
      d.Moved? ==>
        var reply := engine(st.played + [d.move]);
        (reply.Failure? ==> RunFrom(caller, engine, feed, i, st) == (st, Escaped(reply.error)))
        && (reply.Success? ==>
              RunFrom(caller, engine, feed, i, st) == RunFrom(caller, engine, feed, i + 2, ScanState(Some(feed[i]), st.played + [d.move], st.printed + [BestMoveLine(reply.value)])))
    ensures var p := st.previousFen.value;
      var d := Decode(caller, p, feed[i]);
      var d' := if i + 2 < |feed| then Decode(caller, p, feed[i + 2]) else Invalid;
      d.Invalid? && i + 2 < |feed| && d'.Moved? ==>
        var reply := engine(st.played + [d'.move]);
        (reply.Failure? ==> RunFrom(caller, engine, feed, i, st) == (st, Escaped(reply.error)))
        && (reply.Success? ==>
              RunFrom(caller, engine, feed, i, st) == RunFrom(caller, engine, feed, i + 3, ScanState(Some(feed[i + 2]), st.played + [d'.move], st.printed + [BestMoveLine(reply.value)])))
  {
  }

  /** Exactly one retry: a second InvalidMove prints the notice and keeps the baseline. */
  lemma SecondInvalidMove(caller: Caller, engine: Engine, feed: seq<string>, i: nat, st: ScanState)
    requires i + 2 < |feed| && st.previousFen.Some? && st.previousFen.value != feed[i] && feed[i + 1] == feed[i]
    requires Decode(caller, st.previousFen.value, feed[i]).Invalid? && Decode(caller, st.previousFen.value, feed[i + 2]).Invalid?
    ensures RunFrom(caller, engine, feed, i, st) == RunFrom(caller, engine, feed, i + 3, st.(printed := st.printed + [InvalidMoveText]))
  {
  }

  /** Any other exception ends the loop with the state it had. */
  lemma OtherExceptionsEscape(caller: Caller, engine: Engine, feed: seq<string>, i: nat, st: ScanState)
    requires i + 1 < |feed| && st.previousFen.Some? && st.previousFen.value != feed[i] && feed[i + 1] == feed[i]
    requires Decode(caller, st.previousFen.value, feed[i]).Raised?
    ensures RunFrom(caller, engine, feed, i, st) == (st, Escaped(Decode(caller, st.previousFen.value, feed[i]).exception))
  {
  }

  // ----- whole runs -----

  /**
   * Once a baseline is set, the run only ever adds to what was played and
   * printed, prints at least one line per played move, and moves the
   * baseline only when it plays a move.
   */
  lemma {:induction false} BaselineMovesWithPlay(caller: Caller, engine: Engine, feed: seq<string>, i: nat, st: ScanState)
    requires st.previousFen.Some?
    ensures var r := RunFrom(caller, engine, feed, i, st).0;
      r.previousFen.Some? && st.played <= r.played && st.printed <= r.printed
      && |r.printed| - |st.printed| >= |r.played| - |st.played|
      && (|r.played| == |st.played| ==> r.previousFen == st.previousFen)
    decreases |feed| - i
  {
    if i < |feed| {
      var current := feed[i];
      var p := st.previousFen.value;
      if st.previousFen == Some(current) {
        BaselineMovesWithPlay(caller, engine, feed, i + 1, st);
      } else if i + 1 < |feed| && feed[i + 1] != current {
        BaselineMovesWithPlay(caller, engine, feed, i + 2, st);
      } else if i + 1 < |feed| {
        match Decode(caller, p, current)
        case Moved(m) =>
          PlayedMovesWithPlay(caller, engine, feed, i + 2, st, m, current);
        case Raised(_) =>
        case Invalid =>
          if i + 2 < |feed| {
            match Decode(caller, p, feed[i + 2])
            case Moved(m) =>
              PlayedMovesWithPlay(caller, engine, feed, i + 3, st, m, feed[i + 2]);
            case Raised(_) =>
            case Invalid =>
              BaselineMovesWithPlay(caller, engine, feed, i + 3, st.(printed := st.printed + [InvalidMoveText]));
          }
      }
    }
  }

  /** The same after a decoded move: a played move always adds its best-move line. */
  lemma {:induction false} PlayedMovesWithPlay(caller: Caller, engine: Engine, feed: seq<string>, i: nat, st: ScanState, move: string, current: string)
    requires i <= |feed|
    ensures var r := PlayedFrom(caller, engine, feed, i, st, move, current).0;
      r.previousFen.Some? || st.previousFen.None?
    ensures var r := PlayedFrom(caller, engine, feed, i, st, move, current).0;
      st.played <= r.played && st.printed <= r.printed
      && |r.printed| - |st.printed| >= |r.played| - |st.played|
      && (|r.played| == |st.played| ==> r.previousFen == st.previousFen)
    decreases |feed| - i + 1
  {
    match engine(st.played + [move])
    case Failure(_) =>
    case Success(best) =>
      var st' := st.(previousFen := Some(current), played := st.played + [move], printed := st.printed + [BestMoveLine(best)]);
      BaselineMovesWithPlay(caller, engine, feed, i, st');
  }

  /** The call as written never decodes: it can only raise, so no move ever reaches the engine. */
  lemma AsWrittenNeverDecodes(previous: string, current: string)
    ensures Decode(AsWritten, previous, current).Raised?
    ensures Board.FenToListSpec(previous).Success? && Board.FenToListSpec(current).Success? ==>
      Decode(AsWritten, previous, current) == Raised("TypeError")
  {
  }

  /** As written, the loop never hands a move to the engine and prints nothing. */
  lemma {:induction false} AsWrittenNeverMoves(engine: Engine, feed: seq<string>, i: nat, st: ScanState)
    ensures RunFrom(AsWritten, engine, feed, i, st).0.played == st.played
    ensures RunFrom(AsWritten, engine, feed, i, st).0.printed == st.printed
    ensures RunFrom(AsWritten, engine, feed, i, st).1.Escaped? ==>
      RunFrom(AsWritten, engine, feed, i, st).1.exception in {"TypeError", "AssertionError"}
    decreases |feed| - i
  {
    if i < |feed| {
      var current := feed[i];
      if st.previousFen == Some(current) {
        AsWrittenNeverMoves(engine, feed, i + 1, st);
      } else if st.previousFen.None? {
        AsWrittenNeverMoves(engine, feed, i + 1, st.(previousFen := Some(current)));
      } else if i + 1 < |feed| && feed[i + 1] != current {
        AsWrittenNeverMoves(engine, feed, i + 2, st);
      } else if i + 1 < |feed| {
        AsWrittenNeverDecodes(st.previousFen.value, current);
        NotPlacementIsAssertion(st.previousFen.value, current);
      }
    }
  }

  lemma NotPlacementIsAssertion(previous: string, current: string)
    ensures Decode(AsWritten, previous, current).Raised? &&
      Decode(AsWritten, previous, current).exception in {"TypeError", "AssertionError"}
  {
  }

  /** A concrete feed: the king moves from a8 to h8 on a one-row board and the escaping TypeError ends the loop. */
  lemma AsWrittenTypeError(engine: Engine)
    ensures Run(AsWritten, engine, ["K7", "7K", "7K"]) == (ScanState(Some("K7"), [], []), Escaped("TypeError"))
  {
    var feed := ["K7", "7K", "7K"];
    SingleToken("K7");
    SingleToken("7K");
    assert RunFrom(AsWritten, engine, feed, 0, Start) == RunFrom(AsWritten, engine, feed, 1, ScanState(Some("K7"), [], []));
  }

  /** Every recognized placement without a space is one token, so the expansion guard lets it through. */
  lemma SingleToken(fen: string)
    requires |fen| > 0 && forall i :: 0 <= i < |fen| ==> !Text.PyIsSpace(fen[i])
    ensures Board.FenToListSpec(fen).Success?
  {
    Text.WordsOfSeparatorFree(fen, Text.PyIsSpace);
  }

  /**
   * With the side to move passed, the same feed hands the king move a8-h8 to
   * the engine and prints the engine's best move; an engine exception ends
   * the loop instead, before the baseline moves.
   */
  lemma CorrectedMoves(engine: Engine)
    ensures var reply := engine(["a8h8"]);
      (reply.Success? ==>
        Run(Corrected(true), engine, ["K7", "7K", "7K"]) == (ScanState(Some("7K"), ["a8h8"], [BestMoveLine(reply.value)]), FeedExhausted))
      && (reply.Failure? ==>
        Run(Corrected(true), engine, ["K7", "7K", "7K"]) == (ScanState(Some("K7"), [], []), Escaped(reply.error)))
  {
    KingMoveReachesEngine(engine);
    EngineAfterKingMove(engine);
  }

  /** The engine's answer to a8-h8 decides the rest of the run, the feed being used up. */
  lemma EngineAfterKingMove(engine: Engine)
    ensures var reply := engine(["a8h8"]);
      var after := PlayedFrom(Corrected(true), engine, ["K7", "7K", "7K"], 3, ScanState(Some("K7"), [], []), "a8h8", "7K");
      (reply.Success? ==> after == (ScanState(Some("7K"), ["a8h8"], [BestMoveLine(reply.value)]), FeedExhausted))
      && (reply.Failure? ==> after == (ScanState(Some("K7"), [], []), Escaped(reply.error)))
  {
    var st1 := ScanState(Some("K7"), [], []);
    assert st1.played + ["a8h8"] == ["a8h8"];
    var reply := engine(["a8h8"]);
    if reply.Success? {
      var st2 := ScanState(Some("7K"), ["a8h8"], [BestMoveLine(reply.value)]);
      assert st1.printed + [BestMoveLine(reply.value)] == [BestMoveLine(reply.value)];
      assert Played(engine, st1, "a8h8", "7K") == Success(st2);
      assert RunFrom(Corrected(true), engine, ["K7", "7K", "7K"], 3, st2) == (st2, FeedExhausted);
    }
  }

  /** Up to the engine call, the corrected loop runs the same on every engine. */
  lemma KingMoveReachesEngine(engine: Engine)
    ensures Run(Corrected(true), engine, ["K7", "7K", "7K"])
      == PlayedFrom(Corrected(true), engine, ["K7", "7K", "7K"], 3, ScanState(Some("K7"), [], []), "a8h8", "7K")
  {
    var feed := ["K7", "7K", "7K"];
    KingMoveDecodes();
    var st1 := ScanState(Some("K7"), [], []);
    assert feed[1] == "7K" && feed[2] == "7K" && st1.previousFen.value == "K7";
    assert RunFrom(Corrected(true), engine, feed, 0, Start) == RunFrom(Corrected(true), engine, feed, 1, st1);
  }

  lemma KingMoveDecodes()
    ensures Decode(Corrected(true), "K7", "7K") == Moved("a8h8")
  {
    var b1 := Board.Expand("K7");
    var b2 := Board.Expand("7K");
    assert Board.FenToListSpec("K7") == Success(b1) by {
      SingleToken("K7");
    }
    assert Board.FenToListSpec("7K") == Success(b2) by {
      SingleToken("7K");
    }
    assert Board.DiffMove(b1, b2, true) == Success("a8h8") by {
      KingMoveSnapshots(b1, b2);
      Board.OrdinaryMove(b1, b2, true, 0, 7);
      KingMoveName(b1, b2);
    }
  }

  lemma KingMoveName(b1: Board.Snapshot, b2: Board.Snapshot)
    requires |b1| == 8 && |b2| == 8
    requires Board.DiffSquares(b1, b2, true) == Success((Board.PositionFromIdx(0, true), Board.PositionFromIdx(7, true)))
    ensures Board.DiffMove(b1, b2, true) == Success("a8h8")
  {
    var a := Board.PositionFromIdx(0, true);
    var h := Board.PositionFromIdx(7, true);
    assert a == Board.Square('a', 8);
    assert h == Board.Square('h', 8);
    assert Text.DigitChar(8) == '8';
    assert Text.IntToString(8) == "8";
    assert Board.SquareName(a) == "a8";
    assert Board.SquareName(h) == "h8";
    assert "a8" + "h8" == "a8h8";
  }

  lemma KingMoveSnapshots(b1: Board.Snapshot, b2: Board.Snapshot)
    requires b1 == Board.Expand("K7") && b2 == Board.Expand("7K")
    ensures |b1| == 8 && |b2| == 8 && Board.DiffSet(b1, b2, 8) == {0, 7}
    ensures b1[0] == "K" && b2[7] == "K" && b2[0] == ""
  {
    Board.ExpandConcat("K", "7");
    Board.ExpandConcat("7", "K");
    assert b1 == ["K", "", "", "", "", "", "", ""];
    assert b2 == ["", "", "", "", "", "", "", "K"];
  }
}
