# cheatess, modelled in Dafny

cheatess watches a chess board on the screen and suggests moves. A screenshot
of the board is turned into a board state. Two successive states are compared
to find the move that was played. The move goes to a UCI chess engine
(Stockfish), and the engine's answer is drawn back over the board. The
repository holds two generations of this pipeline. The first is in Python:
a neural recognizer writes a FEN piece-placement field, and a move decoder
compares two such fields. The second is in Rust. It has boolean occupancy
grids, character grids, a UCI client and a configuration layer.

This project models the sequential logic of both pipelines and proves
properties of it:

- the Python move decoder (`src/utils/board.py`);
- the run-length placement coder paired with it (`src/cnn/train.py`);
- the recognition loops (`src/utils/engine.py` and `src/app/application.py`);
- the named mailboxes (`src/log.py`);
- the selection rectangle (`src/utils/snippet_machine.py`);
- the overlay arithmetic (`src/utils/image_modifier.py`);
- the UCI client (`src/core/stockfish.rs`);
- the board printers (`src/utils/printer.rs`);
- the Rust board trackers (`core/src/engine.rs`, `core/src/image.rs`, `core/src/utils.rs`);
- the configuration validators over the in-memory file system (`core/src/config.rs`, `core/src/utils/file_system.rs`);
- the screen-region parser (`core/src/utils/screen_region.rs`);
- the chess.com wrapper and engine defaults.

Most source files have one Dafny module each. There are three exceptions:
`Tracker` covers both `core/src/engine.rs` and its copy `core/src/image.rs`;
`core/src/utils.rs` is split into `Imaging` (edges, crop, binarisation) and
`Occupancy` (occupancy grids and moves); and `WebWrapper` covers both
`core/src/webwrapper/mod.rs` and `chesscom.rs`. Small shared modules sit beside
them: `Wrappers` (Option, Result and Outcome), `Numeric` (machine integer
types, Rust's truncating division, `clamp`) and `Text` (decimal rendering,
splitting, trimming, ASCII lowercasing).

How the source's behaviour is represented:

- **Exceptions and panics** become `Failure`/`Fail` values carrying the
  exception name or the panic message.
- **Mutable objects** become classes:
  - the `Engine` of the Python pipeline;
  - the UCI `Stockfish` client;
  - `TestFileSystem`, `FakeFile` and `FakeFileWriter`;
  - the mailbox registry.
  
  Each method is tied to a specification function of the old state, and the
  lemmas are about that function.
- **In-place algorithms** keep in-place data. `register_piece` and
  `pixels_to_board` write into an 8×8 `array2`. The loops of `get_diff_move`,
  `fen_from_onehot`, `_onehot_from_fen`, `detect_move`, `find_move`,
  `detect_white_edges`, `extract_board_state`, `check_if_board_was_changed`,
  `raw_board_to_string`, `__translate_top_moves`, `scan_screen` and the UCI
  reading loops are `while`/`for` loops with invariants.
- **Collaborators outside the source are parameters.** These are:
  - the neural recognizer;
  - the pixel-difference test (`mse(...) != 0`);
  - the chess engine's replies;
  - the screenshot;
  - the JSON encoder of `save_config`;
  - f64 `Display`;
  - the iteration order of a `HashMap`, given as a sequence that lists the
    keys once each, or as an arbitrary choice inside a loop.

## Model

| member | source | states |
|---|---|---|
| Board.FenToList | src/utils/board.py:36-50 | The loop's result is the reference expansion: '/' is skipped, a digit d gives d empty cells, and any other character is copied. More than one whitespace-separated field is the AssertionError. |
| Board.ExpandConcat | src/utils/board.py:40-48 | Expansion works character by character: the cells of a concatenation are the concatenated cells. |
| Board.ExpandSlash | src/utils/board.py:41-42 | A '/' contributes no cell, so separators can be dropped or added freely. |
| Board.ExpandCells | src/utils/board.py:44-48 | Every cell is empty or the one-letter name of a character that is neither a digit nor '/'. |
| Board.PositionFromIdx | src/utils/board.py:53-64 | From White the square is file 'a'+idx%8 and rank 8-idx/8. From Black it is file 'h'-idx%8 and rank idx/8+1. Every index below 64 lands on the board. |
| Board.PositionBijection | src/utils/board.py:23-33 | For either side, the 64 indices and the 64 squares correspond one to one, using the explicit inverse. |
| Board.PositionMirror | src/utils/board.py:53-64 | Index i seen from Black is index 63-i seen from White. |
| Board.SquareNameOnBoard | src/utils/board.py:133 | A square on the board is written as its file letter and one rank digit. |
| Board.DeltasUpTo | src/utils/board.py:88-92 | The recorded changes are ascending and lie below the bound. Each records a differing index, labelled with the before-piece if there is one, else the after-piece. |
| Board.DeltasAreDiffSet | src/utils/board.py:88-92 | The recorded indices are exactly the indices where the two snapshots differ. |
| Board.IndicesNamedAscending | src/utils/board.py:113-126 | The indices filtered by label keep the scan order. So they are sorted, and they are exactly the changed indices with those labels, which justifies modelling `sorted(...)[::-1]` as a reversal. |
| Board.CountIsIndices | src/utils/board.py:103-110 | The pawn counters equal the number of changes carrying that label. |
| Board.GetDiffMove | src/utils/board.py:85-133 | The method, with its scan loop and its counting loop, returns the reference decoding `DiffMove`. |
| Board.DecideSquares | src/utils/board.py:97-131 | The branch structure after the scan, for two or more changes, computes the reference squares. |
| Board.AscendingPair | src/utils/board.py:118-128 | A sorted list holding exactly a < b is [a, b]. |
| Board.DeltasShape | src/utils/board.py:88-92 | The change list is ascending, and its index set is the set of differing indices. |
| Board.NoChangeIsInvalid | src/utils/board.py:94-95 | Identical snapshots raise InvalidMove. |
| Board.OneChangeIsInvalid | src/utils/board.py:94-95 | A single changed square raises InvalidMove. |
| Board.FewPawnsIndexError | src/utils/board.py:113-123 | Three changes with fewer than two changes of the more frequent pawn label raise IndexError. |
| Board.FewKingsIndexError | src/utils/board.py:125-131 | Four changes with fewer than two king changes raise IndexError. |
| Board.ThreeChangesOnePawnExample | src/utils/board.py:113-123 | Changes at 10 ("P"), 20 ("p") and 30 ("N") raise IndexError. |
| Board.FourChangesNoKingExample | src/utils/board.py:125-131 | Four changes of rooks and knights, with no king, raise IndexError. |
| Board.ManyChangesUnbound | src/utils/board.py:97-133 | Five or more changes reach the return with unassigned variables (UnboundLocalError). |
| Board.OrdinaryMove | src/utils/board.py:67-82 | If a piece leaves s and stands on t, and nothing else changes, the move decodes to s then t, whichever of the two comes first in the scan. |
| Board.LabelledIndices | src/utils/board.py:113-126 | The filtered changes are ascending and are exactly the expected indices. |
| Board.EnPassant | src/utils/board.py:102-123 | An en passant capture decodes to the mover's origin then its destination when the pawn advances toward index 0 for the side the board is seen from. This includes the swap for Black. |
| Board.EnPassantDecision | src/utils/board.py:112-123 | Two mover labels and one victim label select the mover's pair, ordered as the code orders it. |
| Board.Castling | src/utils/board.py:125-131 | Castling, with the rook beyond the king's target and landing between the king's squares, decodes to the king's origin then its target, from either side. |
| Board.CastlingFirst | src/utils/board.py:127-128 | The first change is the king's origin exactly when castling goes toward higher indices. This is why the code reverses the list otherwise. |
| Board.SideMirror | src/utils/board.py:53-131 | With two or four changes, viewing the board from the other side fails or succeeds alike, and gives the mirrored squares. |
| Board.MoveIsFourChars | src/utils/board.py:133 | A decoded move on snapshots of at most 64 cells names two squares of the board in exactly four characters. |
| Board.SquaresFromChanges | src/utils/board.py:97-131 | Whatever the branch, both squares of a decoded move are squares that changed. |
| Board.WhiteEnPassantExample | src/utils/board.py:102-123 | White e5xd6 en passant, seen from White (changes 19, 27 and 28), decodes to "e5d6". |
| Board.WhiteShortCastlingExample | src/utils/board.py:125-131 | White's king-side castling (changes 60-63) decodes to "e1g1". |
| Board.BlackLongCastlingExample | src/utils/board.py:125-131 | Black's queen-side castling, seen from White (changes 0, 2, 3 and 4), decodes to "e8c8". |
| Placement.RowToks | src/cnn/train.py:85-95 | A row's tokens are piece letters and runs of between one and the row's length empty squares; a row that starts empty starts with a run. No two runs are adjacent, since runs never merge across a piece. |
| Placement.FenFromOnehot | src/cnn/train.py:83-97 | The nested loops followed by the eight `replace` passes compute the run-length coding `RunLength` of the grid. |
| Placement.ReplaceLongestRun | src/cnn/train.py:94-95 | One replacement pass for k spaces, applied after the longer runs are replaced, replaces exactly the runs of length k. So longest-first leaves every run as one digit. |
| Placement.GridWellFormed | src/cnn/train.py:85-92 | The token sequence of the whole grid has no two neighbouring runs: the '-' separators keep runs of adjacent rows apart. |
| Placement.OnehotFromFen | src/cnn/train.py:68-80 | The loop computes the reference decoding: dashes dropped, a digit d gives d empty classes, a letter gives its index in `piece_symbols`, and anything else is the ValueError. |
| Placement.SymbolIndex | src/cnn/train.py:60-77 | No piece letter repeats or is a digit, so `index` returns each letter's own class. |
| Placement.RoundTrip | src/cnn/train.py:68-97 | For every 8×8 grid over 0..12, decoding the coded grid gives its classes row after row. |
| Placement.GridChars | src/cnn/train.py:84-95 | The coded grid holds only piece letters, run digits 1..8 and '-'. |
| Placement.SevenSeparators | src/cnn/train.py:91-92 | The eight coded rows are joined by exactly seven '-'. |
| Placement.NoSpacesLeft | src/cnn/train.py:94-95 | No space survives the replacement passes. |
| Placement.PredictedBoard | src/cnn/model.py:78 | After '-' becomes '/', the move decoder reads the coded grid as 64 cells, cell 8j+i being "" for class 12 and `piece_symbols[v]` otherwise. |
| Placement.PredictedSingleToken | src/cnn/model.py:78 | The placement handed on is one whitespace-free field, so the decoder's assertion holds. |
| Placement.PredictedLength | src/cnn/train.py:83-97 | Every square is written once, so the decoder reads exactly 64 cells. |
| Mailboxes.Defined | src/log.py:33-39 | As written, defining a class installs a fresh empty queue under its name, whatever was there, and keeps every other topic. |
| Mailboxes.DefinedOnce | src/log.py:33-39 | With the intended guard, an existing queue is kept and a new name gets an empty one. |
| Mailboxes.Sent | src/log.py:55-57 | `send` appends the message to the named queue. |
| Mailboxes.Received | src/log.py:48-53 | `recv` returns the oldest item and removes it. On an empty queue it returns None and changes nothing. |
| Mailboxes.SendAllAppends | src/log.py:55-57 | Sending several items appends them in order, and other topics are unchanged. |
| Mailboxes.ReceiveInOrder | src/log.py:48-53 | Receiving as many times as there are items yields them oldest first and empties the queue. |
| Mailboxes.Fifo | src/log.py:48-57 | What was queued before, then what was sent, comes back in that order. |
| Mailboxes.ReceiveEmpty | src/log.py:50-53 | `recv` on an empty queue returns None and leaves the registry as it was. |
| Mailboxes.TopicsIsolated | src/log.py:48-57 | `send` and `recv` on one topic never change another topic's queue. |
| Mailboxes.StartupRegistry | src/log.py:42-73 | At import, each of the five classes has its own empty queue, and nothing else is registered. |
| Mailboxes.RedefinitionResets | src/log.py:36-37 | As written, redefining a class under a name in use throws away the waiting items. |
| Mailboxes.RedefinitionKeeps | src/log.py:36-37 | With the intended guard, a redefinition leaves the registry unchanged. |
| Mailboxes.FreshDefinitionAgrees | src/log.py:36-37 | For names not yet registered, the two guards agree. |
| Mailboxes.Registry.constructor | src/log.py:42-73 | Importing the module defines the five classes in order. |
| Mailboxes.Registry.DefineTopic | src/log.py:33-39 | The registry's table changes as `Defined` says. |
| Mailboxes.Registry.DefineTopicOnce | src/log.py:33-39 | The table changes as `DefinedOnce` says. |
| Mailboxes.Registry.Send | src/log.py:55-57 | The registry object's send updates its table as `Sent` says. |
| Mailboxes.Registry.Recv | src/log.py:48-53 | The registry object's recv returns the item and updates its table as `Received` says. |
| Perception.GlyphsDistinct | src/utils/engine.py:22-35 | No two pieces share a glyph, and every glyph is a chess symbol U+2654..U+265F. |
| Perception.PieceFromPositionParts | src/utils/engine.py:218-220 | A move is described exactly when its origin square is occupied. The description is the piece's glyph followed by the rest of the move, and a missing piece gives the KeyError of `PIECES[None]`. |
| Perception.EvaluationTextMeaning | src/utils/engine.py:229-235 | A positive mate m gives "M{m}", a negative one "-M{\|m\|}", and a None or 0 mate gives `str(Centipawn)`. |
| Perception.TranslateTopMoves | src/utils/engine.py:222-239 | The loop returns the reference translation. |
| Perception.TranslatedPointwise | src/utils/engine.py:222-239 | Translation succeeds iff every line's origin is occupied. It then gives one batch per line, in order. |
| Perception.TranslatedFailureStays | src/utils/engine.py:225-227 | A KeyError on one line is the result of the whole call. |
| Perception.DetectPlayColor | src/utils/engine.py:241-250 | The player is Black iff the placement starts with 'R'. |
| Perception.IdleWithoutImage | src/utils/engine.py:92-96 | A later call with an empty image mailbox changes nothing. |
| Perception.FirstCall | src/utils/engine.py:89-105 | The first call uses the initial screenshot. It sets the play colour, the counter (0 for White, -1 for Black) and the side to move, and clears `first_move`. |
| Perception.BaselineSet | src/utils/engine.py:107-109 | With no baseline, the recognized placement becomes the baseline and no move is produced. |
| Perception.DecodeFailureKeeps | src/utils/engine.py:111-128 | A failed decoding leaves the baseline, the moves and the counter. "Invalid move: ..." is logged iff the exception has a message, so a bare InvalidMove is silent. |
| Perception.MoveDecoded | src/utils/engine.py:130-155 | A decoded move is counted and appended, and the baseline advances even if the engine block raised. Statistics are sent only after an even move. |
| Perception.AnalysisMovesTraffic | src/utils/engine.py:132-151 | The moves mailbox is written only when the counter is even and the engine replies succeed. |
| Perception.ScanPublishesChanges | src/utils/engine.py:157-167 | A scan publishes the frame iff it differs from the previous one, and always remembers it. |
| Perception.FirstScanSilent | src/utils/engine.py:159-164 | The first scan compares the frame with itself and publishes nothing. |
| Perception.ScanKeepsFramesOnly | src/utils/engine.py:163-164 | The image mailbox only ever receives screenshots. |
| Perception.StartGuard | src/utils/engine.py:169-185 | Without coordinates only the error line is logged. With them the game restarts from the first move. |
| Perception.Engine.Calculate | src/utils/engine.py:88-155 | The method changes the engine's fields and the mailboxes exactly as `CalculateSpec` says. |
| Perception.Engine.Scan | src/utils/engine.py:157-167 | The method changes the state as `ScanSpec` says. |
| Perception.Engine.StartScanning | src/utils/engine.py:169-185 | The method changes the state as `StartSpec` says. |
| Perception.Engine.StopScanning | src/utils/engine.py:187-195 | Without threads it logs the error. Otherwise it logs the stop. |
| Perception.CalculateSpec | src/utils/engine.py:88-155 | One call keeps every mailbox in place. |
| Perception.AnalysisSends | src/utils/engine.py:130-155 | The engine block never touches the image mailbox, and keeps every topic in place. |
| Perception.CollectStatistics | src/utils/engine.py:138-143 | The dictionary's values are evaluated in order and the first exception wins; the method computes `StatisticsOf`. |
| Perception.EvaluationSentFirst | src/utils/engine.py:132-151 | The evaluation is always sent. After an odd-numbered move nothing else is. After an even one, a failure of the figures, top lines or best move is logged and the moves mailbox is untouched. |
| Perception.NoBestMove | src/utils/engine.py:141-145 | A missing best move logs the TypeError of slicing None, on even-numbered moves only. |
| Perception.EngineMoveOverlay | src/utils/engine.py:145-147 | For an engine move of two board squares and any promotion suffix, `draw` circles exactly the two squares' cells. |
| Perception.Engine.constructor | src/utils/engine.py:62-76 | A new engine plays White and waits for its first move, with no screenshots, no moves, empty placements and no threads. |
| Perception.Decode | src/utils/engine.py:112 | The call through the decoder's loops gives the reference decoding of the two placements. |
| ScanLoop.ScanScreen | src/app/application.py:24-57 | The `while True` loop, fed one recognized placement per capture, ends in the state and exit the reference run gives. |
| ScanLoop.Cycle | src/app/application.py:25-57 | One pass of the loop body either stops with the exit the reference run gives from that capture, or continues at a later capture with the same remaining run. |
| ScanLoop.SameRecognitionSkipped | src/app/application.py:31-34 | A recognition equal to the baseline is skipped with no change. |
| ScanLoop.FirstRecognitionIsBaseline | src/app/application.py:36-38 | The first recognition becomes the baseline without a move. |
| ScanLoop.UnconfirmedDropped | src/app/application.py:40-42 | A differing confirmation drops the cycle and keeps the baseline. |
| ScanLoop.ConfirmedMove | src/app/application.py:44-57 | A confirmed change that decodes, after at most one retry, is handed to the engine. If the engine answers, "BEST MOVE:  …" is printed and the baseline becomes the placement of the attempt that succeeded. If the engine raises, the loop ends with the state it had. |
| ScanLoop.SecondInvalidMove | src/app/application.py:46-53 | After exactly one retry, a second InvalidMove prints "INVALID MOVE" and keeps the baseline. |
| ScanLoop.OtherExceptionsEscape | src/app/application.py:44-46 | Any other exception ends the loop with the state it had. |
| ScanLoop.AsWrittenNeverDecodes | src/app/application.py:45 | The two-argument call can only raise: a TypeError, or the AssertionError of a malformed placement. |
| ScanLoop.AsWrittenNeverMoves | src/app/application.py:44-57 | As written, whatever the engine, no move ever reaches it and nothing is printed. |
| ScanLoop.BaselineMovesWithPlay | src/app/application.py:29-57 | Once a baseline is set, a run only adds to the played moves and printed lines. It prints at least one line per played move, and the baseline changes only if a move is played. |
| ScanLoop.BestMoveLine | src/app/application.py:56 | `print` joins "BEST MOVE: " and the best move with a space; None prints as "None". |
| ScanLoop.AsWrittenTypeError | src/app/application.py:45 | On a concrete feed, the escaping TypeError ends the loop with no move. |
| ScanLoop.CorrectedMoves | src/app/application.py:44-57 | With the side to move passed, the same feed hands "a8h8" to the engine and prints its best move. An engine exception ends the loop with the baseline unchanged. |
| Snippet.GetFrame | src/utils/snippet_machine.py:10-42 | Succeeds iff the four coordinates are set, otherwise TypeError. The frame is (min x, min y, \|dx\|, \|dy\|). |
| Snippet.FrameIsNormalised | src/utils/snippet_machine.py:10-42 | The four branches give (min x, min y, \|dx\|, \|dy\|), for every ordering of the corners. Width and height are non-negative. |
| Snippet.FrameSymmetric | src/utils/snippet_machine.py:10-42 | Swapping the start and current corners gives the same frame. |
| Snippet.FrameSpansCorners | src/utils/snippet_machine.py:10-42 | The frame's edges are exactly the two corners' coordinates. |
| Snippet.GetFrameDefined | src/utils/snippet_machine.py:10-45 | A frame is produced iff the four coordinates are set, and `is_frame_set` implies that it is. |
| Snippet.ZeroIsUnset | src/utils/snippet_machine.py:44-45 | A coordinate 0 makes `is_frame_set` false, although `get_frame` works. |
| Overlay.Draw | src/utils/image_modifier.py:10-37 | Succeeds iff both squares are found; the first lookup error wins. Both circles are 50×50 cells aligned to the 50-pixel grid, in one of the eight columns. The row is not bounded: rank digit 0 or 9 puts a circle off the board. |
| Overlay.CellOfSquare | src/utils/image_modifier.py:14-20 | White: column = file-'a'+1 and row = 9-rank. Black: column = 'h'-file+1 and row = rank. |
| Overlay.FileColumn | src/utils/image_modifier.py:7-8 | The two tables are this arithmetic on the file letter. |
| Overlay.IndexCell | src/utils/image_modifier.py:14-37 | From either side, the square decoded from index idx is circled at column idx%8+1 and row idx/8+1. Its box starts at ((idx%8)·50, (idx/8)·50). |
| Overlay.BoxInside | src/utils/image_modifier.py:22-37 | Every circle for a square of the board lies within [0, 400]². |
| Overlay.CellsDistinct | src/utils/image_modifier.py:14-20 | Different squares are circled in different cells. |
| Overlay.BadSquares | src/utils/image_modifier.py:16-20 | Malformed square names raise the IndexError, KeyError or ValueError of the lookups. |
| Uci.PutSpec | src/core/stockfish.rs:436-446 | The command is written iff the process runs or "quit" was sent. "quit" sets `quit_sent`, and nothing else changes. |
| Uci.PutSilentWhenStopped | src/core/stockfish.rs:437-439 | A stopped process never told to quit receives nothing. |
| Uci.QuitKeepsWriting | src/core/stockfish.rs:437-445 | After "quit", commands are written even once the process stops. |
| Uci.LinesUntil | src/core/stockfish.rs:500-509 | The mock's `lines` returns the waiting lines through the first containing the pattern, or all of them. |
| Uci.GoWritesDepth | src/core/stockfish.rs:448-450 | `_go` writes "go depth {depth}". |
| Uci.AwaitReadyMeaning | src/core/stockfish.rs:413-422 | The wait succeeds iff "readyok" is queued. It consumes the queue through its first occurrence, and otherwise panics on the empty queue. |
| Uci.PrepareMeaning | src/core/stockfish.rs:376-382 | "ucinewgame" is written only when asked, then "isready". On success `info` is cleared. |
| Uci.GetFenMeaning | src/core/stockfish.rs:360-369 | "d" is written, and the result is the trimmed "Fen" line from byte 5 when it contains "Fen: ". Otherwise it panics. |
| Uci.FirstBestmove | src/core/stockfish.rs:387-393 | Finds the first line whose first token is "bestmove". |
| Uci.MoveScanMeaning | src/core/stockfish.rs:384-407 | Blank lines are skipped, and `info` becomes the last non-blank line before "bestmove" ("" if none). The move is None for "(none)" or no argument, else the argument. |
| Uci.IsCorrectMoveRestores | src/core/stockfish.rs:424-430 | Writes "go depth 1 searchmoves {m}" and answers whether the bestmove has an argument. `info` and the queue are restored. |
| Uci.MakeMoveCases | src/core/stockfish.rs:295-308 | An empty list writes nothing. A rejected move panics with "Move '{m}' is not a valid move for current position or engine state.". |
| Uci.PlayMovesLast | src/core/stockfish.rs:302-312 | After the moves are played, the last line written is "position fen {pos} moves {last move}". |
| Uci.AugmentedMeaning | src/core/stockfish.rs:327-336 | "UCI_LimitStrength" is added, as "false" or "true", exactly when one of "Skill Level"/"UCI_Elo" is given without it. Given keys are kept. |
| Uci.ApplyOptionsMeaning | src/core/stockfish.rs:347-354 | When every handshake succeeds, each option line and "isready" is written, and each option is recorded over the old table. |
| Uci.UpdateParamsMeaning | src/core/stockfish.rs:316-358 | With a filled table, an unknown key panics before anything is written. On success every given key maps to its value, every other key keeps its old value, and its setoption line was written. |
| Uci.UpdateParamsErrors | src/core/stockfish.rs:316-358 | "TODO!" is raised exactly when the table is filled and a key is new. The other panics come from an empty read queue or a missing "Fen: " line. |
| Uci.ConfigKeys | src/core/stockfish.rs:144-160 | `set_config` registers exactly its ten keys ("Skill Level" among them, "Skill level" not), and needs no strength switch. |
| Uci.SkillLevelRejectedAfterConfig | src/core/stockfish.rs:276-281 | As written, with a filled table lacking "Skill level", `set_skill_level` panics with "TODO!" and changes nothing. |
| Uci.SkillLevelAcceptedAfterConfig | src/core/stockfish.rs:276-281 | With the registered spelling, after `set_config` the key check never refuses a skill level. |
| Uci.EloForcesLimit | src/core/stockfish.rs:283-288 | `set_elo_rating` sends "UCI_LimitStrength" = "true" and the rating. |
| Uci.HandshakeMeaning | src/core/stockfish.rs:127-142 | Construction reads the version line, writes "uci" and drops the next line, starting from empty parameters and `info`. |
| Uci.ReadLineSpec | src/core/stockfish.rs:492-494 | Succeeds iff a line waits. It then returns the oldest line and removes it, and nothing else changes. An empty queue is the unwrap panic, with nothing changed. |
| Uci.Stockfish.ReadLine | src/core/stockfish.rs:432-434 | The method agrees with `ReadLineSpec`. |
| Uci.Stockfish.constructor | src/core/stockfish.rs:127-135 | The fields start as the struct literal sets them. |
| Uci.Stockfish.Handshake | src/core/stockfish.rs:136-142 | The rest of construction agrees with `HandshakeSpec`. |
| Uci.Stockfish.PrepareForNewPosition | src/core/stockfish.rs:376-382 | Agrees with `PrepareSpec`. |
| Uci.Stockfish.SetFenPosition | src/core/stockfish.rs:371-374 | Agrees with `SetFenSpec`. |
| Uci.Stockfish.Go | src/core/stockfish.rs:448-450 | Agrees with `GoSpec`. |
| Uci.Stockfish.GetBestMove | src/core/stockfish.rs:290-293 | Agrees with `GetBestMoveSpec`. |
| Uci.Stockfish.SetOptions | src/core/stockfish.rs:347-354 | The setoption loop agrees with `ApplyOptions`. |
| Uci.Stockfish.Put | src/core/stockfish.rs:436-446 | The object's `_put` changes its state as `PutSpec` says. |
| Uci.Stockfish.IsReady | src/core/stockfish.rs:413-422 | The reading loop agrees with `IsReadySpec`. |
| Uci.Stockfish.GetFenPosition | src/core/stockfish.rs:360-369 | Agrees with `GetFenSpec`. |
| Uci.Stockfish.GetMoveFromProc | src/core/stockfish.rs:384-407 | The loop with `last_text` agrees with `GetMoveSpec`. |
| Uci.Stockfish.IsCorrectMove | src/core/stockfish.rs:424-430 | Agrees with `IsCorrectMoveSpec`. |
| Uci.Stockfish.MakeMove | src/core/stockfish.rs:295-313 | Agrees with `MakeMoveSpec`. |
| Uci.Stockfish.UpdateParams | src/core/stockfish.rs:316-358 | Agrees with `UpdateParamsSpec` for the given iteration order. |
| Uci.Stockfish.SetSkillLevel | src/core/stockfish.rs:276-281 | `update_params` with "UCI_LimitStrength" = "false" and "Skill level". |
| Uci.Stockfish.SetSkillLevelFixed | src/core/stockfish.rs:276-281 | The same with the key "Skill Level". |
| Uci.Stockfish.SetEloRating | src/core/stockfish.rs:283-288 | `update_params` with the strength limit and the rating. |
| Uci.Stockfish.SetConfig | src/core/stockfish.rs:144-160 | `update_params` with the ten default options. |
| Printer.PieceTable | src/utils/printer.rs:3-18 | The table has 128 entries. An entry is non-empty exactly at a piece letter, and then it is one chess glyph U+2654..U+265F. |
| Printer.TableMeaning | src/utils/printer.rs:3-18 | An entry is non-empty exactly at the twelve piece letters, and different letters have different glyphs. |
| Printer.GetPiece | src/utils/printer.rs:20-26 | Some iff c < 128; the entry is non-empty iff c is a piece letter. |
| Printer.DefaultPrint | src/utils/printer.rs:32-37 | The character itself, as a one-character string. |
| Printer.PrettyPrint | src/utils/printer.rs:39-44 | A chess glyph for a piece letter, "" for other ASCII, " " beyond ASCII. |
| Printer.GetPieceDefined | src/utils/printer.rs:20-26 | `get_piece(c)` is Some(table[c]) iff c < 128. |
| Printer.PrettyPrintCases | src/utils/printer.rs:39-44 | It gives a chess glyph for a piece letter, "" for other ASCII (space included), and " " beyond ASCII. |
| Printer.DefaultPrintIdentity | src/utils/printer.rs:32-37 | The default printer shows the character itself. |
| Printer.ViewsAreBijections | src/utils/printer.rs:51-69 | The white view is the identity. The black view is defined iff i ≤ 7 (beyond, `7 - i` overflows a usize); it maps i to 7-i, stays on 0..7, is injective and undoes itself. |
| Printer.BoardTextLayout | src/utils/printer.rs:76-85 | The dump is 137 characters and starts with '\n'. Row r occupies 17 characters from 1+17r: each cell then a space, then '\n'. |
| Printer.RawBoardToString | src/utils/printer.rs:76-85 | The two loops compute `BoardText`. |
| Tracker.RegisterPiece | core/src/engine.rs:29-42 | Exactly the cell (clamp(7-y/(h/8)), clamp(x/(w/8))) is overwritten and the other 63 are unchanged. A board under 8 pixels panics on the division and changes nothing. |
| Tracker.PixelsToBoard | core/src/image.rs:100-108 | The same placement for the image module. |
| Tracker.CellInRange | core/src/engine.rs:38-39 | A placed cell is always on the board. |
| Tracker.CellDefined | core/src/engine.rs:35-39 | A cell is found iff both sides are at least 8 pixels. |
| Tracker.CellOfInside | core/src/engine.rs:35-39 | Inside a board of positive size, the point lands in the tile it falls in. |
| Tracker.PosToAlgebraic | core/src/engine.rs:44-48 | Two characters: file 'a'+col and the rank digit 8-row. |
| Tracker.PosToAlgebraicSquare | core/src/engine.rs:44-48 | Cell (row, col) is named file 'a'+col and rank 8-row, in two characters. |
| Tracker.PosToAlgebraicBijection | core/src/image.rs:110-114 | Different cells have different names, and every square names a cell. |
| Tracker.LastMarkedMeaning | core/src/engine.rs:54-65 | The cell found is marked and no later one is. When none is found, none is marked. |
| Tracker.DetectMove | core/src/engine.rs:50-76 | The two loops compute `MoveBetween`: the last vacated and the last filled cell in row-major order. |
| Tracker.FindMove | core/src/image.rs:116-142 | The image module's copy computes the same. |
| Tracker.SimpleMove | core/src/image.rs:133-138 | With one vacated and one filled cell, the move is their two names: four characters. |
| Tracker.NoMoveWithoutBoth | core/src/engine.rs:67-75 | There is no move iff no cell was vacated or none was filled. |
| Tracker.CaptureYieldsNone | core/src/engine.rs:56-62 | A capture, with no other change, yields None. |
| Tracker.NoChangeNoMove | core/src/engine.rs:50-76 | Identical boards have no move. |
| Imaging.DetectWhiteEdges | core/src/utils.rs:91-121 | The two loops compute the reference box `WhiteEdges`. |
| Imaging.EdgesUpToMeaning | core/src/utils.rs:97-118 | After any prefix of pixels, every bright pixel seen is inside the box and each side is attained. With none seen it is still (width, 0, height, 0). |
| Imaging.WhiteEdgesMeaning | core/src/utils.rs:91-121 | With a pixel above 220, the box is tight and attained. Without, it is (width, 0, height, 0). |
| Imaging.Trimm | core/src/utils.rs:123-128 | The crop starts at the box's corner with size (x_max-x_min, y_max-y_min), excluding the last bright column and row. Without a bright pixel, a non-empty image underflows. |
| Imaging.EdgesBox | core/src/utils.rs:91-121 | With a bright pixel the box lies inside the image; without one it is the initial box. |
| Imaging.ToBinary | core/src/utils.rs:130-144 | Same dimensions, and each pixel is 255 iff (r+g+b)/3 > threshold, else 0. Alpha is ignored. |
| Imaging.BinaryIsTwoLevel | core/src/utils.rs:136-141 | Output pixels are 0 or 255; 255 exactly when r+g+b ≥ 3(threshold+1). |
| Occupancy.CountRow | core/src/utils.rs:192-200 | A row of a cell counts its zero bytes, or panics on the first index beyond the buffer. |
| Occupancy.CountCell | core/src/utils.rs:188-203 | A cell's black count and pixel count, or the index panic. |
| Occupancy.ExtractBoardState | core/src/utils.rs:177-208 | The four loops compute `BoardState`. |
| Occupancy.SameBoard | core/src/utils.rs:177-208 | A board whose every cell is the occupancy of its block is the result. |
| Occupancy.OccupiedMeaning | core/src/utils.rs:204 | A cell is occupied iff black·100/all ≥ 1 (integer division), i.e. 100·black ≥ all. |
| Occupancy.BoardStateDefined | core/src/utils.rs:177-208 | It succeeds iff the image is at least 8×8 and the buffer reaches the last cell's last pixel; width·height bytes always suffice. Under 8 pixels it divides by zero. |
| Occupancy.LastMarkedMeaning | core/src/utils.rs:217-226 | The cell found is marked and no later one is. |
| Occupancy.DetectMove | core/src/utils.rs:210-232 | The loops compute `MoveCells`: (col, row) of the last true→false and last false→true cells, or a panic. |
| Occupancy.SimpleMoveCells | core/src/utils.rs:210-232 | One piece leaving s and one arriving at t gives ((s%8, s/8), (t%8, t/8)). |
| Occupancy.MoveCellsFailure | core/src/utils.rs:228-231 | It panics on the start iff no cell was left, on the end iff one was but none was reached. |
| Occupancy.CheckIfBoardWasChanged | core/src/utils.rs:240-253 | True iff exactly two cells differ. |
| Occupancy.DiffCountIsSize | core/src/utils.rs:242-250 | The counter is the number of differing cells. |
| Occupancy.TwoChanges | core/src/utils.rs:240-253 | Exactly two changed cells means the changed set is that pair. |
| Occupancy.MoveAndCapture | core/src/utils.rs:240-253 | A plain move changes two cells. A capture changes one and is not seen as a change. |
| Occupancy.PixelToChessCoord | core/src/utils.rs:234-238 | Succeeds iff x%256 < 159 and y ≤ the board height (else the add or subtract overflow). The text is file 'a'+x%256 followed by the decimal digits of height-y. |
| Occupancy.PixelToChessCoordSquare | core/src/utils.rs:234-238 | On an 8-row board, (x, y) is file 'a'+x and rank 8-y, whatever the width. |
| Occupancy.PixelToChessCoordLimits | core/src/utils.rs:234-238 | The file wraps every 256 columns as a u8, a column whose low byte is 159 or more overflows, and y beyond the height underflows. |
| Region.New | core/src/utils/screen_region.rs:13-35 | `new` stores its arguments, and `values` returns them in order. |
| Region.ParseIntegerRange | core/src/utils/screen_region.rs:52-55 | A parsed value lies in the type's range. |
| Region.I32RoundTrip | core/src/utils/screen_region.rs:52-53 | The rendering of every i32 parses back to it. |
| Region.U32RoundTrip | core/src/utils/screen_region.rs:54-55 | The rendering of every u32 parses back to it. |
| Region.ParseDigitErrors | core/src/utils/screen_region.rs:52-55 | An empty text is the empty-string error. A lone sign, a stray character, a leading space and a '-' for u32 are invalid digits. |
| Region.OutOfRangeRefused | core/src/utils/screen_region.rs:52-55 | A rendered integer above the range is "number too large…", and one below it "number too small…". |
| Region.SplitJoin | core/src/utils/screen_region.rs:43 | Splitting comma-free parts joined by ',' gives the parts back. |
| Region.StripParens | core/src/utils/screen_region.rs:42 | One enclosing pair of parentheses is stripped from a body that neither starts nor ends with one, and nothing else. |
| Region.FromParts | core/src/utils/screen_region.rs:52-62 | Succeeds iff all four trimmed parts parse; each field is then its part's value. |
| Region.TryFrom | core/src/utils/screen_region.rs:41-63 | A part count other than four is the count error. On success each field is the parse of its trimmed part. |
| Region.TryFromFormat | core/src/utils/screen_region.rs:33-64 | Parsing "(x, y, w, h)" and calling `values` gives (x, y, w, h). |
| Region.WrongCount | core/src/utils/screen_region.rs:45-50 | Any number of parts other than four is "Invalid input: expected 4 elements, got {n}". |
| Config.ValidateRegion | core/src/config.rs:66-76 | Pass iff non-zero size and non-negative origin. A zero dimension is reported first, with its message; otherwise a negative coordinate. |
| Config.ValidateThresholds | core/src/config.rs:78-100 | Pass iff 12 entries none of which is refused. On failure the error is one the checks can give in some iteration order: empty, count, bad key, out of range. |
| Config.ThresholdsValidMeaning | core/src/config.rs:78-100 | Thresholds pass iff their key set is exactly the twelve letters and every value lies in (0, 2). |
| Config.UniformThresholdsValid | core/src/config.rs:152-159 | Twelve letters with one value in (0, 2) pass. |
| Config.BoundsRefused | core/src/config.rs:311-331 | 0.0 and 2.0 are refused. |
| Config.OnlyRefusal | core/src/config.rs:87-98 | With one refused entry, the error names that entry whatever the order. |
| Config.StemOfImage | core/src/config.rs:125 | The stem of a five-character name "c.ext" is "c". |
| Config.FileNameOf | core/src/config.rs:124 | The file name of "dir/name" is `name`. |
| Config.PieceFileEntry | core/src/config.rs:123-140 | A piece image path is listed, and it is accepted iff its one-letter stem is a piece letter. |
| Config.ValidateCustomPieces | core/src/config.rs:102-141 | Pass iff the directory exists, lists 12 PNG paths, and each stem is one piece letter. On failure the error is the refusal of one of the listed entries (which one is fixed by `CheckEntries`). The file system is unchanged. |
| Config.CheckEntries | core/src/config.rs:123-140 | The loop passes iff every entry is accepted. Otherwise it reports the first refused entry. |
| Config.ImageEntry | core/src/config.rs:123-135 | "dir/c.png" (any case of the extension) is listed, and is accepted iff c is a piece letter. |
| Config.PieceDirListing | core/src/config.rs:171-186 | The directory and one image per letter list exactly the twelve images. |
| Config.AllPiecesAccepted | core/src/config.rs:188-249 | One image per piece letter passes, for the custom and the platform directory. |
| Config.WrongPieceCount | core/src/config.rs:209-222 | A number of images other than 12 is refused for the count. |
| Config.OneWrongPiece | core/src/config.rs:224-238 | Twelve images with one wrong stem: the error names that stem. |
| Config.SameStemTwice | core/src/config.rs:123-140 | Stems need not be distinct: "p.png" and "p.PNG" are both accepted. |
| Config.New | core/src/config.rs:25-41 | Success iff region, thresholds and pieces pass. The first error is returned in that order, and on success the fields are stored unchanged. |
| Config.SaveConfig | core/src/config.rs:55-64 | ".config.json" exists afterwards and holds exactly the serialized config. Other paths are unchanged. An existing file keeps its entry. |
| Config.DefaultRegionValid | core/src/webwrapper/chesscom.rs:35 | (440, 219, 758, 759) passes `validate_region`. |
| Config.DefaultThresholdsValid | core/src/webwrapper/chesscom.rs:36-49 | The default thresholds pass `validate_thresholds`. |
| FileSystem.FakeFile.Write | core/src/utils/file_system.rs:58-62 | Appends the buffer and reports its length. |
| FileSystem.FakeFileWriter.Write | core/src/utils/file_system.rs:74-77 | Appends to the shared file and reports the length. |
| FileSystem.FakeFileWriter.WriteAll | core/src/utils/file_system.rs:74-77 | The whole buffer is appended. |
| FileSystem.PngUnder | core/src/utils/file_system.rs:116-126 | The listed keys are a subset of the table. |
| FileSystem.TestFileSystem.constructor | core/src/utils/file_system.rs:87-93 | A new file system has no entries. |
| FileSystem.TestFileSystem.Exists | core/src/utils/file_system.rs:96-98 | True iff the path has an entry. |
| FileSystem.TestFileSystem.Open | core/src/utils/file_system.rs:99-115 | `open(p, true)` on a present file empties it and returns a writer to that same file. On an absent file it is NotFound with nothing changed. `open(p, false)` puts a fresh empty file at p. No other path or file changes. |
| FileSystem.TestFileSystem.ReadDir | core/src/utils/file_system.rs:116-126 | Every key below p + "/" whose lowercase ends in ".png", once each. It never fails and `p` need not exist. |
| FileSystem.CreateAndWrite | core/src/utils/file_system.rs:99-115 | Opening for creation and writing leaves exactly those bytes at the path. |
| WebWrapper.DisplayNames | core/src/webwrapper/mod.rs:25-29 | The modes display as "chesscom" and "lichess". |
| WebWrapper.DisplayInjective | core/src/webwrapper/mod.rs:25-29 | Different modes have different pieces directories. |
| WebWrapper.New | core/src/webwrapper/chesscom.rs:12-26 | `new` stores region and thresholds, and the getters return them. |
| WebWrapper.PiecesPathIsModeName | core/src/webwrapper/chesscom.rs:16-29 | The mode is Chesscom, and `pieces_path` is the display name of that mode. |
| WebWrapper.Default | core/src/webwrapper/chesscom.rs:32-51 | The default region is (440, 219, 758, 759). The thresholds are keyed by exactly the twelve piece letters, each strictly between 0 and 1. |
| StockfishConfig.New | core/src/config/stockfish.rs:11-23 | It never fails. The path is copied, a given number is kept, and a missing one defaults to depth 10, memory 1024 and elo 2500. |

## Left out

- Neural recognizer, screen capture, OpenCV and PIL drawing: foreign
  libraries. The recognizer's output and the screenshots are inputs, and
  `mse(...) != 0` is a parameter `differs`.
- Threads, the zmq/actix/UI layers, and the sleeps of the Python loops: concurrency
  and I/O. The mailboxes are modelled sequentially.
- The stockfish Python package: its replies are parameters. In
  `src/app/application.py` the engine is a function from the moves played so
  far to the best move or the exception that `make_moves_from_current_position`
  or `get_best_move` raised. In `src/utils/engine.py` the reply of
  `make_moves_from_current_position`, `get_best_move` and `get_evaluation`
  either fails as a whole or gives an evaluation, an optional best move, and
  separately failing `get_wdl_stats` and `get_top_moves` results. The
  values themselves are not computed.
- Perception.AnalysisSends: the image that `draw` returns is not stored in
  `_current_board_img`, and `save_board_image` and `Image.open` (file I/O) are
  not modelled. Only the lookup exceptions of `draw` are.
- Perception.Engine.StopScanning: stopping the threads themselves is not modelled.
- The real process behind the UCI client (`RealProcess`) is not modelled. The
  process is the file's own mock: reading pops a queue, and `lines` /
  `desired_line` look ahead without consuming. `go_time`, `get_wdl_stats`,
  `extract_values`, `summary`, `Drop` and `set_fen_position`'s use inside
  `get_wdl_stats` are left out: floats and the centipawn parsing.
- Uci.Stockfish.UpdateParams: the `Threads`/`Hash` remove-and-reinsert
  is not modelled. It changes nothing in a `HashMap`, whose iteration order
  is a parameter anyway.
- Floating point: thresholds are exact reals, so a NaN threshold (which the
  Rust check lets through) cannot be expressed. f64 `Display` in the
  out-of-range message is a parameter `floatText`.
- `RealFileSystem` and real directories are not modelled. `Config.New` takes
  the in-memory `TestFileSystem` instead of the hard-wired `RealFileSystem`.
  `Path::file_name` is modelled as the text after the last '/'. Trailing
  separators and "." components, which `Path` normalises, are not modelled.
- The JSON encoding of `save_config` is a parameter `serialize`.
  `from_cache` in `core/src/config.rs` and `core/src/config/stockfish.rs`
  is not modelled.
- FileSystem.FakeFileWriter.WriteAll: the `WriteZero` error of
  `write_all` cannot occur, because every write here takes the whole buffer.
  `flush` is a no-op. The `?` error paths of `open` and `read_dir` on the
  in-memory file system cannot occur either.
- Text.IsDigit: only the ASCII digits '0'..'9' are digits. Python's
  `str.isdigit` also accepts other Unicode digits ('²', '٣'), which `int`
  then rejects or reads. Only ASCII placements are modelled.
- FileSystem.TestFileSystem.Valid: two paths never share one `FakeFile`.
  The Rust `Rc<RefCell<…>>` allows that, and clearing a file through one
  path would then also clear the other; that aliasing is not modelled.
- Uci.GetFenSpec: the FEN is cut by characters, not by UTF-8 bytes. The
  char-boundary panic of a Rust byte slice cannot arise, since engine output
  here is ASCII.
- Text.AsciiLower: `to_lowercase` is modelled for ASCII only. Unicode case
  mapping is outside the model.
- Occupancy.BoardState: the integers are unbounded. In the source,
  `black_pixel_count * 100` is `i32` arithmetic, which panics in a debug build
  once a cell holds more than 21,474,836 black pixels. `y * width + x` is
  `u32` arithmetic, which overflows on images of more than 2^32 pixels. Neither
  panic is modelled, so `BoardStateDefined` holds only below those sizes.
- Tracker.RegisterPiece: the pixel coordinates are mathematical integers.
  32-bit overflow of `point` is not modelled.
- Imaging: `crop_imm` is the image crate's, not this repository's. The model
  clamps the rectangle to the image as that function documents.
- `calculate_rms`, `player_color`, `get_screen_area`, `take_screenshot` and
  the template functions of `core/src/utils.rs` are not modelled: floats and
  device I/O.
- The keras training and model code, `src/utils/thread.py`, the async client
  and the other files outside the move pipeline are not part of this model.

## Findings

| source | as written | input that shows it | evidently intended | confidence | as-written member | corrected member |
|---|---|---|---|---|---|---|
| src/app/application.py:45, 50 | `get_diff_move` is called with two arguments, but src/utils/board.py:85 takes three, so every decoding attempt raises TypeError. It is not caught, so it ends the loop. | feed "K7", "7K", "7K" | pass the side to move, as src/utils/engine.py:112 does | not executed | ScanLoop.AsWrittenTypeError | ScanLoop.CorrectedMoves |
| src/log.py:36-37 | `new not in cls.queues` compares the class object with name keys, so it is always true. Redefining a class under a used name replaces its queue. | a registry whose queue for the name holds one item | keep an existing queue (`new.__name__ not in cls.queues`) | not executed | Mailboxes.RedefinitionResets | Mailboxes.RedefinitionKeeps |
| src/core/stockfish.rs:279 | `set_skill_level` sends the key "Skill level", while `set_config` registers "Skill Level". After `set_config`, the key check panics with "TODO!". | `set_config` then `set_skill_level(5)` | use "Skill Level", as lines 151 and 327 do | not executed | Uci.SkillLevelRejectedAfterConfig | Uci.SkillLevelAcceptedAfterConfig |
