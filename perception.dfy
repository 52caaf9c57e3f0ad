/**
 * The perception engine: a scanning step publishes changed screenshots to
 * the image mailbox, and a calculating step turns the next image into a
 * placement, decodes the move against the previous placement, and forwards
 * the chess engine's analysis to the evaluation and moves mailboxes. The
 * recognizer, the pixel difference and the chess engine are inputs.
 */
module Perception {
  import opened Wrappers
  import opened Text
  import Board
  import Mailboxes
  import Overlay

  datatype PlayColor = Black | White

  /** The twelve pieces the chess engine reports for a square. */
  datatype Piece =
    | BlackPawn | BlackRook | BlackKnight | BlackBishop | BlackKing | BlackQueen
    | WhitePawn | WhiteRook | WhiteKnight | WhiteBishop | WhiteKing | WhiteQueen

  /** The `PIECES` table: each piece's chess glyph. */
  function PieceGlyph(p: Piece): char
  {
    match p
    case BlackPawn => '\U{265F}'
    case BlackRook => '\U{265C}'
    case BlackKnight => '\U{265E}'
    case BlackBishop => '\U{265D}'
    case BlackKing => '\U{265A}'
    case BlackQueen => '\U{265B}'
    case WhitePawn => '\U{2659}'
    case WhiteRook => '\U{2656}'
    case WhiteKnight => '\U{2658}'
    case WhiteBishop => '\U{2657}'
    case WhiteKing => '\U{2654}'
    case WhiteQueen => '\U{2655}'
  }

  /** No two pieces share a glyph, and every glyph is one of the twelve chess symbols U+2654..U+265F. */
  lemma GlyphsDistinct(p: Piece, q: Piece)
    ensures '\U{2654}' <= PieceGlyph(p) <= '\U{265F}'
    ensures p != q ==> PieceGlyph(p) != PieceGlyph(q)
  {
  }

  /** A screenshot, as its pixel values. */
  type Image = seq<int>

  /** The chess engine's evaluation of the position (its kind and value). */
  datatype Eval = Eval(kind: string, value: int)

  /** One of the engine's top lines: a move and either a centipawn score or a mate distance. */
  datatype TopMove = TopMove(move: string, centipawn: Option<int>, mate: Option<int>)

  datatype FinalTopMove = FinalTopMove(move: string, evaluation: string)

  /** The statistics sent to the moves mailbox. */
  datatype Stats = Stats(wdl: seq<int>, topMoves: seq<FinalTopMove>, bestMove: string)

  /** What travels through the mailboxes. */
  datatype Item =
    | Log(message: Mailboxes.Message)
    | Frame(image: Image)
    | Evaluation(eval: Eval)
    | Statistics(stats: Stats)

  /**
   * What the chess engine answers after the decoded move is played: the
   * evaluation, the best move (None when the engine finds none), and what
   * stands on each occupied square. The win/draw/loss figures and the top
   * lines are asked for only after the evaluation is sent, so each is the
   * answer or the text of the exception that call raised. The reply as a
   * whole is the text of the exception when playing the move, asking for the
   * best move or asking for the evaluation raised.
   */
  datatype Analysis = Analysis(
    evaluation: Eval,
    bestMove: Option<string>,
    wdl: Result<seq<int>, string>,
    topMoves: Result<seq<TopMove>, string>,
    squares: map<string, Piece>)

  const LogTopic: string := Mailboxes.TopicNames[1]
  const MovesTopic: string := Mailboxes.TopicNames[2]
  const EvaluationTopic: string := Mailboxes.TopicNames[3]
  const ImageTopic: string := Mailboxes.TopicNames[4]

  // ----- small pure pieces -----

  /** Python's `s[:n]` and `s[n:]` for n >= 0. */
  function Prefix(s: string, n: nat): string
  {
    if n <= |s| then s[..n] else s
  }

  function Suffix(s: string, n: nat): string
  {
    if n <= |s| then s[n..] else ""
  }

  /** `__get_piece_from_position`: the glyph of the piece on the first two characters, then the rest; KeyError("None") on an empty square. */
  function PieceFromPosition(position: string, squares: map<string, Piece>): Result<string, string>
  {
    var square := Prefix(position, 2);
    if square in squares then Success([PieceGlyph(squares[square])] + Suffix(position, 2))
    else Failure("None")
  }

  /** The described move is read back as the moving piece's glyph followed by the destination. */
  lemma PieceFromPositionParts(position: string, squares: map<string, Piece>)
    requires |position| >= 2
    ensures PieceFromPosition(position, squares).Success? <==> position[..2] in squares
    ensures PieceFromPosition(position, squares).Failure? ==> PieceFromPosition(position, squares).error == "None"
    ensures PieceFromPosition(position, squares).Success? ==>
      var text := PieceFromPosition(position, squares).value;
      |text| == |position| - 1 && text[0] == PieceGlyph(squares[position[..2]]) && text[1..] == position[2..]
  {
  }

  /** `str` of an optional integer. */
  function OptionText(x: Option<int>): string
  {
    match x
    case Some(v) => IntToString(v)
    case None => "None"
  }

  /** The evaluation column of a top line: a truthy mate distance wins over the centipawn score. */
  function EvaluationText(t: TopMove): string
  {
    if t.mate.Some? && t.mate.value != 0 then
      if t.mate.value > 0 then "M" + IntToString(t.mate.value) else "-M" + NatToString(-t.mate.value)
    else OptionText(t.centipawn)
  }

  /** The evaluation text names the mate distance it came from, or is the centipawn score. */
  lemma EvaluationTextMeaning(t: TopMove)
    ensures t.mate.Some? && t.mate.value > 0 ==>
      var e := EvaluationText(t); |e| >= 2 && e[0] == 'M' && AllDigits(e[1..]) && DigitsValue(e[1..]) == t.mate.value
    ensures t.mate.Some? && t.mate.value < 0 ==>
      var e := EvaluationText(t); |e| >= 3 && e[..2] == "-M" && AllDigits(e[2..]) && DigitsValue(e[2..]) == -t.mate.value
    ensures (t.mate.None? || t.mate.value == 0) ==> EvaluationText(t) == OptionText(t.centipawn)
  {
    if t.mate.Some? && t.mate.value > 0 {
      var e := EvaluationText(t);
      assert e[1..] == NatToString(t.mate.value);
      NatToStringValue(t.mate.value);
    } else if t.mate.Some? && t.mate.value < 0 {
      var e := EvaluationText(t);
      assert e[2..] == NatToString(-t.mate.value);
      assert e[..2] == "-M";
      NatToStringValue(-t.mate.value);
    }
  }

  /** `__translate_top_moves`, as a specification: one translated line per top line, or the first KeyError. */
  function Translated(tops: seq<TopMove>, squares: map<string, Piece>): Result<seq<FinalTopMove>, string>
  {
    if tops == [] then Success([])
    else
      match Translated(tops[..|tops| - 1], squares)
      case Failure(m) => Failure(m)
      case Success(done) =>
        var last := tops[|tops| - 1];
        match PieceFromPosition(last.move, squares)
        case Failure(m) => Failure(m)
        case Success(mv) => Success(done + [FinalTopMove(mv, EvaluationText(last))])
  }

  /** `__translate_top_moves`: the loop appending one batch per top line. */
  method TranslateTopMoves(tops: seq<TopMove>, squares: map<string, Piece>) returns (result: Result<seq<FinalTopMove>, string>)
    ensures result == Translated(tops, squares)
  {
    var done: seq<FinalTopMove> := [];
    for i := 0 to |tops|
      invariant Translated(tops[..i], squares) == Success(done)
    {
      assert tops[..i + 1][..i] == tops[..i];
      var top := tops[i];
      var mv := PieceFromPosition(top.move, squares);
      if mv.Failure? {
        TranslatedFailureStays(tops, squares, i + 1);
        return Failure(mv.error);
      }
      done := done + [FinalTopMove(mv.value, EvaluationText(top))];
    }
    assert tops[..|tops|] == tops;
    return Success(done);
  }

  /** A KeyError on one top line is the result of the whole translation. */
  lemma {:induction false} TranslatedFailureStays(tops: seq<TopMove>, squares: map<string, Piece>, i: nat)
    requires i <= |tops| && Translated(tops[..i], squares).Failure?
    ensures Translated(tops, squares) == Translated(tops[..i], squares)
    decreases |tops|
  {
    if i == |tops| {
      assert tops[..i] == tops;
    } else {
      var init := tops[..|tops| - 1];
      assert init[..i] == tops[..i];
      TranslatedFailureStays(init, squares, i);
    }
  }

  /** Translation succeeds iff every top line starts on an occupied square; it keeps the lines' order. */
  lemma {:induction false} TranslatedPointwise(tops: seq<TopMove>, squares: map<string, Piece>)
    ensures Translated(tops, squares).Success? <==> forall i :: 0 <= i < |tops| ==> PieceFromPosition(tops[i].move, squares).Success?
    ensures Translated(tops, squares).Success? ==>
      var out := Translated(tops, squares).value;
      |out| == |tops| && forall i :: 0 <= i < |tops| ==>
        out[i] == FinalTopMove(PieceFromPosition(tops[i].move, squares).value, EvaluationText(tops[i]))
    ensures Translated(tops, squares).Failure? ==> Translated(tops, squares).error == "None"
  {
    if tops != [] {
      var init := tops[..|tops| - 1];
      TranslatedPointwise(init, squares);
      assert forall i :: 0 <= i < |init| ==> init[i] == tops[i];
    }
  }

  /** `__detect_play_color`. */
  function DetectPlayColor(fen: string): (c: PlayColor)
    ensures c == Black <==> (|fen| > 0 && fen[0] == 'R')
  {
    if StartsWith(fen, "R") then Black else White
  }

  /** `strip(" ")`. */
  function StripSpaces(s: string): string
  {
    TrimEnds(s, c => c == ' ')
  }

  /** `get_diff_move(fen_to_list(previous), fen_to_list(current), white_on_move)`, arguments evaluated left to right. */
  function DecodeFens(previous: string, current: string, whiteOnMove: bool): Result<string, Board.DecodeError>
  {
    match Board.FenToListSpec(previous)
    case Failure(e) => Failure(e)
    case Success(b1) =>
      match Board.FenToListSpec(current)
      case Failure(e) => Failure(e)
      case Success(b2) => Board.DiffMove(b1, b2, whiteOnMove)
  }

  // ----- the engine's state and the two steps as functions -----

  /** The fields of the engine the two steps read and write. */
  datatype EngineState = EngineState(
    playColor: PlayColor,
    prevImg: Option<Image>,
    currentImg: Option<Image>,
    correctMoves: seq<string>,
    previousFen: string,
    currentFen: string,
    firstMove: bool,
    movesCounter: int,
    whiteOnMove: bool,
    threadsStarted: bool)

  predicate TopicsReady(qs: Mailboxes.Queues<Item>)
  {
    LogTopic in qs && MovesTopic in qs && EvaluationTopic in qs && ImageTopic in qs
  }

  /** Only screenshots are ever sent to the image mailbox. */
  predicate FramesOnly(qs: Mailboxes.Queues<Item>)
  {
    ImageTopic in qs && forall i :: 0 <= i < |qs[ImageTopic]| ==> qs[ImageTopic][i].Frame?
  }

  /** What `calculate` may rely on: the mailboxes exist, and the first call has the initial screenshot. */
  predicate CanCalculate(s: EngineState, qs: Mailboxes.Queues<Item>)
  {
    TopicsReady(qs) && FramesOnly(qs) && (s.firstMove ==> s.currentImg.Some?)
  }

  function LogError(qs: Mailboxes.Queues<Item>, body: string): Mailboxes.Queues<Item>
    requires LogTopic in qs
  {
    Mailboxes.Sent(qs, LogTopic, Log(Mailboxes.Message(body, Mailboxes.Error)))
  }

  /** `str` of the TypeError raised by slicing None. */
  const NoneNotSubscriptable: string := "'NoneType' object is not subscriptable"

  /**
   * The statistics dictionary, its values evaluated in order: the
   * win/draw/loss figures, the translated top lines, then the described best
   * move; or the text of the first exception among them.
   */
  function StatisticsOf(a: Analysis): Result<Stats, string>
  {
    match a.wdl
    case Failure(m) => Failure(m)
    case Success(wdl) =>
      match a.topMoves
      case Failure(m) => Failure(m)
      case Success(top) =>
        match Translated(top, a.squares)
        case Failure(m) => Failure(m)
        case Success(tops) =>
          match a.bestMove
          case None => Failure(NoneNotSubscriptable)
          case Some(best) =>
            match PieceFromPosition(best, a.squares)
            case Failure(m) => Failure(m)
            case Success(described) => Success(Stats(wdl, tops, described))
  }

  /** The statistics dictionary, built value by value; the first exception ends it. */
  method CollectStatistics(a: Analysis) returns (r: Result<Stats, string>)
    ensures r == StatisticsOf(a)
  {
    if a.wdl.Failure? {
      return Failure(a.wdl.error);
    }
    if a.topMoves.Failure? {
      return Failure(a.topMoves.error);
    }
    var tops := TranslateTopMoves(a.topMoves.value, a.squares);
    if tops.Failure? {
      return Failure(tops.error);
    }
    if a.bestMove.None? {
      return Failure(NoneNotSubscriptable);
    }
    var best := PieceFromPosition(a.bestMove.value, a.squares);
    if best.Failure? {
      return Failure(best.error);
    }
    return Success(Stats(a.wdl.value, tops.value, best.value));
  }

  /** The overlay `draw` after the statistics: the circles around `best_move[:2]` and `best_move[2:]`, or the lookup's exception. */
  function OverlayOf(best: Option<string>, whiteOnMove: bool): Result<(Overlay.Box, Overlay.Box), string>
  {
    match best
    case None => Failure(NoneNotSubscriptable)
    case Some(m) => Overlay.Draw(Prefix(m, 2), Suffix(m, 2), whiteOnMove)
  }

  /** The mailbox traffic of the engine block after move number `counter`. */
  function AnalysisSends(qs: Mailboxes.Queues<Item>, counter: int, whiteOnMove: bool, reply: Result<Analysis, string>): (r: Mailboxes.Queues<Item>)
    requires TopicsReady(qs)
    ensures TopicsReady(r) && r[ImageTopic] == qs[ImageTopic]
  {
    match reply
    case Failure(m) => LogError(qs, m)
    case Success(a) =>
      var q1 := Mailboxes.Sent(qs, EvaluationTopic, Evaluation(a.evaluation));
      if counter % 2 == 0 then
        match StatisticsOf(a)
        case Failure(m) => LogError(q1, m)
        case Success(stats) =>
          var q2 := Mailboxes.Sent(q1, MovesTopic, Statistics(stats));
          match OverlayOf(a.bestMove, whiteOnMove)
          case Failure(m) => LogError(q2, m)
          case Success(_) => q2
      else q1
  }

  /** The state after a recognition of `current`: the play colour is fixed on the first call. */
  function AfterRecognition(s: EngineState, current: string): EngineState
  {
    var s1 := s.(currentFen := current);
    var s2 := if s.firstMove then ColorDetected(s1, DetectPlayColor(current)) else s1;
    s2.(firstMove := false)
  }

  function ColorDetected(s: EngineState, color: PlayColor): EngineState
  {
    s.(playColor := color, movesCounter := if color == White then 0 else -1, whiteOnMove := color == White)
  }

  /** The rest of `calculate` once `currentFen` is known. */
  function Decided(s: EngineState, qs: Mailboxes.Queues<Item>, reply: Result<Analysis, string>): (r: (EngineState, Mailboxes.Queues<Item>))
    requires TopicsReady(qs)
    ensures TopicsReady(r.1) && r.1[ImageTopic] == qs[ImageTopic]
  {
    if s.previousFen == "" then (s.(previousFen := s.currentFen), qs)
    else DecidedWith(s, qs, reply, DecodeFens(s.previousFen, s.currentFen, s.whiteOnMove))
  }

  /** The step after the decoder answered `d`: the logged failure, or the counted and analysed move. */
  function DecidedWith(s: EngineState, qs: Mailboxes.Queues<Item>, reply: Result<Analysis, string>, d: Result<string, Board.DecodeError>): (r: (EngineState, Mailboxes.Queues<Item>))
    requires TopicsReady(qs)
    ensures TopicsReady(r.1) && r.1[ImageTopic] == qs[ImageTopic]
  {
    match d
    case Failure(e) =>
      var msg := Board.Message(e);
      (s, if msg != "" then LogError(qs, "Invalid move: " + msg) else qs)
    case Success(move) =>
      var counter := s.movesCounter + 1;
      (s.(movesCounter := counter, correctMoves := s.correctMoves + [move], previousFen := s.currentFen),
       AnalysisSends(qs, counter, s.whiteOnMove, reply))
  }

  /** The image `calculate` works on, and the mailboxes after fetching it. */
  function Fetched(s: EngineState, qs: Mailboxes.Queues<Item>): (r: (Image, Mailboxes.Queues<Item>))
    requires CanCalculate(s, qs) && (s.firstMove || |qs[ImageTopic]| > 0)
    ensures TopicsReady(r.1)
  {
    if s.firstMove then (s.currentImg.value, qs)
    else (qs[ImageTopic][0].image, Mailboxes.Received(qs, ImageTopic).1)
  }

  /** One `calculate` call. */
  function CalculateSpec(s: EngineState, qs: Mailboxes.Queues<Item>, recognize: Image -> string, reply: Result<Analysis, string>): (r: (EngineState, Mailboxes.Queues<Item>))
    requires CanCalculate(s, qs)
    ensures TopicsReady(r.1)
  {
    if !s.firstMove && |qs[ImageTopic]| == 0 then (s, qs)
    else
      var (image, qs1) := Fetched(s, qs);
      Decided(AfterRecognition(s, StripSpaces(recognize(image))), qs1, reply)
  }

  /** One `scan` call with screenshot `shot`; `differs` stands for a non-zero mean squared error. */
  function ScanSpec(s: EngineState, qs: Mailboxes.Queues<Item>, shot: Image, differs: (Image, Image) -> bool): (EngineState, Mailboxes.Queues<Item>)
    requires ImageTopic in qs
  {
    var prev := if s.prevImg.None? then shot else s.prevImg.value;
    (s.(currentImg := Some(shot), prevImg := Some(shot)),
     if differs(prev, shot) then Mailboxes.Sent(qs, ImageTopic, Frame(shot)) else qs)
  }

  /** `start_scaning`: refuses without board coordinates, otherwise takes the first screenshot and resets the game. */
  function StartSpec(s: EngineState, qs: Mailboxes.Queues<Item>, coords: Option<seq<int>>, shot: Image): (EngineState, Mailboxes.Queues<Item>)
    requires LogTopic in qs
  {
    if coords.None? || |coords.value| == 0 then
      (s, LogError(qs, "Get board coordinates first"))
    else
      (s.(currentImg := Some(shot), previousFen := "", currentFen := "", firstMove := true, threadsStarted := true),
       Mailboxes.Sent(qs, LogTopic, Log(Mailboxes.Message("Started scanning board", Mailboxes.Success))))
  }

  /** `stop_scaning_thread`: both messages are logged at error level. */
  function StopSpec(s: EngineState, qs: Mailboxes.Queues<Item>): Mailboxes.Queues<Item>
    requires LogTopic in qs
  {
    if !s.threadsStarted then LogError(qs, "You have to start scanning first")
    else LogError(qs, "Stopped scanning board")
  }

  // ----- properties of the steps -----

  /** A later call with nothing in the image mailbox changes nothing. */
  lemma IdleWithoutImage(s: EngineState, qs: Mailboxes.Queues<Item>, recognize: Image -> string, reply: Result<Analysis, string>)
    requires CanCalculate(s, qs) && !s.firstMove && |qs[ImageTopic]| == 0
    ensures CalculateSpec(s, qs, recognize, reply) == (s, qs)
  {
  }

  /**
   * The first call recognizes the initial screenshot, fixes the play colour
   * and the side to move, and clears the first-move flag; the move counter
   * starts at 0 for white and -1 for black and counts the moves decoded since.
   */
  lemma FirstCall(s: EngineState, qs: Mailboxes.Queues<Item>, recognize: Image -> string, reply: Result<Analysis, string>)
    requires CanCalculate(s, qs) && s.firstMove
    ensures var s' := CalculateSpec(s, qs, recognize, reply).0;
      s'.currentFen == StripSpaces(recognize(s.currentImg.value))
      && s'.playColor == DetectPlayColor(s'.currentFen)
      && s'.whiteOnMove == (s'.playColor == White)
      && !s'.firstMove
      && s'.movesCounter == (if s'.playColor == White then 0 else -1) + (|s'.correctMoves| - |s.correctMoves|)
  {
    var current := StripSpaces(recognize(s.currentImg.value));
    assert Fetched(s, qs) == (s.currentImg.value, qs);
    var s1 := AfterRecognition(s, current);
    assert s1.currentFen == current && s1.playColor == DetectPlayColor(current) && !s1.firstMove;
    assert s1.whiteOnMove == (s1.playColor == White) && s1.movesCounter == (if s1.playColor == White then 0 else -1);
    assert CalculateSpec(s, qs, recognize, reply) == Decided(s1, qs, reply);
    DecidedCounts(s1, qs, reply);
  }

  /** Deciding keeps the recognition's fields, and the counter grows with the recorded moves. */
  lemma DecidedCounts(s: EngineState, qs: Mailboxes.Queues<Item>, reply: Result<Analysis, string>)
    requires TopicsReady(qs)
    ensures var s' := Decided(s, qs, reply).0;
      s'.currentFen == s.currentFen && s'.playColor == s.playColor && s'.whiteOnMove == s.whiteOnMove
      && s'.firstMove == s.firstMove && s'.movesCounter - s.movesCounter == |s'.correctMoves| - |s.correctMoves|
  {
  }

  /** With no baseline yet, the recognized placement becomes the baseline and no move is produced. */
  lemma BaselineSet(s: EngineState, qs: Mailboxes.Queues<Item>, recognize: Image -> string, reply: Result<Analysis, string>)
    requires CanCalculate(s, qs) && (s.firstMove || |qs[ImageTopic]| > 0) && s.previousFen == ""
    ensures var (s', qs') := CalculateSpec(s, qs, recognize, reply);
      s'.previousFen == s'.currentFen && s'.correctMoves == s.correctMoves && qs' == Fetched(s, qs).1
  {
  }

  /**
   * A placement pair that does not decode leaves the baseline, the moves and
   * the counter as they were; the log gets "Invalid move: ..." exactly when
   * the exception has a message, so a bare InvalidMove is silent.
   */
  lemma DecodeFailureKeeps(s: EngineState, qs: Mailboxes.Queues<Item>, recognize: Image -> string, reply: Result<Analysis, string>)
    requires CanCalculate(s, qs) && (s.firstMove || |qs[ImageTopic]| > 0) && s.previousFen != ""
    requires var r := AfterRecognition(s, StripSpaces(recognize(Fetched(s, qs).0)));
      DecodeFens(r.previousFen, r.currentFen, r.whiteOnMove).Failure?
    ensures var r := AfterRecognition(s, StripSpaces(recognize(Fetched(s, qs).0)));
      var e := DecodeFens(r.previousFen, r.currentFen, r.whiteOnMove).error;
      var (s', qs') := CalculateSpec(s, qs, recognize, reply);
      var qs1 := Fetched(s, qs).1;
      s'.previousFen == s.previousFen && s'.correctMoves == s.correctMoves && s'.movesCounter == r.movesCounter
      && (Board.Message(e) == "" ==> qs' == qs1)
      && (Board.Message(e) != "" ==> qs'[LogTopic] == qs1[LogTopic] + [Log(Mailboxes.Message("Invalid move: " + Board.Message(e), Mailboxes.Error))])
      && (e == Board.InvalidMove ==> qs' == qs1)
  {
  }

  /**
   * A decoded move is counted and recorded, and the baseline advances,
   * whatever the chess engine does; the statistics reach the moves mailbox
   * only after an even-numbered move and only when the engine block succeeds.
   */
  lemma MoveDecoded(s: EngineState, qs: Mailboxes.Queues<Item>, recognize: Image -> string, reply: Result<Analysis, string>)
    requires CanCalculate(s, qs) && (s.firstMove || |qs[ImageTopic]| > 0) && s.previousFen != ""
    requires var r := AfterRecognition(s, StripSpaces(recognize(Fetched(s, qs).0)));
      DecodeFens(r.previousFen, r.currentFen, r.whiteOnMove).Success?
    ensures var r := AfterRecognition(s, StripSpaces(recognize(Fetched(s, qs).0)));
      var move := DecodeFens(r.previousFen, r.currentFen, r.whiteOnMove).value;
      var (s', qs') := CalculateSpec(s, qs, recognize, reply);
      var qs1 := Fetched(s, qs).1;
      s'.correctMoves == s.correctMoves + [move] && s'.previousFen == s'.currentFen && s'.movesCounter == r.movesCounter + 1
      && (|qs'[MovesTopic]| > |qs1[MovesTopic]| <==>
           reply.Success? && s'.movesCounter % 2 == 0 && StatisticsOf(reply.value).Success?)
  {
    var r := AfterRecognition(s, StripSpaces(recognize(Fetched(s, qs).0)));
    var qs1 := Fetched(s, qs).1;
    var d := DecodeFens(r.previousFen, r.currentFen, r.whiteOnMove);
    assert CalculateSpec(s, qs, recognize, reply) == DecidedWith(r, qs1, reply, d);
    DecidedWithMove(r, qs1, reply, d);
  }

  /** A decoded move is counted and recorded, and the statistics reach the moves mailbox as `AnalysisSends` says. */
  lemma DecidedWithMove(s: EngineState, qs: Mailboxes.Queues<Item>, reply: Result<Analysis, string>, d: Result<string, Board.DecodeError>)
    requires TopicsReady(qs) && d.Success?
    ensures var (s', qs') := DecidedWith(s, qs, reply, d);
      s'.correctMoves == s.correctMoves + [d.value] && s'.previousFen == s.currentFen && s'.currentFen == s.currentFen
      && s'.movesCounter == s.movesCounter + 1
      && (|qs'[MovesTopic]| > |qs[MovesTopic]| <==>
           reply.Success? && s'.movesCounter % 2 == 0 && StatisticsOf(reply.value).Success?)
  {
    AnalysisMovesTraffic(qs, s.movesCounter + 1, s.whiteOnMove, reply);
  }

  lemma AnalysisMovesTraffic(qs: Mailboxes.Queues<Item>, counter: int, whiteOnMove: bool, reply: Result<Analysis, string>)
    requires TopicsReady(qs)
    ensures var qs' := AnalysisSends(qs, counter, whiteOnMove, reply);
      MovesTopic in qs' && (|qs'[MovesTopic]| > |qs[MovesTopic]| <==> reply.Success? && counter % 2 == 0 && StatisticsOf(reply.value).Success?)
  {
  }

  /**
   * The evaluation is sent before any statistics call is made: a reply that
   * got that far always reaches the evaluation mailbox, and on an
   * even-numbered move an exception from the win/draw/loss figures, the top
   * lines or a missing best move is logged after it, with nothing sent to the
   * moves mailbox. After an odd-numbered move nothing else is sent.
   */
  lemma EvaluationSentFirst(qs: Mailboxes.Queues<Item>, counter: int, whiteOnMove: bool, a: Analysis)
    requires TopicsReady(qs)
    ensures var qs' := AnalysisSends(qs, counter, whiteOnMove, Success(a));
      qs'[EvaluationTopic] == qs[EvaluationTopic] + [Evaluation(a.evaluation)]
      && (counter % 2 != 0 ==> qs'[LogTopic] == qs[LogTopic] && qs'[MovesTopic] == qs[MovesTopic])
      && (counter % 2 == 0 && StatisticsOf(a).Failure? ==>
            qs'[LogTopic] == qs[LogTopic] + [Log(Mailboxes.Message(StatisticsOf(a).error, Mailboxes.Error))]
            && qs'[MovesTopic] == qs[MovesTopic])
  {
  }

  /** No best move, and the figures and top lines are fine: an even-numbered move logs the TypeError of slicing None, an odd one nothing. */
  lemma NoBestMove(qs: Mailboxes.Queues<Item>, counter: int, whiteOnMove: bool, a: Analysis)
    requires TopicsReady(qs) && a.bestMove.None? && a.wdl.Success? && a.topMoves.Success?
    requires Translated(a.topMoves.value, a.squares).Success?
    ensures var qs' := AnalysisSends(qs, counter, whiteOnMove, Success(a));
      qs'[LogTopic] == qs[LogTopic] + (if counter % 2 == 0 then [Log(Mailboxes.Message(NoneNotSubscriptable, Mailboxes.Error))] else [])
  {
  }

  /**
   * The overlay of an engine move "e2e4", or "e7e8q" with a promotion suffix:
   * the suffix is ignored, and the two circles are those of the two squares.
   */
  lemma {:induction false} EngineMoveOverlay(from: Board.Square, to: Board.Square, promotion: string, whiteOnMove: bool)
    requires Board.OnBoard(from) && Board.OnBoard(to)
    ensures var a := Overlay.CircleCell(Board.SquareName(from), whiteOnMove);
      var b := Overlay.CircleCell(Board.SquareName(to), whiteOnMove);
      a.Success? && b.Success?
      && OverlayOf(Some(Board.SquareName(from) + Board.SquareName(to) + promotion), whiteOnMove)
         == Success((Overlay.CellBox(a.value), Overlay.CellBox(b.value)))
  {
    var f := Board.SquareName(from);
    var t := Board.SquareName(to);
    Board.SquareNameOnBoard(from);
    Board.SquareNameOnBoard(to);
    Overlay.CellOfSquare(from, whiteOnMove);
    Overlay.CellOfSquare(to, whiteOnMove);
    var m := f + t + promotion;
    assert Prefix(m, 2) == f;
    assert Suffix(m, 2) == t + promotion;
    assert Overlay.CircleCell(t + promotion, whiteOnMove) == Overlay.CircleCell(t, whiteOnMove) by {
      assert (t + promotion)[0] == t[0] && (t + promotion)[1] == t[1];
    }
  }

  /** A scan publishes the screenshot iff it differs from the previous one, and remembers it either way. */
  lemma ScanPublishesChanges(s: EngineState, qs: Mailboxes.Queues<Item>, shot: Image, differs: (Image, Image) -> bool)
    requires ImageTopic in qs && s.prevImg.Some?
    ensures var (s', qs') := ScanSpec(s, qs, shot, differs);
      s'.prevImg == Some(shot)
      && (differs(s.prevImg.value, shot) ==> qs'[ImageTopic] == qs[ImageTopic] + [Frame(shot)])
      && (!differs(s.prevImg.value, shot) ==> qs' == qs)
  {
  }

  /** The very first scan compares the screenshot with itself and publishes nothing. */
  lemma FirstScanSilent(s: EngineState, qs: Mailboxes.Queues<Item>, shot: Image, differs: (Image, Image) -> bool)
    requires ImageTopic in qs && s.prevImg.None?
    requires forall x :: !differs(x, x)
    ensures ScanSpec(s, qs, shot, differs).1 == qs
  {
  }

  /** Scanning keeps the image mailbox free of anything but screenshots. */
  lemma ScanKeepsFramesOnly(s: EngineState, qs: Mailboxes.Queues<Item>, shot: Image, differs: (Image, Image) -> bool)
    requires FramesOnly(qs)
    ensures FramesOnly(ScanSpec(s, qs, shot, differs).1)
  {
  }

  /** Without coordinates nothing but the error line changes; with them the game restarts from the first move. */
  lemma StartGuard(s: EngineState, qs: Mailboxes.Queues<Item>, coords: Option<seq<int>>, shot: Image)
    requires LogTopic in qs
    ensures var (s', qs') := StartSpec(s, qs, coords, shot);
      LogTopic in qs'
      && ((coords.None? || |coords.value| == 0) ==> s' == s && qs'[LogTopic] == qs[LogTopic] + [Log(Mailboxes.Message("Get board coordinates first", Mailboxes.Error))])
      && ((coords.Some? && |coords.value| > 0) ==> s'.firstMove && s'.previousFen == "" && s'.currentImg == Some(shot) && s'.threadsStarted)
  {
  }

  // ----- the engine object -----

  class Engine {
    var playColor: PlayColor
    var prevImg: Option<Image>
    var currentImg: Option<Image>
    var correctMoves: seq<string>
    var previousFen: string
    var currentFen: string
    var firstMove: bool
    var movesCounter: int
    var whiteOnMove: bool
    var threadsStarted: bool
    const mail: Mailboxes.Registry<Item>

    function State(): EngineState
      reads this
    {
      EngineState(playColor, prevImg, currentImg, correctMoves, previousFen, currentFen, firstMove, movesCounter, whiteOnMove, threadsStarted)
    }

    /** `Engine.__init__`; the move counter and side to move are only read after the first call sets them. */
    constructor(mail: Mailboxes.Registry<Item>)
      ensures State() == EngineState(White, None, None, [], "", "", true, 0, true, false)
      ensures this.mail == mail
    {
      playColor := White;
      prevImg := None;
      currentImg := None;
      correctMoves := [];
      previousFen := "";
      currentFen := "";
      firstMove := true;
      movesCounter := 0;
      whiteOnMove := true;
      threadsStarted := false;
      this.mail := mail;
    }

    /** `calculate`. */
    method Calculate(recognize: Image -> string, reply: Result<Analysis, string>)
      requires CanCalculate(State(), mail.queues)
      modifies this, mail
      ensures (State(), mail.queues) == CalculateSpec(old(State()), old(mail.queues), recognize, reply)
    {
      var image: Image;
      if firstMove {
        image := currentImg.value;
      } else {
        var item := mail.Recv(ImageTopic);
        if item.None? {
          return;
        }
        image := item.value.image;
      }
      Recognize(StripSpaces(recognize(image)));
      DecideMove(reply);
    }

    /** The recognition part of `calculate`: the new placement, and the play colour on the first call. */
    method Recognize(current: string)
      modifies this
      ensures State() == AfterRecognition(old(State()), current)
    {
      currentFen := current;
      if firstMove {
        playColor := DetectPlayColor(currentFen);
        movesCounter := if playColor == White then 0 else -1;
        whiteOnMove := playColor == White;
      }
      firstMove := false;
    }

    /** The decoding part of `calculate`: the baseline, the decoded move or the logged failure. */
    method DecideMove(reply: Result<Analysis, string>)
      requires TopicsReady(mail.queues)
      modifies this, mail
      ensures (State(), mail.queues) == Decided(old(State()), old(mail.queues), reply)
    {
      if previousFen == "" {
        previousFen := currentFen;
        return;
      }
      var decoded := Decode(previousFen, currentFen, whiteOnMove);
      Answered(decoded, reply);
    }

    /** What follows the decoder's answer `d`. */
    method Answered(d: Result<string, Board.DecodeError>, reply: Result<Analysis, string>)
      requires TopicsReady(mail.queues)
      modifies this, mail
      ensures (State(), mail.queues) == DecidedWith(old(State()), old(mail.queues), reply, d)
    {
      if d.Failure? {
        var msg := Board.Message(d.error);
        if msg != "" {
          mail.Send(LogTopic, Log(Mailboxes.Message("Invalid move: " + msg, Mailboxes.Error)));
        }
        return;
      }
      RecordMove(d.value, reply);
    }

    /** A decoded move: counted, analysed, recorded, and its placement made the baseline. */
    method RecordMove(move: string, reply: Result<Analysis, string>)
      requires TopicsReady(mail.queues)
      modifies this, mail
      ensures State() == old(State()).(movesCounter := old(movesCounter) + 1, correctMoves := old(correctMoves) + [move], previousFen := old(currentFen))
      ensures mail.queues == AnalysisSends(old(mail.queues), old(movesCounter) + 1, whiteOnMove, reply)
    {
      movesCounter := movesCounter + 1;
      SendAnalysis(reply);
      correctMoves := correctMoves + [move];
      previousFen := currentFen;
    }

    /** The engine block of `calculate`, with every exception turned into an error line. */
    method SendAnalysis(reply: Result<Analysis, string>)
      requires TopicsReady(mail.queues)
      modifies mail
      ensures mail.queues == AnalysisSends(old(mail.queues), movesCounter, whiteOnMove, reply)
    {
      match reply
      case Failure(m) =>
        mail.Send(LogTopic, Log(Mailboxes.Message(m, Mailboxes.Error)));
      case Success(a) =>
        mail.Send(EvaluationTopic, Evaluation(a.evaluation));
        if movesCounter % 2 == 0 {
          var stats := CollectStatistics(a);
          if stats.Failure? {
            mail.Send(LogTopic, Log(Mailboxes.Message(stats.error, Mailboxes.Error)));
            return;
          }
          mail.Send(MovesTopic, Statistics(stats.value));
          var drawn := OverlayOf(a.bestMove, whiteOnMove);
          if drawn.Failure? {
            mail.Send(LogTopic, Log(Mailboxes.Message(drawn.error, Mailboxes.Error)));
          }
        }
    }


    /** `scan`, given the screenshot and the pixel-difference test. */
    method Scan(shot: Image, differs: (Image, Image) -> bool)
      requires ImageTopic in mail.queues
      modifies this, mail
      ensures (State(), mail.queues) == ScanSpec(old(State()), old(mail.queues), shot, differs)
    {
      currentImg := Some(shot);
      if prevImg.None? {
        prevImg := currentImg;
      }
      if differs(prevImg.value, currentImg.value) {
        mail.Send(ImageTopic, Frame(shot));
      }
      prevImg := currentImg;
    }

    /** `start_scaning`, given the board coordinates and the initial screenshot. */
    method StartScanning(coords: Option<seq<int>>, shot: Image)
      requires LogTopic in mail.queues
      modifies this, mail
      ensures (State(), mail.queues) == StartSpec(old(State()), old(mail.queues), coords, shot)
    {
      if coords.None? || |coords.value| == 0 {
        mail.Send(LogTopic, Log(Mailboxes.Message("Get board coordinates first", Mailboxes.Error)));
        return;
      }
      mail.Send(LogTopic, Log(Mailboxes.Message("Started scanning board", Mailboxes.Success)));
      currentImg := Some(shot);
      previousFen := "";
      currentFen := "";
      firstMove := true;
      threadsStarted := true;
    }

    /** `stop_scaning_thread`. */
    method StopScanning()
      requires LogTopic in mail.queues
      modifies mail
      ensures mail.queues == StopSpec(State(), old(mail.queues))
    {
      if !threadsStarted {
        mail.Send(LogTopic, Log(Mailboxes.Message("You have to start scanning first", Mailboxes.Error)));
        return;
      }
      mail.Send(LogTopic, Log(Mailboxes.Message("Stopped scanning board", Mailboxes.Error)));
    }
  }

  /** The decoding call inside `calculate`, through the decoder's own loops. */
  method Decode(previous: string, current: string, whiteOnMove: bool) returns (r: Result<string, Board.DecodeError>)
    ensures r == DecodeFens(previous, current, whiteOnMove)
  {
    var b1 := Board.FenToList(previous);
    if b1.Failure? {
      return Failure(b1.error);
    }
    var b2 := Board.FenToList(current);
    if b2.Failure? {
      return Failure(b2.error);
    }
    r := Board.GetDiffMove(b1.value, b2.value, whiteOnMove);
  }
}
