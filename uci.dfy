/**
 * The chess-engine client speaking the UCI line protocol to a child process.
 * The process is the in-memory stand-in the client is tested against: a
 * queue of lines to read, the lines written so far, and whether it runs.
 * Reading one line pops the queue (and panics when it is empty); collecting
 * the lines up to a pattern looks at the queue without consuming it.
 * A panic is a `Fail`/`Failure` carrying the panic message, with the state
 * reached when it happened.
 */
module Uci {
  import opened Wrappers
  import opened Text
  import Numeric

  datatype Proc = Proc(toRead: seq<string>, written: seq<string>, running: bool)

  /** The client's fields, the process included. */
  datatype Sf = Sf(proc: Proc, parameters: map<string, string>, depth: Numeric.u8, info: string, quitSent: bool, version: string)

  const UnwrapNone: string := "called `Option::unwrap()` on a `None` value"
  const ExplicitPanic: string := "explicit panic"
  const UnknownOption: string := "TODO!"

  function InvalidMoveMessage(m: string): string
  {
    "Move '" + m + "' is not a valid move for current position or engine state."
  }

  /** Whether `_put` writes at all: the process runs, or "quit" was already sent. */
  predicate Live(s: Sf)
  {
    s.proc.running || s.quitSent
  }

  /** A line is blank when it has no whitespace-separated token. */
  predicate Blank(line: string)
  {
    Words(line, RustIsWhitespace) == []
  }

  /** What every exchange below keeps: the option table and the other settings, liveness, and the lines written so far. */
  predicate Steps(s: Sf, s': Sf)
  {
    s'.parameters == s.parameters && s'.depth == s.depth && s'.version == s.version
    && s'.proc.running == s.proc.running && (Live(s) ==> Live(s')) && s.proc.written <= s'.proc.written
  }

  // ----- the process operations -----

  /** `_put`: the command is written unless the process stopped before any "quit"; "quit" sets `quit_sent`. */
  function PutSpec(s: Sf, cmd: string): (r: Sf)
    ensures r.proc.written == s.proc.written + (if Live(s) then [cmd] else [])
    ensures r.quitSent == (s.quitSent || (Live(s) && cmd == "quit"))
    ensures r.proc.toRead == s.proc.toRead && r.proc.running == s.proc.running
    ensures r.parameters == s.parameters && r.info == s.info && r.depth == s.depth && r.version == s.version
  {
    if !s.proc.running && !s.quitSent then s
    else
      var s1 := s.(proc := s.proc.(written := s.proc.written + [cmd]));
      if cmd == "quit" then s1.(quitSent := true) else s1
  }

  /** `read_line`: the oldest waiting line, which leaves the queue. */
  function ReadLineSpec(s: Sf): (r: (Result<string, string>, Sf))
    ensures r.0.Success? <==> |s.proc.toRead| > 0
    ensures r.0.Success? ==>
      [r.0.value] + r.1.proc.toRead == s.proc.toRead && r.1 == s.(proc := r.1.proc)
      && r.1.proc.written == s.proc.written && r.1.proc.running == s.proc.running
    ensures r.0.Failure? ==> r.0.error == UnwrapNone && r.1 == s
  {
    if |s.proc.toRead| == 0 then (Failure(UnwrapNone), s)
    else (Success(s.proc.toRead[0]), s.(proc := s.proc.(toRead := s.proc.toRead[1..])))
  }

  /** `lines`: the waiting lines up to and including the first that contains `pattern`, or all of them. */
  function LinesUntil(lines: seq<string>, pattern: string): (r: seq<string>)
    ensures r <= lines
    ensures forall i :: 0 <= i < |r| - 1 ==> !Contains(r[i], pattern)
    ensures |r| < |lines| ==> |r| > 0 && Contains(r[|r| - 1], pattern)
  {
    if lines == [] then []
    else if Contains(lines[0], pattern) then [lines[0]]
    else [lines[0]] + LinesUntil(lines[1..], pattern)
  }

  /** `desired_line`: the last of those lines. */
  function DesiredLine(s: Sf, pattern: string): Result<string, string>
  {
    var lines := LinesUntil(s.proc.toRead, pattern);
    if lines == [] then Failure(UnwrapNone) else Success(lines[|lines| - 1])
  }

  /** The reading loop of `is_ready`: lines are read and dropped until "readyok". */
  function AwaitReady(s: Sf): (r: (Outcome<string>, Sf))
    ensures Steps(s, r.1) && r.1.proc.written == s.proc.written && r.1.info == s.info && r.1.quitSent == s.quitSent
    ensures r.0.Fail? ==> r.0.error == UnwrapNone
    decreases |s.proc.toRead|
  {
    if |s.proc.toRead| == 0 then (Fail(UnwrapNone), s)
    else
      var s1 := s.(proc := s.proc.(toRead := s.proc.toRead[1..]));
      if s.proc.toRead[0] == "readyok" then (Pass, s1) else AwaitReady(s1)
  }

  function IsReadySpec(s: Sf): (r: (Outcome<string>, Sf))
    ensures Steps(s, r.1) && r.1.info == s.info
    ensures r.0.Fail? ==> r.0.error == UnwrapNone
  {
    AwaitReady(PutSpec(s, "isready"))
  }

  function PrepareSpec(s: Sf, sendToken: bool): (r: (Outcome<string>, Sf))
    ensures Steps(s, r.1)
    ensures r.0.Fail? ==> r.0.error == UnwrapNone
  {
    var s1 := if sendToken then PutSpec(s, "ucinewgame") else s;
    match IsReadySpec(s1)
    case (Fail(m), s2) => (Fail(m), s2)
    case (Pass, s2) => (Pass, s2.(info := ""))
  }

  lemma ContainsLength(s: string, pattern: string)
    requires Contains(s, pattern)
    ensures |s| >= |pattern|
  {
  }

  /** `get_fen_position`: "d", then the text from byte 5 of the trimmed line with "Fen", which must contain "Fen: ". */
  function GetFenSpec(s: Sf): (r: (Result<string, string>, Sf))
    ensures Steps(s, r.1) && r.1.info == s.info
    ensures r.0.Failure? ==> r.0.error in {UnwrapNone, ExplicitPanic}
  {
    var s1 := PutSpec(s, "d");
    match DesiredLine(s1, "Fen")
    case Failure(m) => (Failure(m), s1)
    case Success(binding) =>
      var line := TrimEnds(binding, RustIsWhitespace);
      if Contains(line, "Fen: ") then
        ContainsLength(line, "Fen: ");
        (Success(line[5..]), s1)
      else (Failure(ExplicitPanic), s1)
  }

  function SetFenSpec(s: Sf, fen: string, token: bool): (r: (Outcome<string>, Sf))
    ensures Steps(s, r.1)
    ensures r.0.Fail? ==> r.0.error == UnwrapNone
  {
    match PrepareSpec(s, token)
    case (Fail(m), s1) => (Fail(m), s1)
    case (Pass, s1) => (Pass, PutSpec(s1, "position fen " + fen))
  }

  /** The argument of a "bestmove" line: None for "(none)" or a missing argument. */
  function BestmoveArgument(words: seq<string>): Option<string>
  {
    if |words| > 1 && words[1] == "(none)" then None
    else if |words| > 1 then Some(words[1])
    else None
  }

  predicate IsBestmove(line: string)
  {
    var w := Words(line, RustIsWhitespace);
    |w| > 0 && w[0] == "bestmove"
  }

  /** The loop of `get_move_from_proc` over the collected lines: the move and the new `info`. */
  function MoveScan(lines: seq<string>, lastText: string, info: string): (Option<string>, string)
  {
    if lines == [] then (None, info)
    else
      var w := Words(lines[0], RustIsWhitespace);
      if w == [] then MoveScan(lines[1..], lastText, info)
      else if w[0] == "bestmove" then (BestmoveArgument(w), lastText)
      else MoveScan(lines[1..], lines[0], info)
  }

  function GetMoveSpec(s: Sf): (r: (Option<string>, Sf))
    ensures Steps(s, r.1) && r.1.proc == s.proc
  {
    var (r, info) := MoveScan(LinesUntil(s.proc.toRead, "bestmove"), "", s.info);
    (r, s.(info := info))
  }

  function IsCorrectMoveSpec(s: Sf, m: string): (r: (bool, Sf))
    ensures Steps(s, r.1) && r.1.info == s.info
  {
    var s1 := PutSpec(s, "go depth 1 searchmoves " + m);
    var (r, s2) := GetMoveSpec(s1);
    (r.Some?, s2.(info := s.info))
  }

  function GoSpec(s: Sf): Sf
  {
    PutSpec(s, "go depth " + NatToString(s.depth))
  }

  function GetBestMoveSpec(s: Sf): (Option<string>, Sf)
  {
    GetMoveSpec(GoSpec(s))
  }

  /** The state after one accepted move, before the remaining ones. */
  function AfterMove(s: Sf, m: string): Sf
    requires GetFenSpec(IsCorrectMoveSpec(s, m).1).0.Success?
  {
    var fen := GetFenSpec(IsCorrectMoveSpec(s, m).1);
    PutSpec(fen.1, "position fen " + fen.0.value + " moves " + m)
  }

  /** The loop of `make_move`: each move is checked, then played from the reported position. */
  function PlayMoves(s: Sf, moves: seq<string>): (r: (Outcome<string>, Sf))
    ensures Steps(s, r.1)
    decreases |moves|
  {
    if moves == [] then (Pass, s)
    else
      var checked := IsCorrectMoveSpec(s, moves[0]);
      if !checked.0 then (Fail(InvalidMoveMessage(moves[0])), checked.1)
      else
        var fen := GetFenSpec(checked.1);
        if fen.0.Failure? then (Fail(fen.0.error), fen.1)
        else PlayMoves(AfterMove(s, moves[0]), moves[1..])
  }

  function MakeMoveSpec(s: Sf, moves: seq<string>): (Outcome<string>, Sf)
  {
    if moves == [] then (Pass, s)
    else
      match PrepareSpec(s, false)
      case (Fail(m), s1) => (Fail(m), s1)
      case (Pass, s1) => PlayMoves(s1, moves)
  }

  // ----- options -----

  /** `order` lists the keys of `m`, each once: the order the hash map is iterated in. */
  predicate Enumerates(order: seq<string>, m: map<string, string>)
  {
    (forall k :: k in m ==> k in order) && (forall k :: k in order ==> k in m) && (forall i, j :: 0 <= i < j < |order| ==> order[i] != order[j])
  }

  /** Exactly one of skill level and rating given without the strength switch: the switch is added to match. */
  function Augmented(p: map<string, string>): (r: map<string, string>)
  {
    if ("Skill Level" in p) != ("UCI_Elo" in p) && "UCI_LimitStrength" !in p then
      if "Skill Level" in p then p["UCI_LimitStrength" := "false"] else p["UCI_LimitStrength" := "true"]
    else p
  }

  /** Once options are known, every new key must be one of them. */
  predicate KeysKnown(parameters: map<string, string>, p: map<string, string>)
  {
    |parameters| == 0 || forall k :: k in p ==> k in parameters
  }

  /** One option written and recorded, before its handshake. */
  function SetOption(s: Sf, name: string, value: string): (r: Sf)
    ensures r.proc.written == s.proc.written + (if Live(s) then ["setoption name " + name + " value " + value] else [])
    ensures r.parameters == s.parameters[name := value] && r.proc.toRead == s.proc.toRead
    ensures r.depth == s.depth && r.version == s.version && r.proc.running == s.proc.running && (Live(s) ==> Live(r))
  {
    var s1 := PutSpec(s, "setoption name " + name + " value " + value);
    s1.(parameters := s1.parameters[name := value])
  }

  /** The setoption loop of `update_params`, in iteration order. */
  function ApplyOptions(s: Sf, p: map<string, string>, names: seq<string>): (r: (Outcome<string>, Sf))
    requires forall k :: k in names ==> k in p
    ensures r.1.depth == s.depth && r.1.version == s.version && r.1.proc.running == s.proc.running && (Live(s) ==> Live(r.1))
    ensures r.0.Fail? ==> r.0.error == UnwrapNone
    decreases |names|
  {
    if names == [] then (Pass, s)
    else
      var ready := IsReadySpec(SetOption(s, names[0], p[names[0]]));
      if ready.0.Fail? then ready else ApplyOptions(ready.1, p, names[1..])
  }

  /** `update_params`, with the hash map's iteration order as an input. */
  function UpdateParamsSpec(s: Sf, p: map<string, string>, order: seq<string>): (Outcome<string>, Sf)
    requires Enumerates(order, Augmented(p))
  {
    if !KeysKnown(s.parameters, p) then (Fail(UnknownOption), s)
    else
      match ApplyOptions(s, Augmented(p), order)
      case (Fail(m), s1) => (Fail(m), s1)
      case (Pass, s1) =>
        match GetFenSpec(s1)
        case (Failure(m), s2) => (Fail(m), s2)
        case (Success(pos), s2) => SetFenSpec(s2, pos, false)
  }

  /** The options `set_skill_level` sends, as written: note the lower-case "level". */
  function SkillOptions(level: nat): map<string, string>
  {
    map["UCI_LimitStrength" := "false", "Skill level" := NatToString(level)]
  }

  /** The options with the key `set_config` registers. */
  function SkillOptionsFixed(level: nat): map<string, string>
  {
    map["UCI_LimitStrength" := "false", "Skill Level" := NatToString(level)]
  }

  function EloOptions(rating: nat): map<string, string>
  {
    map["UCI_LimitStrength" := "true", "UCI_Elo" := NatToString(rating)]
  }

  /** The defaults `set_config` installs. */
  function ConfigOptions(elo: string, skill: string, hash: string, multiLines: string): map<string, string>
  {
    map["Debug Log File" := "", "Ponder" := "false", "Hash" := hash, "MultiPV" := multiLines,
        "Skill Level" := skill, "Move Overhead" := "10", "UCI_Chess960" := "false",
        "UCI_LimitStrength" := "true", "UCI_Elo" := elo, "UCI_ShowWDL" := "true"]
  }

  /** `new_with_process` after the fields are set: the version line, "uci", and one more line dropped. */
  function HandshakeSpec(s: Sf): (Outcome<string>, Sf)
  {
    match ReadLineSpec(s)
    case (Failure(m), s1) => (Fail(m), s1)
    case (Success(v), s1) =>
      var s2 := PutSpec(s1.(version := v), "uci");
      match ReadLineSpec(s2)
      case (Failure(m), s3) => (Fail(m), s3)
      case (Success(_), s3) => (Pass, s3)
  }

  function Fresh(p: Proc, depth: Numeric.u8): Sf
  {
    Sf(p, map[], depth, "", false, "")
  }

  function NewWithProcessSpec(p: Proc, depth: Numeric.u8): (Outcome<string>, Sf)
  {
    HandshakeSpec(Fresh(p, depth))
  }

  // ----- what the operations promise -----

  /** A stopped process that was never told to quit receives nothing. */
  lemma PutSilentWhenStopped(s: Sf, cmd: string)
    requires !s.proc.running && !s.quitSent
    ensures PutSpec(s, cmd) == s
  {
  }

  /** `_go` asks for a search to the configured depth. */
  lemma GoWritesDepth(s: Sf)
    requires Live(s)
    ensures GoSpec(s).proc.written == s.proc.written + ["go depth " + NatToString(s.depth)]
    ensures s.depth == 5 ==> GoSpec(s).proc.written[|s.proc.written|] == "go depth 5"
  {
  }

  /** Waiting for "readyok" succeeds iff it is queued, and consumes the queue through its first occurrence. */
  lemma {:induction false} AwaitReadyMeaning(s: Sf)
    ensures var (st, s') := AwaitReady(s);
      (st.Pass? <==> "readyok" in s.proc.toRead)
      && s'.proc.written == s.proc.written && s'.info == s.info && s'.parameters == s.parameters && s'.quitSent == s.quitSent
      && (st.Pass? ==> (exists k :: 0 <= k < |s.proc.toRead| && s.proc.toRead[k] == "readyok"
                                  && "readyok" !in s.proc.toRead[..k] && s'.proc.toRead == s.proc.toRead[k + 1..]))
      && (st.Fail? ==> st.error == UnwrapNone && s'.proc.toRead == [])
    decreases |s.proc.toRead|
  {
    if |s.proc.toRead| > 0 {
      var q := s.proc.toRead;
      var s1 := s.(proc := s.proc.(toRead := q[1..]));
      if q[0] == "readyok" {
        assert q[..0] == [];
      } else {
        AwaitReadyMeaning(s1);
        NotHeadIn(q, "readyok");
        if AwaitReady(s1).0.Pass? {
          var k :| 0 <= k < |q[1..]| && q[1..][k] == "readyok" && "readyok" !in q[1..][..k] && AwaitReady(s1).1.proc.toRead == q[1..][k + 1..];
          FirstAfterHead(q, "readyok", k);
        }
      }
    }
  }

  lemma NotHeadIn(q: seq<string>, x: string)
    requires |q| > 0 && q[0] != x
    ensures x in q <==> x in q[1..]
  {
    assert q == [q[0]] + q[1..];
  }

  /** A first occurrence in the tail, shifted by the head that is not it. */
  lemma FirstAfterHead(q: seq<string>, x: string, k: nat)
    requires |q| > 0 && q[0] != x && k < |q| - 1 && q[1..][k] == x && x !in q[1..][..k]
    ensures q[k + 1] == x && x !in q[..k + 1] && q[k + 2..] == q[1..][k + 1..]
  {
    assert q[..k + 1] == [q[0]] + q[1..][..k];
  }

  /**
   * Preparing for a new position writes "ucinewgame" only when asked, then
   * "isready"; it succeeds iff "readyok" is queued, and then clears `info`.
   */
  lemma PrepareMeaning(s: Sf, sendToken: bool)
    requires Live(s)
    ensures var (st, s') := PrepareSpec(s, sendToken);
      s'.proc.written == s.proc.written + (if sendToken then ["ucinewgame"] else []) + ["isready"]
      && (st.Pass? <==> "readyok" in s.proc.toRead)
      && (st.Pass? ==> s'.info == "")
  {
    var s1 := if sendToken then PutSpec(s, "ucinewgame") else s;
    AwaitReadyMeaning(PutSpec(s1, "isready"));
  }

  /** The position reported by "d": the trimmed "Fen" line from its sixth character on. */
  lemma GetFenMeaning(s: Sf)
    ensures var (r, s') := GetFenSpec(s);
      s'.proc.written == s.proc.written + (if Live(s) then ["d"] else [])
      && s'.proc.toRead == s.proc.toRead && s'.info == s.info && s'.parameters == s.parameters
      && (r.Success? <==> s.proc.toRead != [] && Contains(TrimEnds(Last(LinesUntil(s.proc.toRead, "Fen")), RustIsWhitespace), "Fen: "))
      && (r.Success? ==> r.value == TrimEnds(Last(LinesUntil(s.proc.toRead, "Fen")), RustIsWhitespace)[5..])
  {
    var s1 := PutSpec(s, "d");
    var lines := LinesUntil(s.proc.toRead, "Fen");
    assert DesiredLine(s1, "Fen") == if lines == [] then Failure(UnwrapNone) else Success(Last(lines));
    if s.proc.toRead != [] {
      assert lines != [];
      var line := TrimEnds(Last(lines), RustIsWhitespace);
      if Contains(line, "Fen: ") {
        ContainsLength(line, "Fen: ");
        assert GetFenSpec(s) == (Success(line[5..]), s1);
      } else {
        assert GetFenSpec(s) == (Failure(ExplicitPanic), s1);
      }
    } else {
      assert GetFenSpec(s) == (Failure(UnwrapNone), s1);
    }
  }

  function Last(lines: seq<string>): string
  {
    if lines == [] then "" else lines[|lines| - 1]
  }

  /** The index of the first "bestmove" line, if any. */
  function FirstBestmove(lines: seq<string>): (r: Option<nat>)
    ensures r.Some? ==> r.value < |lines| && IsBestmove(lines[r.value]) && forall j :: 0 <= j < r.value ==> !IsBestmove(lines[j])
    ensures r.None? ==> forall j :: 0 <= j < |lines| ==> !IsBestmove(lines[j])
  {
    if lines == [] then None
    else if IsBestmove(lines[0]) then Some(0)
    else match FirstBestmove(lines[1..])
      case None => None
      case Some(k) => Some(k + 1)
  }

  /** `text` is the last non-blank line of `lines`, or `default` when all of them are blank. */
  predicate LastNonBlank(lines: seq<string>, default: string, text: string)
  {
    (text == default && forall j :: 0 <= j < |lines| ==> Blank(lines[j]))
    || (exists j :: 0 <= j < |lines| && text == lines[j] && !Blank(lines[j])
          && forall j' :: j < j' < |lines| ==> Blank(lines[j']))
  }

  /**
   * Scanning to the first "bestmove" line: blank lines are skipped, `info`
   * becomes the last non-blank line before it, and the move is its argument;
   * without such a line there is no move and `info` is kept.
   */
  lemma {:induction false} MoveScanMeaning(lines: seq<string>, lastText: string, info: string)
    ensures var (r, info') := MoveScan(lines, lastText, info);
      match FirstBestmove(lines)
      case None => r.None? && info' == info
      case Some(k) => r == BestmoveArgument(Words(lines[k], RustIsWhitespace)) && LastNonBlank(lines[..k], lastText, info')
  {
    if lines != [] {
      var w := Words(lines[0], RustIsWhitespace);
      var tail := lines[1..];
      if w == [] {
        MoveScanMeaning(tail, lastText, info);
        ShiftBlank(lines, lastText, MoveScan(tail, lastText, info).1);
      } else if w[0] != "bestmove" {
        MoveScanMeaning(tail, lines[0], info);
        ShiftNonBlank(lines, lastText, MoveScan(tail, lines[0], info).1);
      } else {
        assert lines[..0] == [];
      }
    }
  }

  lemma ShiftBlank(lines: seq<string>, lastText: string, text: string)
    requires |lines| > 0 && Blank(lines[0]) && !IsBestmove(lines[0])
    ensures match FirstBestmove(lines[1..])
      case None => true
      case Some(k) => LastNonBlank(lines[1..][..k], lastText, text) ==> LastNonBlank(lines[..k + 1], lastText, text)
  {
    match FirstBestmove(lines[1..])
    case None =>
    case Some(k) =>
      assert lines[..k + 1] == [lines[0]] + lines[1..][..k];
      BlankCons(lines[0], lines[1..][..k], lastText, text);
  }

  /** A blank line in front changes neither the last non-blank line nor the default. */
  lemma BlankCons(x: string, t: seq<string>, default: string, text: string)
    requires Blank(x)
    ensures LastNonBlank(t, default, text) ==> LastNonBlank([x] + t, default, text)
  {
    var u := [x] + t;
    if LastNonBlank(t, default, text) {
      if text == default && forall j :: 0 <= j < |t| ==> Blank(t[j]) {
        forall j | 0 <= j < |u| ensures Blank(u[j]) {
          if j > 0 {
            assert u[j] == t[j - 1];
          }
        }
      } else {
        var j :| 0 <= j < |t| && text == t[j] && !Blank(t[j]) && forall j' :: j < j' < |t| ==> Blank(t[j']);
        assert u[j + 1] == t[j];
        forall j' | j + 1 < j' < |u| ensures Blank(u[j']) {
          assert u[j'] == t[j' - 1];
        }
      }
    }
  }

  lemma ShiftNonBlank(lines: seq<string>, lastText: string, text: string)
    requires |lines| > 0 && !Blank(lines[0]) && !IsBestmove(lines[0])
    ensures match FirstBestmove(lines[1..])
      case None => true
      case Some(k) => LastNonBlank(lines[1..][..k], lines[0], text) ==> LastNonBlank(lines[..k + 1], lastText, text)
  {
    match FirstBestmove(lines[1..])
    case None =>
    case Some(k) =>
      assert lines[..k + 1] == [lines[0]] + lines[1..][..k];
      NonBlankCons(lines[0], lines[1..][..k], lastText, text);
  }

  /** A non-blank line in front becomes the default of what follows it. */
  lemma NonBlankCons(x: string, t: seq<string>, default: string, text: string)
    requires !Blank(x)
    ensures LastNonBlank(t, x, text) ==> LastNonBlank([x] + t, default, text)
  {
    var u := [x] + t;
    if LastNonBlank(t, x, text) {
      if text == x && forall j :: 0 <= j < |t| ==> Blank(t[j]) {
        assert u[0] == x;
        forall j' | 0 < j' < |u| ensures Blank(u[j']) {
          assert u[j'] == t[j' - 1];
        }
      } else {
        var j :| 0 <= j < |t| && text == t[j] && !Blank(t[j]) && forall j' :: j < j' < |t| ==> Blank(t[j']);
        assert u[j + 1] == t[j];
        forall j' | j + 1 < j' < |u| ensures Blank(u[j']) {
          assert u[j'] == t[j' - 1];
        }
      }
    }
  }

  /** Checking a move asks for a depth-1 search restricted to it and leaves `info` and the queue as they were. */
  lemma IsCorrectMoveRestores(s: Sf, m: string)
    ensures var (ok, s') := IsCorrectMoveSpec(s, m);
      s'.info == s.info && s'.proc.toRead == s.proc.toRead && s'.parameters == s.parameters
      && s'.proc.written == s.proc.written + (if Live(s) then ["go depth 1 searchmoves " + m] else [])
      && (ok <==> MoveScan(LinesUntil(s.proc.toRead, "bestmove"), "", s.info).0.Some?)
  {
  }

  /** Playing no moves writes nothing; a rejected move panics with its message. */
  lemma MakeMoveCases(s: Sf, moves: seq<string>)
    ensures moves == [] ==> MakeMoveSpec(s, moves) == (Pass, s)
    ensures moves != [] && PrepareSpec(s, false).0.Pass? && !IsCorrectMoveSpec(PrepareSpec(s, false).1, moves[0]).0 ==>
      MakeMoveSpec(s, moves).0 == Fail(InvalidMoveMessage(moves[0]))
  {
  }

  lemma PlayMovesStep(s: Sf, moves: seq<string>)
    requires moves != [] && Live(s)
    ensures var r := PlayMoves(s, moves);
      r.0.Pass? ==> (IsCorrectMoveSpec(s, moves[0]).0 && GetFenSpec(IsCorrectMoveSpec(s, moves[0]).1).0.Success?
        && Live(AfterMove(s, moves[0])) && r == PlayMoves(AfterMove(s, moves[0]), moves[1..]))
  {
  }

  lemma LastLineOfMove(s: Sf, m: string)
    requires Live(s) && GetFenSpec(IsCorrectMoveSpec(s, m).1).0.Success?
    ensures var w := AfterMove(s, m).proc.written; |w| > 0 && PositionLine(w[|w| - 1], m)
  {
    PositionLineOf(GetFenSpec(IsCorrectMoveSpec(s, m).1).0.value, m);
  }

  /** After the moves are played, the last line written sets the position with the last move. */
  lemma {:induction false} PlayMovesLast(s: Sf, moves: seq<string>)
    requires moves != [] && Live(s)
    ensures PlayedLast(PlayMoves(s, moves), moves[|moves| - 1])
    decreases |moves|
  {
    PlayMovesStep(s, moves);
    if PlayMoves(s, moves).0.Pass? {
      var rest := moves[1..];
      if |rest| > 0 {
        PlayMovesLast(AfterMove(s, moves[0]), rest);
        assert rest[|rest| - 1] == moves[|moves| - 1];
      } else {
        LastLineOfMove(s, moves[0]);
        assert PlayMoves(AfterMove(s, moves[0]), rest) == (Pass, AfterMove(s, moves[0]));
      }
    }
  }

  /** A successful run whose last line written plays `m`. */
  predicate PlayedLast(r: (Outcome<string>, Sf), m: string)
  {
    r.0.Pass? ==> (|r.1.proc.written| > 0 && PositionLine(r.1.proc.written[|r.1.proc.written| - 1], m))
  }

  /** A line setting a position and then playing `m`. */
  predicate PositionLine(line: string, m: string)
  {
    StartsWith(line, "position fen ") && EndsWith(line, " moves " + m)
  }

  lemma PositionLineOf(pos: string, m: string)
    ensures PositionLine("position fen " + pos + " moves " + m, m)
  {
    var line := "position fen " + pos + " moves " + m;
    assert line == "position fen " + (pos + " moves " + m);
    assert line == ("position fen " + pos) + (" moves " + m);
  }

  /** The strength switch follows a lone skill level or rating, and only then. */
  lemma AugmentedMeaning(p: map<string, string>)
    ensures forall k :: k in p ==> k in Augmented(p) && Augmented(p)[k] == p[k]
    ensures forall k :: k in Augmented(p) ==> k in p || k == "UCI_LimitStrength"
    ensures "Skill Level" in p && "UCI_Elo" !in p && "UCI_LimitStrength" !in p ==> Augmented(p)["UCI_LimitStrength"] == "false"
    ensures "UCI_Elo" in p && "Skill Level" !in p && "UCI_LimitStrength" !in p ==> Augmented(p)["UCI_LimitStrength"] == "true"
    ensures ("Skill Level" in p) == ("UCI_Elo" in p) ==> Augmented(p) == p
  {
  }

  /** The setoption lines for the given names, each followed by the "isready" handshake. */
  function OptionLines(p: map<string, string>, names: seq<string>): seq<string>
    requires forall k :: k in names ==> k in p
  {
    if names == [] then [] else ["setoption name " + names[0] + " value " + p[names[0]], "isready"] + OptionLines(p, names[1..])
  }

  /** Options for the given names, laid over a table. */
  function Overlay(m: map<string, string>, p: map<string, string>, names: seq<string>): map<string, string>
  {
    m + map k | k in names && k in p :: p[k]
  }

  lemma OverlayStep(m: map<string, string>, p: map<string, string>, names: seq<string>)
    requires names != [] && names[0] in p
    ensures Overlay(m[names[0] := p[names[0]]], p, names[1..]) == Overlay(m, p, names)
  {
    var a := Overlay(m[names[0] := p[names[0]]], p, names[1..]);
    var b := Overlay(m, p, names);
    forall k
      ensures (k in a <==> k in b) && (k in a ==> a[k] == b[k])
    {
      InTail(names, k);
    }
    assert a == b;
  }

  lemma InTail(names: seq<string>, k: string)
    requires names != []
    ensures k in names <==> k == names[0] || k in names[1..]
  {
    assert names == [names[0]] + names[1..];
  }

  /** A successful handshake after one option: both lines written, the option recorded. */
  lemma SetOptionReady(s: Sf, name: string, value: string)
    requires Live(s)
    ensures var r := IsReadySpec(SetOption(s, name, value));
      r.0.Pass? ==> (r.1.proc.written == s.proc.written + ["setoption name " + name + " value " + value, "isready"]
                     && r.1.parameters == s.parameters[name := value] && Live(r.1))
  {
    AwaitReadyMeaning(PutSpec(SetOption(s, name, value), "isready"));
  }

  /** When every handshake succeeds, each option is written and recorded, and any older value is overridden. */
  lemma {:induction false} ApplyOptionsMeaning(s: Sf, p: map<string, string>, names: seq<string>)
    requires forall k :: k in names ==> k in p
    requires Live(s)
    ensures Applied(ApplyOptions(s, p, names), s, p, names)
    decreases |names|
  {
    if names != [] {
      SetOptionReady(s, names[0], p[names[0]]);
      var ready := IsReadySpec(SetOption(s, names[0], p[names[0]]));
      if ready.0.Pass? {
        ApplyOptionsMeaning(ready.1, p, names[1..]);
        OverlayStep(s.parameters, p, names);
        assert OptionLines(p, names) == ["setoption name " + names[0] + " value " + p[names[0]], "isready"] + OptionLines(p, names[1..]);
      }
    } else {
      assert Overlay(s.parameters, p, names) == s.parameters;
    }
  }

  /** On success, the option lines were written and the options recorded over the old table. */
  predicate Applied(r: (Outcome<string>, Sf), s: Sf, p: map<string, string>, names: seq<string>)
    requires forall k :: k in names ==> k in p
  {
    r.0.Pass? ==> (r.1.proc.written == s.proc.written + OptionLines(p, names) && r.1.parameters == Overlay(s.parameters, p, names))
  }

  /**
   * With a fresh option table any options are accepted; with a filled one a
   * new key panics before anything is written. On success every given key
   * maps to its value afterwards, and every other key keeps its old value.
   */
  lemma UpdateParamsMeaning(s: Sf, p: map<string, string>, order: seq<string>)
    requires Enumerates(order, Augmented(p))
    ensures |s.parameters| > 0 && (exists k :: k in p && k !in s.parameters) ==> UpdateParamsSpec(s, p, order) == (Fail(UnknownOption), s)
    ensures Live(s) && UpdateParamsSpec(s, p, order).0.Pass? ==>
      var s' := UpdateParamsSpec(s, p, order).1;
      s'.parameters == s.parameters + Augmented(p)
      && forall k :: k in Augmented(p) ==> (k in s'.parameters && s'.parameters[k] == Augmented(p)[k]
                                          && ("setoption name " + k + " value " + Augmented(p)[k]) in s'.proc.written)
  {
    if KeysKnown(s.parameters, p) && Live(s) && UpdateParamsSpec(s, p, order).0.Pass? {
      UpdateParamsPass(s, p, order);
    }
  }

  /** After a successful update the options stay recorded and their lines stay written. */
  lemma UpdateParamsPass(s: Sf, p: map<string, string>, order: seq<string>)
    requires Enumerates(order, Augmented(p)) && KeysKnown(s.parameters, p) && Live(s)
    requires UpdateParamsSpec(s, p, order).0.Pass?
    ensures var s' := UpdateParamsSpec(s, p, order).1;
      s'.parameters == s.parameters + Augmented(p)
      && forall k :: k in Augmented(p) ==> (k in s'.parameters && s'.parameters[k] == Augmented(p)[k]
                                          && ("setoption name " + k + " value " + Augmented(p)[k]) in s'.proc.written)
  {
    var aug := Augmented(p);
    var a := ApplyOptions(s, aug, order);
    ApplyOptionsMeaning(s, aug, order);
    OptionLinesContain(aug, order);
    var g := GetFenSpec(a.1);
    var f := SetFenSpec(g.1, g.0.value, false);
    assert UpdateParamsSpec(s, p, order) == f;
    StepsKeep(a.1, g.1, f.1, OptionLines(aug, order), s.proc.written);
    OverlayAll(s.parameters, aug, order);
  }

  /** Laying every option over a table is the map update with all of them. */
  lemma OverlayAll(m: map<string, string>, p: map<string, string>, order: seq<string>)
    requires Enumerates(order, p)
    ensures Overlay(m, p, order) == m + p
  {
    assert (map k | k in order && k in p :: p[k]) == p;
  }

  /** Two later steps keep the option table and every line already written. */
  lemma StepsKeep(s1: Sf, s2: Sf, s3: Sf, lines: seq<string>, before: seq<string>)
    requires Steps(s1, s2) && Steps(s2, s3) && s1.proc.written == before + lines
    ensures s3.parameters == s1.parameters
    ensures forall x :: x in lines ==> x in s3.proc.written
  {
    assert s1.proc.written <= s3.proc.written;
    forall x | x in lines
      ensures x in s3.proc.written
    {
      var i :| 0 <= i < |lines| && lines[i] == x;
      assert s3.proc.written[|before| + i] == x;
    }
  }

  lemma {:induction false} OptionLinesContain(p: map<string, string>, names: seq<string>)
    requires forall k :: k in names ==> k in p
    ensures forall k :: k in names ==> ("setoption name " + k + " value " + p[k]) in OptionLines(p, names)
  {
    if names != [] {
      OptionLinesContain(p, names[1..]);
      assert forall k :: k in names ==> k == names[0] || k in names[1..];
    }
  }

  /** Once "quit" was sent, commands are still written after the process stops. */
  lemma QuitKeepsWriting(s: Sf, cmd: string)
    requires Live(s)
    ensures var q := PutSpec(s, "quit");
      q.quitSent && PutSpec(q.(proc := q.proc.(running := false)), cmd).proc.written == s.proc.written + ["quit", cmd]
  {
  }

  /**
   * As written, once `set_config` has registered its options, setting a
   * skill level panics: the key "Skill level" is not among them.
   */
  lemma SkillLevelRejectedAfterConfig(s: Sf, level: nat, order: seq<string>)
    requires Enumerates(order, Augmented(SkillOptions(level)))
    requires |s.parameters| > 0 && "Skill level" !in s.parameters
    ensures UpdateParamsSpec(s, SkillOptions(level), order) == (Fail(UnknownOption), s)
  {
    assert "Skill level" in SkillOptions(level);
  }

  /** The configured table holds exactly the ten default keys, which lack the lower-case spelling. */
  lemma ConfigKeys(elo: string, skill: string, hash: string, multiLines: string)
    ensures Augmented(ConfigOptions(elo, skill, hash, multiLines)) == ConfigOptions(elo, skill, hash, multiLines)
    ensures "Skill level" !in ConfigOptions(elo, skill, hash, multiLines)
    ensures "Skill Level" in ConfigOptions(elo, skill, hash, multiLines) && "UCI_LimitStrength" in ConfigOptions(elo, skill, hash, multiLines)
  {
  }

  /**
   * `update_params` panics with "TODO!" exactly when the option table is
   * filled and a key is new; its other panics come from an empty read queue
   * or a missing "Fen: " line.
   */
  lemma UpdateParamsErrors(s: Sf, p: map<string, string>, order: seq<string>)
    requires Enumerates(order, Augmented(p))
    ensures var st := UpdateParamsSpec(s, p, order).0;
      (st == Fail(UnknownOption) <==> !KeysKnown(s.parameters, p))
      && (st.Fail? ==> st.error in {UnknownOption, UnwrapNone, ExplicitPanic})
  {
  }

  /** With the registered spelling the key check passes after `set_config`, so a skill level is never refused. */
  lemma SkillLevelAcceptedAfterConfig(s: Sf, level: nat, order: seq<string>, elo: string, skill: string, hash: string, multiLines: string)
    requires Enumerates(order, Augmented(SkillOptionsFixed(level)))
    requires forall k :: k in ConfigOptions(elo, skill, hash, multiLines) ==> k in s.parameters
    ensures UpdateParamsSpec(s, SkillOptionsFixed(level), order).0 != Fail(UnknownOption)
  {
    assert "Skill Level" in ConfigOptions(elo, skill, hash, multiLines);
    assert "UCI_LimitStrength" in ConfigOptions(elo, skill, hash, multiLines);
    UpdateParamsErrors(s, SkillOptionsFixed(level), order);
  }

  /** A rating forces the strength limit on. */
  lemma EloForcesLimit(rating: nat)
    ensures Augmented(EloOptions(rating)) == EloOptions(rating)
    ensures EloOptions(rating)["UCI_LimitStrength"] == "true" && EloOptions(rating)["UCI_Elo"] == NatToString(rating)
  {
  }

  /** Starting up reads the version line, sends "uci", and drops the next line. */
  lemma HandshakeMeaning(p: Proc, depth: Numeric.u8)
    requires p.running
    ensures var (st, s) := NewWithProcessSpec(p, depth);
      (st.Pass? <==> |p.toRead| >= 2)
      && (st.Pass? ==> (s.version == p.toRead[0] && s.proc.toRead == p.toRead[2..] && s.proc.written == p.written + ["uci"]
                        && s.parameters == map[] && s.info == "" && !s.quitSent))
  {
  }

  // ----- the client object -----

  class Stockfish {
    var proc: Proc
    var parameters: map<string, string>
    var depth: Numeric.u8
    var info: string
    var quitSent: bool
    var version: string

    function State(): Sf
      reads this
    {
      Sf(proc, parameters, depth, info, quitSent, version)
    }

    /** The struct literal of `new_with_process`. */
    constructor Create(p: Proc, depth: Numeric.u8)
      ensures State() == Fresh(p, depth)
    {
      proc := p;
      parameters := map[];
      this.depth := depth;
      info := "";
      quitSent := false;
      version := "";
    }

    /** The rest of `new_with_process`. */
    method Handshake() returns (status: Outcome<string>)
      modifies this
      ensures (status, State()) == HandshakeSpec(old(State()))
    {
      var v := ReadLine();
      if v.Failure? {
        return Fail(v.error);
      }
      version := v.value;
      Put("uci");
      var cleared := ReadLine();
      if cleared.Failure? {
        return Fail(cleared.error);
      }
      return Pass;
    }

    method Put(cmd: string)
      modifies this
      ensures State() == PutSpec(old(State()), cmd)
    {
      if !proc.running && !quitSent {
        return;
      }
      proc := proc.(written := proc.written + [cmd]);
      if cmd == "quit" {
        quitSent := true;
      }
    }

    method ReadLine() returns (line: Result<string, string>)
      modifies this
      ensures (line, State()) == ReadLineSpec(old(State()))
    {
      if |proc.toRead| == 0 {
        return Failure(UnwrapNone);
      }
      line := Success(proc.toRead[0]);
      proc := proc.(toRead := proc.toRead[1..]);
    }

    method IsReady() returns (status: Outcome<string>)
      modifies this
      ensures (status, State()) == IsReadySpec(old(State()))
    {
      Put("isready");
      while true
        invariant AwaitReady(State()) == IsReadySpec(old(State()))
        decreases |proc.toRead|
      {
        var out := ReadLine();
        if out.Failure? {
          return Fail(out.error);
        }
        if out.value == "readyok" {
          return Pass;
        }
      }
    }

    method PrepareForNewPosition(sendToken: bool) returns (status: Outcome<string>)
      modifies this
      ensures (status, State()) == PrepareSpec(old(State()), sendToken)
    {
      if sendToken {
        Put("ucinewgame");
      }
      status := IsReady();
      if status.Fail? {
        return;
      }
      info := "";
    }

    method GetFenPosition() returns (fen: Result<string, string>)
      modifies this
      ensures (fen, State()) == GetFenSpec(old(State()))
    {
      Put("d");
      var binding := DesiredLine(State(), "Fen");
      if binding.Failure? {
        return Failure(binding.error);
      }
      var line := TrimEnds(binding.value, RustIsWhitespace);
      if Contains(line, "Fen: ") {
        ContainsLength(line, "Fen: ");
        return Success(line[5..]);
      }
      return Failure(ExplicitPanic);
    }

    method SetFenPosition(fen: string, token: bool) returns (status: Outcome<string>)
      modifies this
      ensures (status, State()) == SetFenSpec(old(State()), fen, token)
    {
      status := PrepareForNewPosition(token);
      if status.Fail? {
        return;
      }
      Put("position fen " + fen);
    }

    /** `get_move_from_proc`: the loop over the collected lines with its `last_text`. */
    method GetMoveFromProc() returns (move: Option<string>)
      modifies this
      ensures (move, State()) == GetMoveSpec(old(State()))
    {
      var lines := LinesUntil(proc.toRead, "bestmove");
      var lastText := "";
      var i := 0;
      while i < |lines|
        invariant i <= |lines|
        invariant State() == old(State())
        invariant MoveScan(lines[i..], lastText, info) == MoveScan(lines, "", info)
      {
        var text := lines[i];
        var splitted := Words(text, RustIsWhitespace);
        assert lines[i..][1..] == lines[i + 1..];
        if splitted == [] {
          i := i + 1;
          continue;
        }
        if splitted[0] == "bestmove" {
          info := lastText;
          if |splitted| > 1 && splitted[1] == "(none)" {
            return None;
          } else if |splitted| > 1 {
            return Some(splitted[1]);
          } else {
            return None;
          }
        }
        lastText := text;
        i := i + 1;
      }
      return None;
    }

    method IsCorrectMove(m: string) returns (ok: bool)
      modifies this
      ensures (ok, State()) == IsCorrectMoveSpec(old(State()), m)
    {
      var oldInfo := info;
      Put("go depth 1 searchmoves " + m);
      var result := GetMoveFromProc();
      info := oldInfo;
      return result.Some?;
    }

    method Go()
      modifies this
      ensures State() == GoSpec(old(State()))
    {
      Put("go depth " + NatToString(depth));
    }

    method GetBestMove() returns (move: Option<string>)
      modifies this
      ensures (move, State()) == GetBestMoveSpec(old(State()))
    {
      Go();
      move := GetMoveFromProc();
    }

    method MakeMove(moves: seq<string>) returns (status: Outcome<string>)
      modifies this
      ensures (status, State()) == MakeMoveSpec(old(State()), moves)
    {
      if moves == [] {
        return Pass;
      }
      status := PrepareForNewPosition(false);
      if status.Fail? {
        return;
      }
      var i := 0;
      while i < |moves|
        invariant i <= |moves|
        invariant PlayMoves(State(), moves[i..]) == MakeMoveSpec(old(State()), moves)
      {
        var m := moves[i];
        assert moves[i..][1..] == moves[i + 1..];
        var ok := IsCorrectMove(m);
        if !ok {
          return Fail(InvalidMoveMessage(m));
        }
        var pos := GetFenPosition();
        if pos.Failure? {
          return Fail(pos.error);
        }
        Put("position fen " + pos.value + " moves " + m);
        i := i + 1;
      }
      return Pass;
    }

    /** The setoption loop of `update_params`. */
    method SetOptions(values: map<string, string>, order: seq<string>) returns (status: Outcome<string>)
      requires forall k :: k in order ==> k in values
      modifies this
      ensures (status, State()) == ApplyOptions(old(State()), values, order)
    {
      status := Pass;
      var i := 0;
      while i < |order|
        invariant i <= |order|
        invariant ApplyOptions(State(), values, order[i..]) == ApplyOptions(old(State()), values, order)
        invariant status == Pass
      {
        var name := order[i];
        assert order[i..][1..] == order[i + 1..];
        Put("setoption name " + name + " value " + values[name]);
        parameters := parameters[name := values[name]];
        status := IsReady();
        if status.Fail? {
          return;
        }
        i := i + 1;
      }
    }

    /** `update_params`, iterating the augmented options in `order`. */
    method UpdateParams(p: map<string, string>, order: seq<string>) returns (status: Outcome<string>)
      requires Enumerates(order, Augmented(p))
      modifies this
      ensures (status, State()) == UpdateParamsSpec(old(State()), p, order)
    {
      if |parameters| != 0 && !(forall k | k in p :: k in parameters) {
        return Fail(UnknownOption);
      }
      status := SetOptions(Augmented(p), order);
      if status.Fail? {
        return;
      }
      var pos := GetFenPosition();
      if pos.Failure? {
        return Fail(pos.error);
      }
      status := SetFenPosition(pos.value, false);
    }

    /** `set_skill_level`, as written. */
    method SetSkillLevel(level: nat, order: seq<string>) returns (status: Outcome<string>)
      requires Enumerates(order, Augmented(SkillOptions(level)))
      modifies this
      ensures (status, State()) == UpdateParamsSpec(old(State()), SkillOptions(level), order)
    {
      status := UpdateParams(SkillOptions(level), order);
    }

    /** `set_skill_level` with the key `set_config` registers. */
    method SetSkillLevelFixed(level: nat, order: seq<string>) returns (status: Outcome<string>)
      requires Enumerates(order, Augmented(SkillOptionsFixed(level)))
      modifies this
      ensures (status, State()) == UpdateParamsSpec(old(State()), SkillOptionsFixed(level), order)
    {
      status := UpdateParams(SkillOptionsFixed(level), order);
    }

    method SetEloRating(rating: nat, order: seq<string>) returns (status: Outcome<string>)
      requires Enumerates(order, Augmented(EloOptions(rating)))
      modifies this
      ensures (status, State()) == UpdateParamsSpec(old(State()), EloOptions(rating), order)
    {
      status := UpdateParams(EloOptions(rating), order);
    }

    method SetConfig(elo: string, skill: string, hash: string, multiLines: string, order: seq<string>) returns (status: Outcome<string>)
      requires Enumerates(order, Augmented(ConfigOptions(elo, skill, hash, multiLines)))
      modifies this
      ensures (status, State()) == UpdateParamsSpec(old(State()), ConfigOptions(elo, skill, hash, multiLines), order)
    {
      status := UpdateParams(ConfigOptions(elo, skill, hash, multiLines), order);
    }
  }
}
