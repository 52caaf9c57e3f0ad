/**
 * The chess.com screen wrapper: its platform mode, the display name that
 * picks the pieces directory, and the built-in region and per-piece
 * matching thresholds.
 */
module WebWrapper {
  import opened Text
  import Region

  /** `WrapperMode`: the supported sites. */
  datatype WrapperMode = Chesscom | Lichess

  /** The derived `Debug` name of a mode. */
  function DebugName(m: WrapperMode): string
  {
    match m
    case Chesscom => "Chesscom"
    case Lichess => "Lichess"
  }

  /** `Display`: the `Debug` name in lower case. */
  function Display(m: WrapperMode): string
  {
    AsciiLower(DebugName(m))
  }

  /** The two modes display as "chesscom" and "lichess". */
  lemma DisplayNames()
    ensures Display(Chesscom) == "chesscom" && Display(Lichess) == "lichess"
  {
    LowerName("Chesscom", "chesscom");
    LowerName("Lichess", "lichess");
  }

  lemma LowerName(name: string, lower: string)
    requires |name| == |lower| && forall i :: 0 <= i < |name| ==> LowerChar(name[i]) == lower[i]
    ensures AsciiLower(name) == lower
  {
  }

  /** Different modes never share a pieces directory. */
  lemma DisplayInjective(m: WrapperMode, n: WrapperMode)
    ensures Display(m) == Display(n) ==> m == n
  {
    DisplayNames();
  }

  /** `ChesscomWrapper`: a capture region and the template-matching thresholds per piece letter. */
  datatype ChesscomWrapper = ChesscomWrapper(region: Region.ScreenRegion, thresholds: map<char, real>)

  /** `ChesscomWrapper::new`. */
  function New(region: Region.ScreenRegion, thresholds: map<char, real>): (w: ChesscomWrapper)
    ensures GetRegion(w) == region && GetThresholds(w) == thresholds
  {
    ChesscomWrapper(region, thresholds)
  }

  function GetRegion(w: ChesscomWrapper): Region.ScreenRegion
  {
    w.region
  }

  function GetThresholds(w: ChesscomWrapper): map<char, real>
  {
    w.thresholds
  }

  function Mode(w: ChesscomWrapper): WrapperMode
  {
    Chesscom
  }

  function PiecesPath(w: ChesscomWrapper): string
  {
    "chesscom"
  }

  /** The wrapper's pieces path is the display name of its own mode. */
  lemma PiecesPathIsModeName(w: ChesscomWrapper)
    ensures Mode(w) == Chesscom
    ensures PiecesPath(w) == Display(Mode(w))
  {
    DisplayNames();
  }

  /** `Default`: region (440, 219, 758, 759) and one threshold per piece letter. */
  function Default(): (w: ChesscomWrapper)
    ensures Region.Values(GetRegion(w)) == (440, 219, 758, 759)
    ensures GetThresholds(w).Keys == {'B', 'b', 'K', 'k', 'N', 'n', 'P', 'p', 'Q', 'q', 'R', 'r'}
    ensures forall c :: c in GetThresholds(w) ==> 0.0 < GetThresholds(w)[c] < 1.0
  {
    ChesscomWrapper(
      Region.New(440, 219, 758, 759),
      map['B' := 0.35, 'b' := 0.55, 'K' := 0.2, 'k' := 0.3, 'N' := 0.1, 'n' := 0.3,
          'P' := 0.15, 'p' := 0.9, 'Q' := 0.7, 'q' := 0.5, 'R' := 0.4, 'r' := 0.3])
  }
}
