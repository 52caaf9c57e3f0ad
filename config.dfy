/**
 * The application configuration: the checks a new configuration must pass
 * (capture region, per-piece thresholds, pieces directory on a file
 * system) and saving it to ".config.json".
 */
module Config {
  import opened Wrappers
  import opened Text
  import Numeric
  import Region
  import FileSystem
  import WebWrapper

  /** `CORRECT_THRESHOLD_KEYS`: the twelve piece letters. */
  const CorrectThresholdKeys: seq<char> := ['p', 'r', 'q', 'k', 'b', 'n', 'P', 'R', 'Q', 'K', 'B', 'N']

  const ConfigPath: string := ".config.json"

  /** The errors the checks return; `Message` gives their text. */
  datatype ConfigError =
    | ZeroSize
    | NegativeOrigin
    | EmptyThresholds
    | WrongKeyCount
    | InvalidKey(key: char)
    | OutOfRange(value: real, key: char)
    | NoPiecesDir
    | PieceCount
    | NotSingleChar(stem: string)
    | NotPiece(stem: string)
    | NoFileName

  /** The text of an error; `floatText` stands for Rust's `Display` of an `f64`. */
  function Message(e: ConfigError, floatText: real -> string): string
  {
    match e
    case ZeroSize => "Width and height must be non-zero"
    case NegativeOrigin => "Coordinates must be non-negative"
    case EmptyThresholds => "Thresholds map cannot be empty"
    case WrongKeyCount => "Thresholds should have exact 12 keys"
    case InvalidKey(k) => "Key '" + [k] + "' is not a valid character"
    case OutOfRange(v, k) => "Threshold " + floatText(v) + " for key '" + [k] + "' is out of range (0, 2)"
    case NoPiecesDir => "Custom pieces directory does not exist"
    case PieceCount => "Custom pieces directory must contain exactly 12 PNG files"
    case NotSingleChar(stem) => "Filename '" + stem + "' is not a single character"
    case NotPiece(stem) => "Filename '" + stem + "' is not a valid piece identifier"
    case NoFileName => "Could not determine filename"
  }

  /** `Config`. */
  datatype Config = Config(platform: WebWrapper.WrapperMode, region: Region.ScreenRegion, thresholds: map<char, real>, customPieces: bool)

  // ----- the region -----

  /** `validate_region`: a zero size is reported before a negative origin. */
  function ValidateRegion(region: Region.ScreenRegion): (r: Outcome<ConfigError>)
    ensures r == Pass <==> region.width > 0 && region.height > 0 && region.x >= 0 && region.y >= 0
    ensures r.Fail? ==> (r.error == ZeroSize <==> region.width == 0 || region.height == 0)
    ensures r.Fail? ==> r.error == ZeroSize || r.error == NegativeOrigin
  {
    var (x, y, width, height) := Region.Values(region);
    if width == 0 || height == 0 then Fail(ZeroSize)
    else if x < 0 || y < 0 then Fail(NegativeOrigin)
    else Pass
  }

  // ----- the thresholds -----

  /** A threshold entry the loop refuses: its key is not a piece letter, or its value is outside (0, 2). */
  predicate BadThreshold(m: map<char, real>, k: char)
    requires k in m
  {
    k !in CorrectThresholdKeys || m[k] <= 0.0 || m[k] >= 2.0
  }

  /** The error the loop returns for a refused entry. */
  function ThresholdError(m: map<char, real>, k: char): ConfigError
    requires k in m
  {
    if k !in CorrectThresholdKeys then InvalidKey(k) else OutOfRange(m[k], k)
  }

  /** Thresholds that pass: twelve entries, none refused. */
  predicate ThresholdsValid(m: map<char, real>)
  {
    |m| == 12 && forall k :: k in m ==> !BadThreshold(m, k)
  }

  /**
   * The errors thresholds can be refused with: the empty map and a count
   * other than 12 have their own errors, and otherwise the error names one
   * refused entry (which one depends on the map's iteration order).
   */
  ghost predicate ThresholdRefusal(m: map<char, real>, e: ConfigError)
  {
    if m == map[] then e == EmptyThresholds
    else if |m| != 12 then e == WrongKeyCount
    else exists k :: k in m && BadThreshold(m, k) && e == ThresholdError(m, k)
  }

  /** `validate_thresholds`: the checks on the whole map, then one pass over its entries in any order. */
  method ValidateThresholds(m: map<char, real>) returns (r: Outcome<ConfigError>)
    ensures r == Pass <==> ThresholdsValid(m)
    ensures r.Fail? ==> ThresholdRefusal(m, r.error)
  {
    if m == map[] {
      return Fail(EmptyThresholds);
    }
    if |m.Keys| != 12 {
      return Fail(WrongKeyCount);
    }
    var remaining := m.Keys;
    while remaining != {}
      invariant remaining <= m.Keys
      invariant forall k :: k in m && k !in remaining ==> !BadThreshold(m, k)
      decreases |remaining|
    {
      var k :| k in remaining;
      if k !in CorrectThresholdKeys {
        return Fail(InvalidKey(k));
      }
      if m[k] <= 0.0 || m[k] >= 2.0 {
        return Fail(OutOfRange(m[k], k));
      }
      remaining := remaining - {k};
    }
    return Pass;
  }

  /** The twelve letters as a set. */
  function KeySet(): (s: set<char>)
    ensures |s| == 12
  {
    var s := {'p', 'r', 'q', 'k', 'b', 'n', 'P', 'R', 'Q', 'K', 'B', 'N'};
    assert |s| == 12;
    s
  }

  lemma KeySetIsKeys()
    ensures forall c :: c in KeySet() <==> c in CorrectThresholdKeys
  {
  }

  lemma {:induction false} SubsetSize(a: set<char>, b: set<char>)
    requires a <= b
    ensures |a| <= |b|
    decreases |b|
  {
    if a != {} {
      var x :| x in a;
      SubsetSize(a - {x}, b - {x});
    }
  }

  /** A subset as large as its superset is the superset. */
  lemma FullSubset(a: set<char>, b: set<char>)
    requires a <= b && |a| == |b|
    ensures a == b
  {
    if a != b {
      var x :| x in b && x !in a;
      SubsetSize(a, b - {x});
    }
  }

  /** Thresholds pass exactly when their keys are the twelve piece letters and every value lies strictly between 0 and 2. */
  lemma ThresholdsValidMeaning(m: map<char, real>)
    ensures ThresholdsValid(m) <==> m.Keys == KeySet() && forall k :: k in m ==> 0.0 < m[k] < 2.0
  {
    if ThresholdsValid(m) {
      ValidKeys(m);
    }
    if m.Keys == KeySet() && forall k :: k in m ==> 0.0 < m[k] < 2.0 {
      KeysValid(m);
    }
  }

  lemma ValidKeys(m: map<char, real>)
    requires ThresholdsValid(m)
    ensures m.Keys == KeySet()
  {
    KeySetIsKeys();
    assert m.Keys <= KeySet();
    FullSubset(m.Keys, KeySet());
  }

  lemma KeysValid(m: map<char, real>)
    requires m.Keys == KeySet() && forall k :: k in m ==> 0.0 < m[k] < 2.0
    ensures ThresholdsValid(m)
  {
    KeySetIsKeys();
    assert |m| == |m.Keys|;
  }

  /** The same value in (0, 2) for each of the twelve letters passes. */
  lemma UniformThresholdsValid(v: real)
    requires 0.0 < v < 2.0
    ensures ThresholdsValid(map k | k in KeySet() :: v)
  {
    var m := map k | k in KeySet() :: v;
    assert m.Keys == KeySet();
    ThresholdsValidMeaning(m);
  }

  /** The bounds themselves are refused. */
  lemma BoundsRefused(m: map<char, real>, k: char)
    requires k in m && (m[k] == 0.0 || m[k] == 2.0)
    ensures !ThresholdsValid(m)
    ensures k in CorrectThresholdKeys ==> ThresholdError(m, k) == OutOfRange(m[k], k)
  {
  }

  /** When a single entry is refused, the error names that entry whatever the iteration order. */
  lemma OnlyRefusal(m: map<char, real>, k: char, e: ConfigError)
    requires |m| == 12 && k in m && BadThreshold(m, k)
    requires forall j :: j in m && j != k ==> !BadThreshold(m, j)
    requires ThresholdRefusal(m, e)
    ensures e == ThresholdError(m, k)
  {
  }

  // ----- the pieces directory -----

  /** The pieces directory: "pieces/custom", or "pieces/" and the platform's display name. */
  function PiecesDir(custom: bool, wrapper: WebWrapper.WrapperMode): string
  {
    if custom then "pieces/custom" else "pieces/" + WebWrapper.Display(wrapper)
  }

  /** Where `c` last occurs in `s`. */
  function LastIndexOf(s: string, c: char): (i: nat)
    requires c in s
    ensures i < |s| && s[i] == c && c !in s[i + 1..]
  {
    if s[|s| - 1] == c then |s| - 1
    else
      assert c in s[..|s| - 1] by {
        var j :| 0 <= j < |s| && s[j] == c;
        assert s[..|s| - 1][j] == c;
      }
      var i := LastIndexOf(s[..|s| - 1], c);
      assert s[i + 1..] == s[..|s| - 1][i + 1..] + [s[|s| - 1]];
      i
  }

  /** `Path::file_name`: the text after the last '/', none when that is empty or "..". */
  function FileName(path: string): Option<string>
  {
    var name := if '/' in path then path[LastIndexOf(path, '/') + 1..] else path;
    if name == "" || name == ".." then None else Some(name)
  }

  /** `Path::file_stem` of a file name: the text before the last '.', unless the only '.' leads the name. */
  function FileStem(name: string): (stem: string)
    ensures |stem| <= |name|
  {
    if name == ".." || '.' !in name then name
    else
      var i := LastIndexOf(name, '.');
      if i == 0 then name else name[..i]
  }

  /** The length in bytes of the UTF-8 encoding of a string. */
  function Utf8Length(s: string): nat
  {
    if s == [] then 0
    else
      var c := s[0] as int;
      (if c < 0x80 then 1 else if c < 0x800 then 2 else if c < 0x10000 then 3 else 4) + Utf8Length(s[1..])
  }

  /** The check on one listed path: a file name, a stem of one byte, and that byte a piece letter. */
  function EntryError(entry: string): Option<ConfigError>
  {
    match FileName(entry)
    case None => Some(NoFileName)
    case Some(name) =>
      var stem := FileStem(name);
      if Utf8Length(stem) != 1 then Some(NotSingleChar(stem))
      else if stem[0] !in CorrectThresholdKeys then Some(NotPiece(stem))
      else None
  }

  predicate EntryAccepted(entry: string)
  {
    EntryError(entry).None?
  }

  /** A pieces directory that passes: it exists, it lists twelve paths, and every one has a piece-letter stem. */
  predicate PiecesValid(keys: set<string>, dir: string)
  {
    dir in keys
    && |FileSystem.PngUnder(keys, dir)| == 12
    && forall k :: k in FileSystem.PngUnder(keys, dir) ==> EntryAccepted(k)
  }

  /** The errors the directory check can return; the entry named depends on the listing order. */
  ghost predicate PiecesRefusal(keys: set<string>, dir: string, e: ConfigError)
  {
    if dir !in keys then e == NoPiecesDir
    else if |FileSystem.PngUnder(keys, dir)| != 12 then e == PieceCount
    else exists k :: k in FileSystem.PngUnder(keys, dir) && EntryError(k) == Some(e)
  }

  /** `validate_custom_pieces` on the in-memory file system; it changes nothing there. */
  method ValidateCustomPieces(custom: bool, wrapper: WebWrapper.WrapperMode, fs: FileSystem.TestFileSystem) returns (r: Outcome<ConfigError>)
    ensures r == Pass <==> PiecesValid(fs.files.Keys, PiecesDir(custom, wrapper))
    ensures r.Fail? ==> PiecesRefusal(fs.files.Keys, PiecesDir(custom, wrapper), r.error)
  {
    var dir := PiecesDir(custom, wrapper);
    if !fs.Exists(dir) {
      return Fail(NoPiecesDir);
    }
    var entries := fs.ReadDir(dir);
    if |entries| != 12 {
      return Fail(PieceCount);
    }
    r := CheckEntries(entries);
    ghost var listed := FileSystem.PngUnder(fs.files.Keys, dir);
    if r.Fail? {
      var j :| 0 <= j < |entries| && EntryError(entries[j]) == Some(r.error);
      assert entries[j] in listed;
    } else {
      forall k | k in listed
        ensures EntryAccepted(k)
      {
        var j :| 0 <= j < |entries| && entries[j] == k;
      }
    }
  }

  /** The loop over the listed paths: the first refused one, in listing order, gives the error. */
  method CheckEntries(entries: seq<string>) returns (r: Outcome<ConfigError>)
    ensures r == Pass <==> forall j :: 0 <= j < |entries| ==> EntryAccepted(entries[j])
    ensures r.Fail? ==> exists j :: 0 <= j < |entries| && EntryError(entries[j]) == Some(r.error) && forall l :: 0 <= l < j ==> EntryAccepted(entries[l])
  {
    for i := 0 to |entries|
      invariant forall j :: 0 <= j < i ==> EntryAccepted(entries[j])
    {
      var e := EntryError(entries[i]);
      if e.Some? {
        return Fail(e.value);
      }
    }
    return Pass;
  }

  // ----- directories made of piece images -----

  /** The path of the image for piece letter `c` in `dir`. */
  function PieceFile(dir: string, c: char): string
  {
    dir + "/" + ([c] + ".png")
  }

  /** In "dir/name" with no '/' in `name`, the last '/' is the one after `dir`. */
  lemma LastSlash(dir: string, name: string)
    requires '/' !in name
    ensures LastIndexOf(dir + "/" + name, '/') == |dir|
  {
    var p := dir + "/" + name;
    var i := LastIndexOf(p, '/');
    assert p[|dir|] == '/';
  }

  /** The file name of "dir/name" is `name`. */
  lemma FileNameOf(dir: string, name: string)
    requires '/' !in name && name != "" && name != ".."
    ensures FileName(dir + "/" + name) == Some(name)
  {
    var p := dir + "/" + name;
    LastSlash(dir, name);
    assert p[|dir| + 1..] == name;
  }

  /** "dir/name" is listed when `name` ends in ".png" in any ASCII case. */
  lemma ListedName(dir: string, name: string)
    requires EndsWith(AsciiLower(name), ".png")
    ensures FileSystem.Listed(dir, dir + "/" + name)
  {
    AsciiLowerAppend(dir + "/", name);
    EndsWithAppend(AsciiLower(dir + "/"), AsciiLower(name), ".png");
    StartsWithAppend(dir + "/", name);
  }

  lemma AsciiLowerAppend(a: string, b: string)
    ensures AsciiLower(a + b) == AsciiLower(a) + AsciiLower(b)
  {
    var l := AsciiLower(a + b);
    var r := AsciiLower(a) + AsciiLower(b);
    forall k | 0 <= k < |l|
      ensures l[k] == r[k]
    {
      if k < |a| {
        assert (a + b)[k] == a[k];
      } else {
        assert (a + b)[k] == b[k - |a|];
      }
    }
  }

  /** A five-character name "c.ext" has its last '.' at 1, so its stem is "c". */
  lemma StemOfImage(name: string)
    requires |name| == 5 && name[0] != '.' && name[1] == '.' && '.' !in name[2..]
    ensures FileStem(name) == name[..1]
  {
    var i := LastIndexOf(name, '.');
    assert i == 1;
  }

  /**
   * An image "dir/c.png", the extension in any ASCII case: it is listed,
   * and it is accepted exactly when `c` is a piece letter.
   */
  lemma ImageEntry(dir: string, name: string)
    requires |name| == 5 && name[1] == '.' && '.' !in name[2..] && '/' !in name
    requires name[0] != '.' && (name[0] as int) < 0x80
    requires EndsWith(AsciiLower(name), ".png")
    ensures FileSystem.Listed(dir, dir + "/" + name)
    ensures EntryError(dir + "/" + name) == if name[0] in CorrectThresholdKeys then None else Some(NotPiece(name[..1]))
  {
    ListedName(dir, name);
    FileNameOf(dir, name);
    StemOfImage(name);
    StemAccepted(dir + "/" + name, name, name[..1]);
  }

  /** A piece image path is listed, and its stem is the letter itself. */
  lemma PieceFileEntry(dir: string, c: char)
    requires c != '/' && c != '.' && (c as int) < 0x80
    ensures FileSystem.Listed(dir, PieceFile(dir, c))
    ensures EntryError(PieceFile(dir, c)) == if c in CorrectThresholdKeys then None else Some(NotPiece([c]))
  {
    var name := [c] + ".png";
    assert AsciiLower(name)[1..] == ".png";
    assert name[..1] == [c];
    ImageEntry(dir, name);
  }

  /** The check on a path whose file name and stem are known. */
  lemma StemAccepted(p: string, name: string, stem: string)
    requires FileName(p) == Some(name) && FileStem(name) == stem
    requires |stem| == 1 && (stem[0] as int) < 0x80
    ensures EntryError(p) == if stem[0] in CorrectThresholdKeys then None else Some(NotPiece(stem))
  {
    assert Utf8Length(stem) == 1;
  }

  /** Distinct plain letters (no '/', no '.', ASCII). */
  predicate PlainLetters(letters: seq<char>)
  {
    (forall i :: 0 <= i < |letters| ==> letters[i] != '/' && letters[i] != '.' && (letters[i] as int) < 0x80)
    && forall i, j :: 0 <= i < j < |letters| ==> letters[i] != letters[j]
  }

  /** The image paths for `letters` in `dir`. */
  function PieceFiles(dir: string, letters: seq<char>): set<string>
  {
    set i | 0 <= i < |letters| :: PieceFile(dir, letters[i])
  }

  /** The directory entry and one image per letter: the listing is the images, one per letter. */
  lemma PieceDirListing(dir: string, letters: seq<char>)
    requires PlainLetters(letters)
    ensures FileSystem.PngUnder({dir} + PieceFiles(dir, letters), dir) == PieceFiles(dir, letters)
    ensures |PieceFiles(dir, letters)| == |letters|
  {
    var files := PieceFiles(dir, letters);
    forall i | 0 <= i < |letters|
      ensures FileSystem.Listed(dir, PieceFile(dir, letters[i]))
    {
      PieceFileEntry(dir, letters[i]);
    }
    assert !FileSystem.Listed(dir, dir);
    var paths := seq(|letters|, i requires 0 <= i < |letters| => PieceFile(dir, letters[i]));
    forall i, j | 0 <= i < j < |paths|
      ensures paths[i] != paths[j]
    {
      assert paths[i][|dir| + 1] == letters[i];
      assert paths[j][|dir| + 1] == letters[j];
    }
    forall e
      ensures e in paths <==> e in files
    {
      if e in files {
        var i :| 0 <= i < |letters| && e == PieceFile(dir, letters[i]);
        assert paths[i] == e;
      }
    }
    FileSystem.DistinctSize(paths, files);
  }

  /** A directory holding one image per piece letter passes (whichever platform directory it is). */
  lemma AllPiecesAccepted(dir: string)
    ensures PiecesValid({dir} + PieceFiles(dir, CorrectThresholdKeys), dir)
  {
    PieceDirListing(dir, CorrectThresholdKeys);
    forall i | 0 <= i < 12
      ensures EntryAccepted(PieceFile(dir, CorrectThresholdKeys[i]))
    {
      PieceFileEntry(dir, CorrectThresholdKeys[i]);
    }
  }

  /** A directory with a number of images other than twelve is refused for the count alone. */
  lemma WrongPieceCount(dir: string, letters: seq<char>, e: ConfigError)
    requires PlainLetters(letters) && |letters| != 12
    ensures !PiecesValid({dir} + PieceFiles(dir, letters), dir)
    ensures PiecesRefusal({dir} + PieceFiles(dir, letters), dir, e) <==> e == PieceCount
  {
    PieceDirListing(dir, letters);
  }

  /** Twelve images of which exactly one is not a piece letter: the error names that file's stem. */
  lemma OneWrongPiece(dir: string, letters: seq<char>, i: nat, e: ConfigError)
    requires PlainLetters(letters) && |letters| == 12 && i < 12
    requires letters[i] !in CorrectThresholdKeys
    requires forall j :: 0 <= j < 12 && j != i ==> letters[j] in CorrectThresholdKeys
    requires PiecesRefusal({dir} + PieceFiles(dir, letters), dir, e)
    ensures !PiecesValid({dir} + PieceFiles(dir, letters), dir)
    ensures e == NotPiece([letters[i]])
  {
    var keys := {dir} + PieceFiles(dir, letters);
    PieceDirListing(dir, letters);
    PieceFileEntry(dir, letters[i]);
    var k :| k in FileSystem.PngUnder(keys, dir) && EntryError(k) == Some(e);
    var j :| 0 <= j < |letters| && k == PieceFile(dir, letters[j]);
    PieceFileEntry(dir, letters[j]);
  }

  /** Stems need not differ: "p.png" and "p.PNG" are two listed paths that are both accepted. */
  lemma SameStemTwice(dir: string)
    ensures FileSystem.Listed(dir, dir + "/" + "p.png") && FileSystem.Listed(dir, dir + "/" + "p.PNG")
    ensures dir + "/" + "p.png" != dir + "/" + "p.PNG"
    ensures EntryAccepted(dir + "/" + "p.png") && EntryAccepted(dir + "/" + "p.PNG")
  {
    assert (dir + "/" + "p.png")[|dir| + 3] != (dir + "/" + "p.PNG")[|dir| + 3];
    assert AsciiLower("p.png")[1..] == ".png";
    assert AsciiLower("p.PNG")[1..] == ".png";
    ImageEntry(dir, "p.png");
    ImageEntry(dir, "p.PNG");
  }

  // ----- building and saving -----

  /**
   * `Config::new` on a given file system: region, thresholds and pieces are
   * checked in that order, the first error is returned, and on success the
   * fields are stored unchanged.
   */
  method New(platform: WebWrapper.WrapperMode, region: Region.ScreenRegion, thresholds: map<char, real>, customPieces: bool, fs: FileSystem.TestFileSystem)
    returns (r: Result<Config, ConfigError>)
    ensures r.Success? <==> ValidateRegion(region) == Pass && ThresholdsValid(thresholds) && PiecesValid(fs.files.Keys, PiecesDir(customPieces, platform))
    ensures r.Success? ==> r.value == Config(platform, region, thresholds, customPieces)
    ensures ValidateRegion(region).Fail? ==> r == Failure(ValidateRegion(region).error)
    ensures ValidateRegion(region) == Pass && !ThresholdsValid(thresholds) ==> r.Failure? && ThresholdRefusal(thresholds, r.error)
    ensures ValidateRegion(region) == Pass && ThresholdsValid(thresholds) && r.Failure? ==>
              PiecesRefusal(fs.files.Keys, PiecesDir(customPieces, platform), r.error)
  {
    var checked := ValidateRegion(region);
    if checked.Fail? {
      return Failure(checked.error);
    }
    checked := ValidateThresholds(thresholds);
    if checked.Fail? {
      return Failure(checked.error);
    }
    checked := ValidateCustomPieces(customPieces, platform, fs);
    if checked.Fail? {
      return Failure(checked.error);
    }
    return Success(Config(platform, region, thresholds, customPieces));
  }

  /**
   * `save_config`: the serialised configuration (`serialize` stands for the
   * JSON encoder) becomes the whole content of ".config.json", whether or not
   * the file was there; no other path changes, and an existing file is
   * rewritten in place rather than replaced.
   */
  method SaveConfig(config: Config, serialize: Config -> seq<Numeric.u8>, fs: FileSystem.TestFileSystem) returns (r: Outcome<string>)
    requires fs.Valid()
    modifies fs, fs.files.Values
    ensures fs.Valid()
    ensures r == Pass
    ensures fs.Exists(ConfigPath)
    ensures fs.Contents() == old(fs.Contents())[ConfigPath := serialize(config)]
    ensures old(ConfigPath in fs.files) ==> fs.files == old(fs.files)
  {
    var data := serialize(config);
    var present := fs.Exists(ConfigPath);
    var open := fs.Open(ConfigPath, present);
    // `open` with the answer of `exists` cannot fail on this file system.
    var file := open.value;
    ghost var afterOpen := fs.Contents();
    ghost var table := fs.files;
    file.WriteAll(data);
    forall q | q in fs.files && q != ConfigPath
      ensures fs.files[q].data == afterOpen[q]
    {
      assert fs.files[q] != file.file;
    }
    assert fs.files == table;
    assert file.file.data == data;
    assert fs.Contents().Keys == afterOpen.Keys;
    r := Pass;
  }

  // ----- the built-in wrapper settings -----

  /** The chess.com default region passes the region check. */
  lemma DefaultRegionValid()
    ensures ValidateRegion(WebWrapper.GetRegion(WebWrapper.Default())) == Pass
  {
  }

  /** The chess.com default thresholds cover exactly the twelve letters, all inside (0, 2). */
  lemma DefaultThresholdsValid()
    ensures ThresholdsValid(WebWrapper.GetThresholds(WebWrapper.Default()))
  {
    var m := WebWrapper.GetThresholds(WebWrapper.Default());
    DefaultKeys();
    DefaultValues();
    ThresholdsValidMeaning(m);
  }

  lemma DefaultKeys()
    ensures WebWrapper.GetThresholds(WebWrapper.Default()).Keys == KeySet()
  {
  }

  lemma DefaultValues()
    ensures forall k :: k in WebWrapper.GetThresholds(WebWrapper.Default()) ==> 0.0 < WebWrapper.GetThresholds(WebWrapper.Default())[k] < 2.0
  {
  }
}
