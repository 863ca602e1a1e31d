/**
 * The `.rewordle` file: the text `save` writes, the line validation and
 * defaults of `load_rewordle` and `read`, and the parsing of the stored
 * lines into the starting record (`main`).
 *
 * The file system is a parameter: `None` stands for a file that is missing
 * or cannot be read, `Some(text)` for its contents.
 */
module Storage {
  import opened Text
  import opened Game

  // ---------------------------------------------------------------------
  // save
  // ---------------------------------------------------------------------

  function Decimals(xs: seq<nat>): (r: seq<string>)
    ensures |r| == |xs| && forall k :: 0 <= k < |xs| ==> r[k] == NatToString(xs[k])
  {
    seq(|xs|, k requires 0 <= k < |xs| => NatToString(xs[k]))
  }

  /** The first saved line: the counters in decimal, joined by ':'. */
  function ResultsLine(results: seq<nat>): string
  {
    Join(Decimals(results), ':')
  }

  function StreakLine(streak: (nat, nat)): string
  {
    NatToString(streak.0) + ":" + NatToString(streak.1)
  }

  /** `save`: counters, newline, "current:max", newline, word index; no final newline. */
  function SaveText(results: seq<nat>, streak: (nat, nat), wordIndex: nat): (text: string)
    ensures Lines(text) == [ResultsLine(results), StreakLine(streak), NatToString(wordIndex)]
  {
    ResultsLinePlain(results);
    StreakLinePlain(streak);
    NumberPlain(wordIndex);
    LinesOfThree(ResultsLine(results), StreakLine(streak), NatToString(wordIndex));
    ResultsLine(results) + "\n" + StreakLine(streak) + "\n" + NatToString(wordIndex)
  }

  // ---------------------------------------------------------------------
  // load_rewordle / read
  // ---------------------------------------------------------------------

  /** `^\d+$` */
  predicate LineOne(s: string)
    ensures LineOne(s) ==> !LineTwo(s) && !LineSeven(s)
  {
    if IsDigits(s) then
      assert ':' !in s by {
        forall k | 0 <= k < |s| ensures s[k] != ':' {
          assert IsDigit(s[k]);
        }
      }
      SplitNoSeparator(s, ':');
      true
    else false
  }

  /** `^\d+:\d+$` */
  predicate LineTwo(s: string)
  {
    var parts := Split(s, ':');
    |parts| == 2 && IsDigits(parts[0]) && IsDigits(parts[1])
  }

  /** `^\d+(:\d+){6}$` */
  predicate LineSeven(s: string)
  {
    var parts := Split(s, ':');
    |parts| == 7 && forall k :: 0 <= k < 7 ==> IsDigits(parts[k])
  }

  predicate ValidLine(s: string)
  {
    LineOne(s) || LineTwo(s) || LineSeven(s)
  }

  predicate AllValid(lines: seq<string>)
  {
    forall k :: 0 <= k < |lines| ==> ValidLine(lines[k])
  }

  /** The file's lines, each trimmed. */
  function TrimmedLines(text: string): (lines: seq<string>)
    ensures |lines| == |Lines(text)| && forall k :: 0 <= k < |lines| ==> lines[k] == Trim(Lines(text)[k])
  {
    var raw := Lines(text);
    seq(|raw|, k requires 0 <= k < |raw| => Trim(raw[k]))
  }

  /** `read`'s defaults: no games played, no streak, the first word. */
  const Defaults: seq<string> := ["0:0:0:0:0:0:0", "0:0", "0"]

  /**
   * `load_rewordle`: the trimmed lines when every one of them has one of the
   * three shapes, whatever its position; the defaults otherwise, and when
   * there is no file to read.
   */
  function LoadRewordle(file: Option<string>, defaults: seq<string>): (lines: seq<string>)
    ensures lines == defaults || AllValid(lines)
    ensures file.None? ==> lines == defaults
  {
    match file
    case None => defaults
    case Some(text) =>
      var lines := TrimmedLines(text);
      if AllValid(lines) then lines else defaults
  }

  /** `read` */
  function Read(file: Option<string>): (lines: seq<string>)
    ensures AllValid(lines)
  {
    DefaultsValid();
    LoadRewordle(file, Defaults)
  }

  lemma DefaultsValid()
    ensures |Defaults| == 3 && LineSeven(Defaults[0]) && LineTwo(Defaults[1]) && LineOne(Defaults[2])
    ensures AllValid(Defaults)
  {
    ZerosLine();
    StreakLineValid((0, 0));
    assert StreakLine((0, 0)) == Defaults[1];
  }

  /** `n` zeros joined by ':'. */
  function ZerosText(n: nat): string
    requires n >= 1
  {
    if n == 1 then "0" else "0:" + ZerosText(n - 1)
  }

  lemma {:induction false} ZerosSplit(n: nat)
    requires n >= 1
    ensures Split(ZerosText(n), ':') == seq(n, _ => "0")
  {
    if n == 1 {
      SplitNoSeparator("0", ':');
    } else {
      ZerosSplit(n - 1);
      SplitAfterPiece("0", ZerosText(n - 1), ':');
      assert "0:" + ZerosText(n - 1) == "0" + [':'] + ZerosText(n - 1);
    }
  }

  /** The default counter line splits into seven zeros. */
  lemma ZerosLine()
    ensures LineSeven(Defaults[0])
  {
    ZerosSplit(7);
    assert ZerosText(7) == Defaults[0];
  }

  /** A missing or unreadable file reads as the defaults. */
  lemma MissingFileReadsDefaults()
    ensures Read(None) == Defaults
  {
  }

  /** One line of any other shape, an empty one included, throws the whole file away. */
  lemma InvalidLineReadsDefaults(text: string, k: nat)
    requires k < |TrimmedLines(text)| && !ValidLine(TrimmedLines(text)[k])
    ensures Read(Some(text)) == Defaults
  {
  }

  // ---------------------------------------------------------------------
  // main: from stored lines to the starting record
  // ---------------------------------------------------------------------

  /** What `main` parses out of the stored lines. */
  datatype Stats = Stats(results: seq<nat>, streak: (nat, nat), wordIndex: nat)

  /** `s.parse::<u32>().unwrap_or(0)` */
  function ParseOr0(s: string, bound: nat): (n: nat)
    ensures n < bound || n == 0
  {
    match ParseUnsigned(s, bound)
    case Some(v) => v
    case None => 0
  }

  /** `line.split(':').nth(n).and_then(|s| s.parse().ok()).unwrap_or(0)` */
  function Field(line: string, n: nat): (v: nat)
    ensures v < U32_BOUND
    ensures n >= |Split(line, ':')| ==> v == 0
  {
    var parts := Split(line, ':');
    if n < |parts| then ParseOr0(parts[n], U32_BOUND) else 0
  }

  /** One counter per ':'-separated field, as many as there are fields, each 0 when it does not parse. */
  function ParseResults(line: string): (results: seq<nat>)
    ensures |results| == |Split(line, ':')|
    ensures forall k :: 0 <= k < |results| ==> results[k] == ParseOr0(Split(line, ':')[k], U32_BOUND)
  {
    var parts := Split(line, ':');
    seq(|parts|, k requires 0 <= k < |parts| => ParseOr0(parts[k], U32_BOUND))
  }

  /** `main` indexes the first three stored lines. */
  function ParseStored(lines: seq<string>): (stats: Stats)
    requires |lines| >= 3
    ensures |stats.results| >= 1
    ensures stats.streak.0 < U32_BOUND && stats.streak.1 < U32_BOUND && stats.wordIndex < USIZE_BOUND
  {
    Stats(ParseResults(lines[0]), (Field(lines[1], 0), Field(lines[1], 1)), ParseOr0(lines[2], USIZE_BOUND))
  }

  /** The record `main` starts from: the viewport at the origin, a blank board, the stored statistics. */
  function InitialState(stats: Stats, play: seq<string>): (s: State)
    requires stats.wordIndex < |play|
    ensures s.answer == play[stats.wordIndex] && s.game == InPlay && s.inPlay == 0
    ensures s.results == stats.results && s.streak == stats.streak && s.wordIndex == stats.wordIndex
    ensures s.status == EmptyBoard && s.used == [] && !s.exitFlag && s.wordStatus == Pending
  {
    State(0, 0, InPlay, stats.wordIndex, play[stats.wordIndex], EmptyBoard, 0, [], stats.results,
          stats.streak, false, Pending)
  }

  // ---------------------------------------------------------------------
  // The round trip
  // ---------------------------------------------------------------------

  lemma NoWhitespaceInNumber(n: nat)
    ensures forall i :: 0 <= i < |NatToString(n)| ==> !IsWhitespace(NatToString(n)[i]) && NatToString(n)[i] != ':'
  {
  }

  lemma ResultsLineChars(results: seq<nat>)
    ensures forall i :: 0 <= i < |ResultsLine(results)| ==>
              var c := ResultsLine(results)[i];
              c == ':' || IsDigit(c)
  {
    var parts := Decimals(results);
    var line := ResultsLine(results);
    forall i | 0 <= i < |line| && line[i] != ':'
      ensures IsDigit(line[i])
    {
      var k :| 0 <= k < |parts| && line[i] in parts[k];
    }
  }

  lemma StreakLineSplit(streak: (nat, nat))
    ensures Split(StreakLine(streak), ':') == [NatToString(streak.0), NatToString(streak.1)]
  {
    var a := NatToString(streak.0);
    var b := NatToString(streak.1);
    SplitAfterPiece(a, b, ':');
    SplitNoSeparator(b, ':');
  }

  lemma ResultsLinePlain(results: seq<nat>)
    ensures Trim(ResultsLine(results)) == ResultsLine(results) && '\n' !in ResultsLine(results)
  {
    ResultsLineChars(results);
    TrimNoWhitespace(ResultsLine(results));
  }

  lemma StreakLinePlain(streak: (nat, nat))
    ensures Trim(StreakLine(streak)) == StreakLine(streak) && '\n' !in StreakLine(streak)
  {
    NoWhitespaceInNumber(streak.0);
    NoWhitespaceInNumber(streak.1);
    TrimNoWhitespace(StreakLine(streak));
  }

  lemma NumberPlain(n: nat)
    ensures Trim(NatToString(n)) == NatToString(n) && '\n' !in NatToString(n) && NatToString(n) != ""
  {
    NoWhitespaceInNumber(n);
    TrimNoWhitespace(NatToString(n));
  }

  /** The text `save` writes has exactly three lines, each already trimmed. */
  lemma SavedLines(results: seq<nat>, streak: (nat, nat), wordIndex: nat)
    ensures TrimmedLines(SaveText(results, streak, wordIndex)) ==
              [ResultsLine(results), StreakLine(streak), NatToString(wordIndex)]
  {
    var a := ResultsLine(results);
    var b := StreakLine(streak);
    var c := NatToString(wordIndex);
    ResultsLinePlain(results);
    StreakLinePlain(streak);
    NumberPlain(wordIndex);
    TrimmedThree(a, b, c);
  }

  lemma TrimmedThree(a: string, b: string, c: string)
    requires '\n' !in a && '\n' !in b && '\n' !in c && c != ""
    requires Trim(a) == a && Trim(b) == b && Trim(c) == c
    ensures TrimmedLines(a + "\n" + b + "\n" + c) == [a, b, c]
  {
    LinesOfThree(a, b, c);
    var t := TrimmedLines(a + "\n" + b + "\n" + c);
    assert |t| == 3 && t[0] == a && t[1] == b && t[2] == c;
  }

  lemma ResultsLineValid(results: seq<nat>)
    requires |results| == 7
    ensures Split(ResultsLine(results), ':') == Decimals(results)
    ensures LineSeven(ResultsLine(results))
  {
    SplitJoin(Decimals(results), ':');
  }

  lemma StreakLineValid(streak: (nat, nat))
    ensures LineTwo(StreakLine(streak))
  {
    StreakLineSplit(streak);
  }

  /**
   * For seven counters, what `save` writes validates line by line and reads
   * back unchanged.
   */
  lemma SaveThenRead(results: seq<nat>, streak: (nat, nat), wordIndex: nat)
    requires |results| == 7
    ensures Read(Some(SaveText(results, streak, wordIndex))) ==
              [ResultsLine(results), StreakLine(streak), NatToString(wordIndex)]
  {
    var lines := [ResultsLine(results), StreakLine(streak), NatToString(wordIndex)];
    SavedLines(results, streak, wordIndex);
    SavedLinesValid(results, streak, wordIndex);
    ReadValidText(SaveText(results, streak, wordIndex), lines);
  }

  lemma SavedLinesValid(results: seq<nat>, streak: (nat, nat), wordIndex: nat)
    requires |results| == 7
    ensures AllValid([ResultsLine(results), StreakLine(streak), NatToString(wordIndex)])
  {
    var lines := [ResultsLine(results), StreakLine(streak), NatToString(wordIndex)];
    ResultsLineValid(results);
    StreakLineValid(streak);
    assert ValidLine(lines[0]) && ValidLine(lines[1]) && ValidLine(lines[2]);
  }

  lemma ThreeValid(a: string, b: string, c: string)
    requires ValidLine(a) && ValidLine(b) && ValidLine(c)
    ensures AllValid([a, b, c])
  {
  }

  /** A file whose trimmed lines are all valid reads as those lines. */
  lemma ReadValidText(text: string, lines: seq<string>)
    requires TrimmedLines(text) == lines && AllValid(lines)
    ensures Read(Some(text)) == lines
  {
  }

  /**
   * Parsing the text `save` wrote gives back the counters, the streak and
   * the word index, when each fits the integer type it is parsed as.
   */
  lemma SaveParseRoundTrip(results: seq<nat>, streak: (nat, nat), wordIndex: nat)
    requires |results| == 7 && forall k :: 0 <= k < 7 ==> results[k] < U32_BOUND
    requires streak.0 < U32_BOUND && streak.1 < U32_BOUND && wordIndex < USIZE_BOUND
    ensures var lines := Read(Some(SaveText(results, streak, wordIndex)));
            |lines| == 3 && ParseStored(lines) == Stats(results, streak, wordIndex)
  {
    SaveThenRead(results, streak, wordIndex);
    CountersRoundTrip(results);
    StreakRoundTrip(streak);
    ParsePrinted(wordIndex, USIZE_BOUND);
  }

  lemma CountersRoundTrip(results: seq<nat>)
    requires |results| == 7 && forall k :: 0 <= k < 7 ==> results[k] < U32_BOUND
    ensures ParseResults(ResultsLine(results)) == results
  {
    ResultsLineValid(results);
    var parsed := ParseResults(ResultsLine(results));
    forall k | 0 <= k < 7
      ensures parsed[k] == results[k]
    {
      ParsePrinted(results[k], U32_BOUND);
    }
  }

  lemma StreakRoundTrip(streak: (nat, nat))
    requires streak.0 < U32_BOUND && streak.1 < U32_BOUND
    ensures Field(StreakLine(streak), 0) == streak.0 && Field(StreakLine(streak), 1) == streak.1
  {
    StreakLineSplit(streak);
    ParsePrinted(streak.0, U32_BOUND);
    ParsePrinted(streak.1, U32_BOUND);
  }

  // ---------------------------------------------------------------------
  // Shapes the validation lets through
  // ---------------------------------------------------------------------

  /** An empty file passes the vacuous check and reads as no lines at all, so `main` has no line to index. */
  lemma EmptyFileReadsNoLines()
    ensures Read(Some("")) == []
    ensures |Read(Some(""))| < 3
  {
    LinesOfEmpty();
  }

  /**
   * The check is blind to position: a file of three one-number lines is
   * accepted, and the counters parsed from it are a single number rather
   * than seven.
   */
  lemma UnshapedLinesAccepted(x: nat, y: nat, z: nat)
    ensures var lines := Read(Some(NatToString(x) + "\n" + NatToString(y) + "\n" + NatToString(z)));
            lines == [NatToString(x), NatToString(y), NatToString(z)] && |ParseStored(lines).results| == 1
  {
    var a, b, c := NatToString(x), NatToString(y), NatToString(z);
    NumberPlain(x);
    NumberPlain(y);
    NumberPlain(z);
    TrimmedThree(a, b, c);
    ThreeValid(a, b, c);
    ReadValidText(a + "\n" + b + "\n" + c, [a, b, c]);
    NoWhitespaceInNumber(x);
    SplitNoSeparator(a, ':');
  }

  /**
   * The stored lines, accepted only in the shape `save` writes them: three
   * lines, the seven counters first, the streak pair next, the word index
   * last; anything else reads as the defaults.
   */
  function ReadChecked(file: Option<string>): (lines: seq<string>)
    ensures |lines| == 3 && LineSeven(lines[0]) && LineTwo(lines[1]) && LineOne(lines[2])
  {
    var lines := Read(file);
    DefaultsValid();
    if |lines| == 3 && LineSeven(lines[0]) && LineTwo(lines[1]) && LineOne(lines[2]) then lines
    else Defaults
  }

  /** Whatever the file holds, the checked lines parse into seven counters. */
  lemma CheckedParsesSeven(file: Option<string>)
    ensures |ParseStored(ReadChecked(file)).results| == 7
  {
  }

  /** The checked read keeps every file `save` wrote for seven counters. */
  lemma SaveThenReadChecked(results: seq<nat>, streak: (nat, nat), wordIndex: nat)
    requires |results| == 7
    ensures ReadChecked(Some(SaveText(results, streak, wordIndex))) == Read(Some(SaveText(results, streak, wordIndex)))
  {
    SaveThenRead(results, streak, wordIndex);
    ResultsLineValid(results);
    StreakLineValid(streak);
  }

  /** The record the game starts from, built from the checked lines. */
  function Startup(file: Option<string>, play: seq<string>): (s: State)
    requires ParseStored(ReadChecked(file)).wordIndex < |play|
    ensures Wf(s) && s.game == InPlay && s.inPlay == 0
  {
    CheckedParsesSeven(file);
    NewWf(InitialState(ParseStored(ReadChecked(file)), play));
    InitialState(ParseStored(ReadChecked(file)), play)
  }

  /**
   * The record `main` starts from as written: the lines come from `read`
   * unchecked, and `main` indexes the first three of them. The start is well
   * formed exactly when the first line holds seven fields.
   */
  function StartupAsWritten(file: Option<string>, play: seq<string>): (s: State)
    requires |Read(file)| >= 3 && ParseStored(Read(file)).wordIndex < |play|
    ensures s.game == InPlay && s.inPlay == 0 && s.status == EmptyBoard && s.used == []
    ensures |s.results| == |Split(Read(file)[0], ':')|
    ensures Wf(s) <==> |Split(Read(file)[0], ':')| == 7
  {
    var s := InitialState(ParseStored(Read(file)), play);
    if |s.results| == 7 then NewWf(s); s else s
  }

  /** On every file `save` wrote, `main` as written starts where the checked start does. */
  lemma StartupOnSavedFile(results: seq<nat>, streak: (nat, nat), wordIndex: nat, play: seq<string>)
    requires |results| == 7 && forall k :: 0 <= k < 7 ==> results[k] < U32_BOUND
    requires streak.0 < U32_BOUND && streak.1 < U32_BOUND && wordIndex < USIZE_BOUND && wordIndex < |play|
    ensures var file := Some(SaveText(results, streak, wordIndex));
            && |Read(file)| >= 3 && ParseStored(Read(file)).wordIndex < |play|
            && ParseStored(ReadChecked(file)).wordIndex < |play|
            && StartupAsWritten(file, play) == Startup(file, play)
            && StartupAsWritten(file, play).results == results
            && StartupAsWritten(file, play).streak == streak
            && StartupAsWritten(file, play).answer == play[wordIndex]
  {
    SaveParseRoundTrip(results, streak, wordIndex);
    SaveThenReadChecked(results, streak, wordIndex);
  }

  /**
   * On a file whose first line holds one field, `main` as written starts
   * with a single counter, which no later index of `results` survives; the
   * checked start falls back to the seven zero counters of the first word.
   */
  lemma StartupOnOneCounter(file: Option<string>, play: seq<string>)
    requires |Read(file)| >= 3 && |Split(Read(file)[0], ':')| == 1
    requires ParseStored(Read(file)).wordIndex < |play|
    ensures |StartupAsWritten(file, play).results| == 1 && !Wf(StartupAsWritten(file, play))
    ensures ReadChecked(file) == Defaults && ParseStored(ReadChecked(file)).wordIndex == 0
    ensures |Startup(file, play).results| == 7
  {
    ShortFirstLineChecked(file);
    DefaultsIndex();
  }

  /** A file of three one-number lines, such as "0\n0\n0", is such a file. */
  lemma StartupOnUnshapedFile(x: nat, y: nat, z: nat, play: seq<string>)
    requires z < USIZE_BOUND && z < |play|
    ensures var file := Some(NatToString(x) + "\n" + NatToString(y) + "\n" + NatToString(z));
            && |Read(file)| >= 3 && |Split(Read(file)[0], ':')| == 1
            && ParseStored(Read(file)).wordIndex == z
  {
    var file := Some(NatToString(x) + "\n" + NatToString(y) + "\n" + NatToString(z));
    UnshapedLinesAccepted(x, y, z);
    LastLineIndex(Read(file), z);
  }

  lemma LastLineIndex(lines: seq<string>, z: nat)
    requires |lines| == 3 && lines[2] == NatToString(z) && z < USIZE_BOUND
    ensures ParseStored(lines).wordIndex == z
  {
    ParsePrinted(z, USIZE_BOUND);
  }

  /** A first line without seven fields sends the checked read to the defaults. */
  lemma ShortFirstLineChecked(file: Option<string>)
    requires |Read(file)| >= 3 && |ParseStored(Read(file)).results| != 7
    ensures ReadChecked(file) == Defaults
  {
  }

  /** The default lines point at the first word. */
  lemma DefaultsIndex()
    ensures ParseStored(Defaults).wordIndex == 0
  {
    ParsePrinted(0, USIZE_BOUND);
    assert NatToString(0) == Defaults[2];
  }

  lemma NewWf(s: State)
    requires s.status == EmptyBoard && s.used == [] && s.game == InPlay && s.inPlay == 0 && |s.results| == 7
    ensures Wf(s)
  {
    RowLettersEmpty(EmptyBoard);
  }
}
