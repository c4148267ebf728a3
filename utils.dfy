/**
 * The helpers of src/utils.py: the folder identifier check and its prompt loop,
 * file-name sanitising, the 12-hour clock rendering of timestamps and the
 * composition of backup file names.
 */
module Utils {
  import opened Wrappers
  import opened Text
  import opened Paths

  // ---------------------------------------------------------------------------
  // Folder identifiers: re.match(r'^\d{2}-\d{2}$', name)
  // ---------------------------------------------------------------------------

  /**
   * The regular expression `^\d{2}-\d{2}$` tried with `re.match`: two digits, a
   * hyphen and two digits, after which `$` accepts the end of the string or a
   * single newline that ends it. Digits are the ASCII ones.
   */
  predicate FolderPatternMatch(s: string) {
    && (|s| == 5 || (|s| == 6 && s[5] == '\n'))
    && IsAsciiDigit(s[0]) && IsAsciiDigit(s[1])
    && s[2] == '-'
    && IsAsciiDigit(s[3]) && IsAsciiDigit(s[4])
  }

  /** The identifier of the pair of two-digit numbers `(a, b)`. */
  function FolderId(a: nat, b: nat): (s: string)
    requires a < 100 && b < 100
    ensures |s| == 5 && FolderPatternMatch(s)
  {
    Pad2(a) + "-" + Pad2(b)
  }

  /** The two numbers an identifier names. */
  function ParseFolderId(s: string): (ab: (nat, nat))
    requires FolderPatternMatch(s)
    ensures ab.0 < 100 && ab.1 < 100
  {
    (10 * DigitValue(s[0]) + DigitValue(s[1]), 10 * DigitValue(s[3]) + DigitValue(s[4]))
  }

  lemma Pad2OfDigits(x: nat, y: nat)
    requires x < 10 && y < 10
    ensures Pad2(10 * x + y) == [Digit(x), Digit(y)]
  {
    assert (10 * x + y) / 10 == x;
    assert (10 * x + y) % 10 == y;
  }

  /** Every pair of two-digit numbers has an identifier, and reading it back gives the pair. */
  lemma FolderIdParses(a: nat, b: nat)
    requires a < 100 && b < 100
    ensures ParseFolderId(FolderId(a, b)) == (a, b)
  {
  }

  /** Every accepted identifier without the trailing newline is the rendering of the pair it denotes. */
  lemma FolderIdRendersParsed(s: string)
    requires FolderPatternMatch(s) && |s| == 5
    ensures FolderId(ParseFolderId(s).0, ParseFolderId(s).1) == s
  {
    Pad2OfDigits(DigitValue(s[0]), DigitValue(s[1]));
    Pad2OfDigits(DigitValue(s[3]), DigitValue(s[4]));
  }

  /** The operator examples: one accepted identifier and the rejected near misses. */
  lemma FolderPatternExamples()
    ensures FolderPatternMatch("01-04") && FolderPatternMatch("01-04\n")
    ensures !FolderPatternMatch("1-04") && !FolderPatternMatch("01-4") && !FolderPatternMatch("ab-04")
    ensures !FolderPatternMatch("01_04") && !FolderPatternMatch("") && !FolderPatternMatch("01-04 ")
  {
  }

  /** A stripped line never ends in a newline, so the identifiers the prompt accepts have five characters. */
  lemma StrippedMatchHasFiveChars(line: string)
    requires FolderPatternMatch(StripSpace(line))
    ensures |StripSpace(line)| == 5
  {
    var s := StripSpace(line);
    StripShape(line, IsSpace);
    assert !IsSpace(s[|s| - 1]);
  }

  datatype ValidationError = ValidationError(message: string)

  const FolderFormatMessage := "Folder name must be in format XX-XX (e.g., 01-04)"

  /** `validate_folder_name`: returns True on a match and raises ValidationError otherwise. */
  function ValidateFolderName(folderName: string): (r: Result<bool, ValidationError>)
    ensures r.Ok? <==> FolderPatternMatch(folderName)
    ensures r.Ok? ==> r.value
    ensures r.Err? ==> r.error.message == FolderFormatMessage
  {
    if FolderPatternMatch(folderName) then Ok(true) else Err(ValidationError(FolderFormatMessage))
  }

  /** `input()` raises EOFError once the console has no more lines. */
  datatype InputError = EndOfInput

  /** A console line the prompt accepts: it validates once stripped. */
  predicate Accepted(line: string) {
    FolderPatternMatch(StripSpace(line))
  }

  /** The index of the first line from `from` on that the prompt accepts, if any. */
  function FirstValidLine(lines: seq<string>, from: nat): (r: Option<nat>)
    requires from <= |lines|
    decreases |lines| - from
    ensures r.Some? ==>
      && from <= r.value < |lines|
      && Accepted(lines[r.value])
      && forall k :: from <= k < r.value ==> !Accepted(lines[k])
    ensures r.None? ==> forall k :: from <= k < |lines| ==> !Accepted(lines[k])
  {
    if from == |lines| then None
    else if Accepted(lines[from]) then Some(from)
    else FirstValidLine(lines, from + 1)
  }

  /**
   * What the prompt loop makes of the console lines: the identifier it returns
   * (or the end of input) and the lines it leaves unread.
   */
  function PromptFolderName(lines: seq<string>): (Result<string, InputError>, seq<string>) {
    match FirstValidLine(lines, 0)
    case Some(i) => (Ok(StripSpace(lines[i])), lines[i + 1..])
    case None => (Err(EndOfInput), [])
  }

  /**
   * `get_valid_folder_name`: read console lines until one, stripped, validates.
   * `consumed` is how many lines were read. The result is the first valid
   * stripped line; every earlier line was rejected. When the lines run out
   * first, the EOFError of `input()` propagates.
   */
  method GetValidFolderName(lines: seq<string>) returns (r: Result<string, InputError>, consumed: nat)
    ensures consumed <= |lines|
    ensures forall k :: 0 <= k < |lines| && k + 1 < consumed ==> !Accepted(lines[k])
    ensures r.Ok? ==>
      && 0 < consumed
      && r.value == StripSpace(lines[consumed - 1])
      && ValidateFolderName(r.value) == Ok(true)
      && |r.value| == 5
    ensures r.Err? ==> consumed == |lines| && forall k :: 0 <= k < |lines| ==> !Accepted(lines[k])
    ensures (r, lines[consumed..]) == PromptFolderName(lines)
  {
    consumed := 0;
    while consumed < |lines|
      invariant consumed <= |lines|
      invariant FirstValidLine(lines, consumed) == FirstValidLine(lines, 0)
      invariant forall k :: 0 <= k < consumed ==> !Accepted(lines[k])
    {
      var folderName := StripSpace(lines[consumed]);
      consumed := consumed + 1;
      var v := ValidateFolderName(folderName);
      if v.Ok? {
        StrippedMatchHasFiveChars(lines[consumed - 1]);
        r := Ok(folderName);
        return;
      }
    }
    r := Err(EndOfInput);
    assert lines[consumed..] == [];
  }

  // ---------------------------------------------------------------------------
  // sanitize_filename
  // ---------------------------------------------------------------------------

  /** The characters of the class `[<>:"/\\|?*]`. */
  predicate IsInvalidChar(c: char) {
    c == '<' || c == '>' || c == ':' || c == '"' || c == '/' || c == '\\' || c == '|' || c == '?' || c == '*'
  }

  /** The characters `strip('. ')` removes. */
  predicate IsDotOrSpace(c: char) {
    c == '.' || c == ' '
  }

  /** `re.sub(invalid_chars, '_', s)`: same length, each invalid character becomes `_`, others stay. */
  function ReplaceInvalid(s: string): (r: string)
    ensures |r| == |s|
    ensures forall k :: 0 <= k < |s| && IsInvalidChar(s[k]) ==> r[k] == '_'
    ensures forall k :: 0 <= k < |s| && !IsInvalidChar(s[k]) ==> r[k] == s[k]
  {
    if s == [] then []
    else [if IsInvalidChar(s[0]) then '_' else s[0]] + ReplaceInvalid(s[1..])
  }

  const UnnamedFile := "unnamed_file"

  /** A name `sanitize_filename` would produce: non-empty, no invalid character, no dot or space at either end. */
  predicate IsCleanFilename(s: string) {
    && s != []
    && (forall k :: 0 <= k < |s| ==> !IsInvalidChar(s[k]))
    && IsTrimmed(s, IsDotOrSpace)
  }

  /** Stripping dots and spaces from a name without invalid characters leaves a trimmed name without them. */
  lemma StripKeepsValidChars(s: string)
    requires forall k :: 0 <= k < |s| ==> !IsInvalidChar(s[k])
    ensures var r := Strip(s, IsDotOrSpace);
      IsTrimmed(r, IsDotOrSpace) && forall k :: 0 <= k < |r| ==> !IsInvalidChar(r[k])
  {
    StripShape(s, IsDotOrSpace);
    var r, i := Strip(s, IsDotOrSpace), LeadingCount(s, IsDotOrSpace);
    forall k | 0 <= k < |r| ensures !IsInvalidChar(r[k]) {
      assert r[k] == s[i + k];
    }
  }

  /** `sanitize_filename`. */
  function SanitizeFilename(filename: string): (r: string)
    ensures IsCleanFilename(r)
  {
    var replaced := ReplaceInvalid(filename);
    StripKeepsValidChars(replaced);
    var trimmed := Strip(replaced, IsDotOrSpace);
    if trimmed == "" then UnnamedFile else trimmed
  }

  /** Every character is a dot or a space. */
  predicate AllDotOrSpace(t: string) {
    forall k :: 0 <= k < |t| ==> IsDotOrSpace(t[k])
  }

  /**
   * The sanitised name is the replaced name with its leading and trailing dots
   * and spaces cut off, and `unnamed_file` exactly when the replaced name has
   * nothing but dots and spaces.
   */
  lemma SanitizeIsStrippedReplacement(s: string)
    ensures AllDotOrSpace(ReplaceInvalid(s)) ==> SanitizeFilename(s) == UnnamedFile
    ensures !AllDotOrSpace(ReplaceInvalid(s)) ==> SanitizeFilename(s) == Strip(ReplaceInvalid(s), IsDotOrSpace) != ""
  {
    var t := ReplaceInvalid(s);
    var stripped := Strip(t, IsDotOrSpace);
    assert SanitizeFilename(s) == if stripped == "" then UnnamedFile else stripped;
    StripEmptyIff(t, IsDotOrSpace);
    var p: char -> bool := IsDotOrSpace;
    if AllDotOrSpace(t) {
      forall k | 0 <= k < |t| ensures p(t[k]) {
        assert IsDotOrSpace(t[k]);
      }
    } else {
      var k :| 0 <= k < |t| && !IsDotOrSpace(t[k]);
      assert !p(t[k]);
    }
  }

  /** Sanitising leaves a name alone exactly when it is already clean. */
  lemma SanitizeIdentityIff(s: string)
    ensures SanitizeFilename(s) == s <==> IsCleanFilename(s)
  {
    if IsCleanFilename(s) {
      assert ReplaceInvalid(s) == s;
      StripIdentityIff(s, IsDotOrSpace);
    }
  }

  /** Sanitising twice is sanitising once. */
  lemma SanitizeIdempotent(s: string)
    ensures SanitizeFilename(SanitizeFilename(s)) == SanitizeFilename(s)
  {
    SanitizeIdentityIff(SanitizeFilename(s));
  }

  // ---------------------------------------------------------------------------
  // format_timestamp: strftime("%I:%M:%S %p")
  // ---------------------------------------------------------------------------

  type Hour = h: int | 0 <= h < 24
  type Sexagesimal = m: int | 0 <= m < 60

  /** The time-of-day fields of a `datetime`, the only ones `%I:%M:%S %p` reads. */
  datatype Clock = Clock(hour: Hour, minute: Sexagesimal, second: Sexagesimal)

  /** `%I`: the hour on the 12-hour clock, as ISO C's strftime defines it. */
  function Hour12(h: Hour): (r: int)
    ensures 1 <= r <= 12
    ensures h == 0 ==> r == 12
    ensures 1 <= h <= 12 ==> r == h
    ensures 13 <= h ==> r == h - 12
  {
    if h % 12 == 0 then 12 else h % 12
  }

  /** `%p` in the C locale. */
  function Meridiem(h: Hour): string {
    if h < 12 then "AM" else "PM"
  }

  /** `strftime("%I:%M:%S %p")`. */
  function FormatClock(t: Clock): (r: string)
    ensures |r| == 11 && r[2] == ':' && r[5] == ':' && r[8] == ' '
    ensures r[9..] == Meridiem(t.hour)
  {
    Pad2(Hour12(t.hour)) + ":" + Pad2(t.minute) + ":" + Pad2(t.second) + " " + Meridiem(t.hour)
  }

  /** The value of two digits at `s[i]`, `s[i + 1]`. */
  function TwoDigits(s: string, i: nat): nat
    requires i + 1 < |s| && IsAsciiDigit(s[i]) && IsAsciiDigit(s[i + 1])
  {
    10 * DigitValue(s[i]) + DigitValue(s[i + 1])
  }

  /** Reading a 12-hour rendering back as a time of day: the inverse of `FormatClock`. */
  function ParseClock(s: string): Option<Clock> {
    if && |s| == 11
       && IsAsciiDigit(s[0]) && IsAsciiDigit(s[1]) && s[2] == ':'
       && IsAsciiDigit(s[3]) && IsAsciiDigit(s[4]) && s[5] == ':'
       && IsAsciiDigit(s[6]) && IsAsciiDigit(s[7]) && s[8] == ' '
       && (s[9..] == "AM" || s[9..] == "PM")
    then
      var h12, m, sec := TwoDigits(s, 0), TwoDigits(s, 3), TwoDigits(s, 6);
      if 1 <= h12 <= 12 && m < 60 && sec < 60 then
        var h := if s[9..] == "AM" then (if h12 == 12 then 0 else h12) else (if h12 == 12 then 12 else h12 + 12);
        Some(Clock(h, m, sec))
      else None
    else None
  }

  lemma TwoDigitsOfPad2(s: string, i: nat, n: nat)
    requires n < 100 && i + 1 < |s| && s[i..i + 2] == Pad2(n)
    ensures IsAsciiDigit(s[i]) && IsAsciiDigit(s[i + 1]) && TwoDigits(s, i) == n
  {
    assert s[i] == Pad2(n)[0] && s[i + 1] == Pad2(n)[1];
  }

  /** The fields of a joined rendering sit at offsets 0, 3, 6 and 9. */
  lemma JoinedClockFields(h: string, m: string, sec: string, p: string)
    requires |h| == 2 && |m| == 2 && |sec| == 2
    ensures var s := h + ":" + m + ":" + sec + " " + p;
      s[0..2] == h && s[3..5] == m && s[6..8] == sec && s[9..] == p
  {
    var s := h + ":" + m + ":" + sec + " " + p;
    assert s[0..2] == h by { assert forall k :: 0 <= k < 2 ==> s[0..2][k] == h[k]; }
    assert s[3..5] == m by { assert forall k :: 0 <= k < 2 ==> s[3..5][k] == m[k]; }
    assert s[6..8] == sec by { assert forall k :: 0 <= k < 2 ==> s[6..8][k] == sec[k]; }
    assert s[9..] == p by { assert forall k :: 0 <= k < |p| ==> s[9..][k] == p[k]; }
  }

  /** Reading back a rendered time gives the time. */
  lemma ParseFormatClock(t: Clock)
    ensures ParseClock(FormatClock(t)) == Some(t)
  {
    var s := FormatClock(t);
    JoinedClockFields(Pad2(Hour12(t.hour)), Pad2(t.minute), Pad2(t.second), Meridiem(t.hour));
    TwoDigitsOfPad2(s, 0, Hour12(t.hour));
    TwoDigitsOfPad2(s, 3, t.minute);
    TwoDigitsOfPad2(s, 6, t.second);
  }

  /** Two digits are the two-digit rendering of their value. */
  lemma Pad2OfTwoDigits(s: string, i: nat)
    requires i + 1 < |s| && IsAsciiDigit(s[i]) && IsAsciiDigit(s[i + 1])
    ensures Pad2(TwoDigits(s, i)) == s[i..i + 2]
  {
    Pad2OfDigits(DigitValue(s[i]), DigitValue(s[i + 1]));
  }

  /** An eleven-character string with separators at 2, 5 and 8 is its fields joined by them. */
  lemma ClockFields(s: string)
    requires |s| == 11 && s[2] == ':' && s[5] == ':' && s[8] == ' '
    ensures s == s[0..2] + ":" + s[3..5] + ":" + s[6..8] + " " + s[9..]
  {
    var r := s[0..2] + ":" + s[3..5] + ":" + s[6..8] + " " + s[9..];
    assert |r| == 11;
    forall k | 0 <= k < 11 ensures r[k] == s[k] {
      if k < 2 { assert r[k] == s[0..2][k]; }
      else if 3 <= k < 5 { assert r[k] == s[3..5][k - 3]; }
      else if 6 <= k < 8 { assert r[k] == s[6..8][k - 6]; }
      else if 9 <= k { assert r[k] == s[9..][k - 9]; }
    }
  }

  /** Every string that reads back as a time is that time's rendering. */
  lemma FormatParseClock(s: string, t: Clock)
    requires ParseClock(s) == Some(t)
    ensures FormatClock(t) == s
  {
    assert Hour12(t.hour) == TwoDigits(s, 0);
    assert Meridiem(t.hour) == s[9..];
    Pad2OfTwoDigits(s, 0);
    Pad2OfTwoDigits(s, 3);
    Pad2OfTwoDigits(s, 6);
    ClockFields(s);
  }

  /** `format_timestamp(timestamp)`: the supplied time when one is given, otherwise `now` (the clock reading). */
  function FormatTimestamp(timestamp: Option<Clock>, now: Clock): (r: string)
    ensures timestamp.Some? ==> ParseClock(r) == Some(timestamp.value)
    ensures timestamp.None? ==> ParseClock(r) == Some(now)
  {
    ParseFormatClock(if timestamp.Some? then timestamp.value else now);
    FormatClock(if timestamp.Some? then timestamp.value else now)
  }

  // ---------------------------------------------------------------------------
  // create_backup_filename
  // ---------------------------------------------------------------------------

  /**
   * `create_backup_filename(original_path)` with the `%Y%m%d_%H%M%S` rendering of
   * the current time passed in as `stamp`: same directory, `_` and the stamp
   * between stem and suffix.
   */
  function CreateBackupFilename(originalPath: Path, stamp: string): (r: Path)
    ensures Parent(r) == Parent(originalPath)
    ensures Name(r) == Stem(originalPath) + "_" + stamp + Suffix(originalPath)
  {
    Join(Parent(originalPath), Stem(originalPath) + "_" + stamp + Suffix(originalPath))
  }

  /** A backup of a file with a suffix keeps that suffix, and its stem is the old stem, `_` and the stamp. */
  lemma BackupKeepsSuffix(originalPath: Path, stamp: string)
    requires Suffix(originalPath) != ""
    requires '.' !in stamp
    ensures Suffix(CreateBackupFilename(originalPath, stamp)) == Suffix(originalPath)
    ensures Stem(CreateBackupFilename(originalPath, stamp)) == Stem(originalPath) + "_" + stamp
  {
    var name := Name(originalPath);
    assert HasSuffix(name);
    assert '.' !in "_" + stamp;
    SuffixSurvivesInsertion(name, "_" + stamp);
    assert NameStem(name) + ("_" + stamp) + NameSuffix(name) == Stem(originalPath) + "_" + stamp + Suffix(originalPath);
  }
}
