# File-Backup, modelled in Dafny

File-Backup watches one dated sub-folder of a source tree, for example
`<base>/01-04`. It copies every file that appears or changes there into a
destination folder and shows a progress bar while it copies. From the console
the operator picks the folder (two two-digit numbers joined by a hyphen). ESC
opens a menu that switches the folder or quits. Ctrl-C ends the program.

The repository holds two versions of the program:

- the package under `src/`: `config.py`, `utils.py`, `file_handler.py` and `file_monitor.py`;
- the older single-file `file_copier.py`.

This project models the core of both.

| module (file) | models |
|---|---|
| `Wrappers` (wrappers.dfy) | `Option`, `Result` and `Outcome`, used for Python's `None` and for raised exceptions |
| `Text` (text.dfy) | `str.strip` for a set of characters, `'c' * n`, `"%02d"`, `str(n)`, `', '.join` |
| `Paths` (paths.dfy) | `PurePath.name`, `.parent`, `.stem`, `.suffix`, the `/` operator, and the directories `mkdir(parents=True)` creates |
| `Config` (config.dfy) | `DEFAULT_CONFIG`, `validate_config`, and `load_parameters`/`update_config` as methods of a class that holds parameters.json and the mutable `DEFAULT_CONFIG` dict |
| `Utils` (utils.dfy) | the folder identifier check and its prompt loop, `sanitize_filename`, `format_timestamp`, `create_backup_filename` |
| `FileHandling` (file_handler.dfy) | `ProgressBar` (a class), `copy_with_progress` (a method with its `while True` loop, proved against a loop-free reference function), and `FileHandler` (a class whose in-flight set is a field) |
| `Observers` (observers.dfy) | the start/stop/join life cycle of a watchdog observer |
| `Monitor` (file_monitor.dfy) | the session controller `FileMonitor` as a class. Its `legacy` flag selects the `FileMonitor` of file_copier.py instead of the one in src/file_monitor.py |
| `LegacyCopier` (file_copier.dfy) | the older version's `load_parameters`, `validate_folder_name` and `FileHandler`, which copies with `shutil.copy2` |

The outside world is passed in as parameters:

- **File system.** An `FsState` holds the directories and the destination files. An `Observation` records what the file system answers during one event: the two sizes around the wait, the source bytes, and which step raises.
- **Console.** Console input is a sequence of lines. Console output is a value, or a `consoleBroken` flag when printing raises.
- **Clock.** The clock is a `Clock` value.
- **Monitor run loop.** Which directories exist, and which of them an observer fails to start on, are fixed sets. ESC presses and Ctrl-C arrive as one tick per 0.1-second sleep of the run loop.

The code and its documentation disagree in three places. The model follows the code:

- **Missing parameters.json.** `load_parameters` writes the default file and returns the `DEFAULT_CONFIG` dict itself, without validating it. The run goes on; it does not stop so the operator can edit the file. `update_config` then merges into that shared dict before it validates. So a failed update still changes the module-level default. The file keeps the original values, so a later load returns the changed dict only once parameters.json is missing again. The method `Config.DefaultConfigAliasing` is an example scenario, not a specification, that walks through this.
- **Failed start, then stop.** If scheduling or starting an observer raises inside `start_monitoring`, src catches the exception but keeps the unstarted observer. The next `stop()` or `change_source_folder()` then calls `join()` on that observer. This raises `RuntimeError`, because the thread was never started. In `run` that happens in the `finally` block, so the exception replaces the normal end of `run`. The model states this as `JoinNotStarted`. `Monitor.FileMonitor.Run` ensures that this is the only exception `run` can end with in src. When the folder prompt hits end of input, `Run`'s result is `Raised(JoinNotStarted)` exactly when joining the previous observer fails.
- **Menu flag in file_copier.py.** `show_menu` clears `menu_active` only when the chosen action returns normally. After an exception there (end of input, a failed join, a failed start), every later ESC press is ignored.

## Model

| member | source | states |
|---|---|---|
| Text.LeadingCountSpec | src/utils.py:70 | every character that the leading count covers satisfies the predicate, and the next one does not |
| Text.TrailingCountSpec | src/utils.py:70 | every character that the trailing count covers satisfies the predicate, and the one before them does not |
| Text.Strip | src/utils.py:165 | the stripped string is the contiguous slice of the input that starts after the leading run |
| Text.StripShape | src/utils.py:165 | the result neither starts nor ends with a stripped character, and every character cut off at either end is one |
| Text.StripIdentityIff | src/utils.py:70 | stripping leaves a string unchanged exactly when it is already trimmed |
| Text.StripIdempotent | src/utils.py:70 | stripping twice equals stripping once |
| Text.StripEmptyIff | src/utils.py:165 | stripping gives the empty string exactly when every character is a stripped one |
| Text.Repeat | src/file_handler.py:41 | `c * n` has length `max(n, 0)` and consists only of `c` |
| Text.Pad2 | src/utils.py:89 | `"%02d"` gives two ASCII digits whose value is the number |
| Text.NatToString | src/file_handler.py:48 | `str(n)` is non-empty, all digits, and has no leading zero |
| Text.NatToStringRoundTrip | src/file_handler.py:48 | the value of the digits of `str(n)` is `n` |
| Text.JoinWith | src/config.py:62 | joining no strings gives `""`, joining one string gives that string, and a non-empty join starts with the first string |
| Text.JoinWithAppend | src/config.py:62 | joining one more string appends the separator and that string, so `n` strings are joined with exactly `n - 1` separators between them in order |
| Paths.Name | src/file_handler.py:148 | `.name` is the last component, or `""` for a bare anchor |
| Paths.Parent | src/utils.py:148 | `.parent` keeps the anchor, and adding the name back gives the path again |
| Paths.Join | src/file_handler.py:149 | `dir / name` has that name and that parent |
| Paths.Ancestors | src/file_handler.py:157 | the directories `mkdir(parents=True)` creates include the directory and its parent, all on the same anchor |
| Paths.AncestorOfParent | src/file_handler.py:157 | the prefixes of the parent are the prefixes of the path other than the path itself |
| Paths.AncestorsExact | src/file_handler.py:157 | those directories are exactly the paths on the same anchor whose components are a prefix of the directory's components |
| Paths.NameStem | src/utils.py:148 | stem followed by suffix is the name |
| Paths.RFind | src/utils.py:148 | `str.rfind`: -1 or an index holding the character, with no occurrence after it |
| Paths.RFindIsLast | src/utils.py:148 | the index of the last occurrence of a character is what `rfind` returns, so the suffix starts at the last dot |
| Paths.SuffixSurvivesInsertion | src/utils.py:148 | text without a dot, inserted between stem and suffix, keeps the suffix and extends the stem |
| Utils.FolderId | src/utils.py:57-58 | the identifier of two numbers below 100 has five characters and matches `^\d{2}-\d{2}$` |
| Utils.FolderIdParses | src/utils.py:57-58 | reading the two numbers back out of an identifier gives the numbers it was made from |
| Utils.FolderIdRendersParsed | src/utils.py:57-58 | every five-character match is the identifier of the numbers it contains |
| Utils.FolderPatternExamples | src/utils.py:57-58 | `01-04` and `01-04` followed by a newline match; `1-04`, `01-4`, `ab-04`, `01_04`, the empty string and a trailing space do not |
| Utils.StrippedMatchHasFiveChars | src/utils.py:70-73 | an identifier the prompt accepts after stripping has exactly five characters |
| Utils.ValidateFolderName | src/utils.py:44-60 | returns True exactly for a match; otherwise raises ValidationError with the format message |
| Utils.FirstValidLine | src/utils.py:69-75 | the first line from a position on that validates once stripped; every line before it does not; None means no line validates |
| Utils.GetValidFolderName | src/utils.py:62-75 | the result is the first valid stripped line, and every earlier line was rejected; end of input raises EOFError after all lines were read; the lines left unread are those after the accepted one |
| Utils.ReplaceInvalid | src/utils.py:161-162 | same length; each of `<>:"/\|?*` becomes `_`; every other character stays |
| Utils.StripKeepsValidChars | src/utils.py:162-165 | stripping dots and spaces from a name without invalid characters gives a trimmed name without them |
| Utils.SanitizeFilename | src/utils.py:150-171 | the result is non-empty, contains no invalid character, and neither starts nor ends with a dot or space |
| Utils.SanitizeIsStrippedReplacement | src/utils.py:160-171 | the result is `unnamed_file` when the replaced name holds only dots and spaces, and otherwise the replaced name stripped of dots and spaces, which is then non-empty |
| Utils.SanitizeIdentityIff | src/utils.py:150-171 | sanitising leaves a name unchanged exactly when the name is already clean |
| Utils.SanitizeIdempotent | src/utils.py:150-171 | sanitising twice equals sanitising once |
| Utils.Hour12 | src/utils.py:89 | `%I` is in 1..12: midnight is 12, and afternoon hours lose 12 |
| Utils.FormatClock | src/utils.py:89 | `%I:%M:%S %p` is eleven characters with separators at 2, 5 and 8, ending in AM or PM by the hour |
| Utils.ParseFormatClock | src/utils.py:89 | reading a rendered time back gives the time, so the rendering loses nothing |
| Utils.FormatParseClock | src/utils.py:89 | every string that reads back as a time is exactly that time's rendering |
| Utils.FormatTimestamp | src/utils.py:77-89 | the text reads back as the given time, or as the clock reading when none is given (so, by FormatParseClock, it is that time's rendering) |
| Utils.CreateBackupFilename | src/utils.py:136-148 | same parent; the name is stem, `_`, stamp, suffix |
| Utils.BackupKeepsSuffix | src/utils.py:148 | with a dot-free stamp, the backup keeps the suffix and its stem is the old stem, `_` and the stamp |
| Config.MissingFrom | src/config.py:58-59 | the keys reported missing are exactly the listed keys absent from the dict |
| Config.FirstNonString | src/config.py:65-67 | none exactly when every listed value is a string; otherwise a listed key whose value is not a string |
| Config.ValidateConfig | src/config.py:48-67 | passes exactly when both required keys are present and hold strings |
| Config.MissingReportedInOrder | src/config.py:58-62 | with a key missing, the error lists the missing keys in the order base_source_dir, destination_dir, before any type check |
| Config.FirstNonStringReported | src/config.py:64-67 | with both keys present, a non-string base_source_dir is reported first, then destination_dir |
| Config.BothMissingMessage | src/config.py:62 | the message for two missing keys names both, separated by a comma and a space |
| Config.OtherKeysIgnored | src/config.py:48-67 | adding or removing any other key never changes the verdict |
| Config.SameRequiredSameVerdict | src/config.py:48-67 | two dicts that agree on the required keys get the same verdict |
| Config.SameKeysSameMissing | src/config.py:58-59 | the missing list depends only on which of the listed keys are present |
| Config.SameValuesSameFirstNonString | src/config.py:65-67 | the type check depends only on the values of the listed keys |
| Config.DefaultConfigIsValid | src/config.py:13-16 | `DEFAULT_CONFIG` passes validation |
| Config.Merge | src/config.py:121 | `dict.update`: the keys of both dicts; every updated key takes its new value; the other keys keep theirs |
| Config.UpdatesDecideValidity | src/config.py:121-124 | when the updates set both required keys, the merged dict validates exactly when the updates do |
| Config.ConfigModule.constructor | src/config.py:13-16 | the module starts with `DEFAULT_CONFIG` and the given parameters.json |
| Config.ConfigModule.LoadParameters | src/config.py:30-101 | missing file: written from `DEFAULT_CONFIG`, and that very dict is returned; write failure, read failure, invalid JSON, a non-object value or a failed validation: `sys.exit(1)`; a valid object is returned as loaded; only a missing file changes the file |
| Config.ConfigModule.UpdateConfig | src/config.py:103-133 | the call exits with code 1, changing nothing, exactly when loading would exit; a missing, writable file merges into `DEFAULT_CONFIG` itself, so a returned config is that merged dict and an invalid merge fails with the validation error; a returned config validates and is what the file now holds; a merge into `DEFAULT_CONFIG` changes it even when validation then fails; an existing file leaves `DEFAULT_CONFIG` alone; an invalid merge leaves the file as loading left it |
| FileHandling.Percentage | src/file_handler.py:37 | the percentage shown is at most 100 |
| FileHandling.PercentageIsFloor | src/file_handler.py:37 | 100 exactly when the copied size reaches the total; below that, the whole part of `100 * current / total` |
| FileHandling.FilledWidthBounds | src/file_handler.py:38 | the filled part of the bar is at most the width up to the total, and at least the width from there on |
| FileHandling.BarShape | src/file_handler.py:41 | the bar is `=` for the filled part and `-` after it, with the full width up to the total and longer beyond it |
| FileHandling.RoundHalfEvenIsNearest | src/file_handler.py:45 | the one-decimal speed is within half a tenth of the exact value; `current / 1024` and `current / 1048576` are exact binary fractions for files below 2^53 bytes, so `:.1f`'s half-to-even rounding of them is this rounding |
| FileHandling.ProgressBar.constructor | src/file_handler.py:18-28 | total, width, and a last printed length of 0 |
| FileHandling.ProgressBar.Update | src/file_handler.py:30-59 | a total of 0 raises ZeroDivisionError before printing anything; otherwise it prints the update output and records the new line's length |
| FileHandling.UpdateOutputEnds | src/file_handler.py:48-59 | the output starts with a carriage return and ends with a newline exactly at 100%; its length lies between the line's length and that length plus the blanking of the previous line |
| FileHandling.ReadLength | src/file_handler.py:76 | `read(chunk_size)` returns a full chunk or the rest; it returns nothing exactly at the end or for size 0; -1 reads all |
| FileHandling.EndsShape | src/file_handler.py:75-81 | the offsets given to `update` strictly increase, lie in `(0, n]` and end at `n`; there are none exactly when nothing is read |
| FileHandling.EndsCount | src/file_handler.py:75-81 | a positive chunk size makes `ceil(n / chunk_size)` calls |
| FileHandling.CopyWritesPrefix | src/file_handler.py:61-84 | the destination, when opened, holds a prefix of the source as long as the last reported offset; an unopened destination means an error and no updates |
| FileHandling.CopyReportsChunkEnds | src/file_handler.py:72-81 | the reported offsets are a prefix of the chunk ends: increasing and within the file |
| FileHandling.CopySucceedsIff | src/file_handler.py:61-84 | no exception exactly when both files open, the total is non-zero or nothing is read, no write fails and `copystat` succeeds; then every chunk end was reported and, for a non-zero chunk size, the destination equals the source |
| FileHandling.ZeroChunkCopiesNothing | src/file_handler.py:76-78 | a chunk size of 0 writes an empty file and never calls `update` |
| FileHandling.GrownEmptyFileDividesByZero | src/file_handler.py:70-81 | a file that was empty when measured but has bytes when read raises ZeroDivisionError on the first update |
| FileHandling.CopyWithProgress | src/file_handler.py:61-84 | the method's destination content, updates and exception are those of the reference function |
| FileHandling.ReportProgress | src/file_handler.py:81 | `progress.update` raises exactly when the total is 0 |
| FileHandling.CopyChunks | src/file_handler.py:75-81 | the loop reports the chunk ends up to where it stops, and writes exactly the source prefix up to the last reported offset; a failing write stops before its report, and a total of 0 stops after the first chunk |
| FileHandling.MakeDirs | src/file_handler.py:157 | the directory exists afterwards; no directory disappears; files are untouched |
| FileHandling.MakeDirsIdempotent | src/file_handler.py:157 | creating it again changes nothing (`exist_ok=True`) |
| FileHandling.DestinationPath | src/file_handler.py:149 | the destination has the source's name, in the destination directory |
| FileHandling.ErrorReport | src/file_handler.py:175-177 | with a working console the report is the failure with the time, the file name and the error; printing that raises turns it into a raised report |
| FileHandling.CopiedIff | src/file_handler.py:141-177 | a copy is reported exactly when mkdir succeeds, the sizes agree, printing works and the copy raises nothing; then the destination holds the source bytes and the log names the file, both paths and the time |
| FileHandling.CopyFileFrame | src/file_handler.py:141-177 | only the destination directory (with its ancestors) and the destination file change; a changed destination holds a prefix of the source |
| FileHandling.UnstableSkipsCopy | src/file_handler.py:160-163 | different sizes around the wait: nothing is written and nothing is logged |
| FileHandling.FailureReportedWithName | src/file_handler.py:160-177 | with a working console, a failed mkdir, a failed size reading or a raising copy is reported as that error, with the time and the source's file name; every failure report carries them |
| FileHandling.RaisedOnlyWithBrokenConsole | src/file_handler.py:166-177 | an exception leaves `_copy_file` only when printing raises, and then no copy is reported |
| FileHandling.FileHandler.constructor | src/file_handler.py:98-108 | both directories and an empty in-flight set |
| FileHandling.FileHandler.Dispatch | src/file_handler.py:110-118 | only a modified file is handled; a directory or any other event kind is ignored; the in-flight set is the same after the event |
| FileHandling.FileHandler.OnModified | src/file_handler.py:110-118 | directories are ignored; a path already in flight is dropped; any other path is in flight during its copy, which has the reference outcome |
| FileHandling.FileHandler.HandleFileEvent | src/file_handler.py:120-139 | a duplicate changes nothing; otherwise the path is in flight during the copy and removed on every exit |
| FileHandling.FileHandler.CopyFile | src/file_handler.py:141-177 | the report and file system state of the reference `_copy_file` |
| Observers.StopWatch | src/file_monitor.py:114 | `stop()` leaves a stopped observer on the same directory and handler, and records whether it ever ran |
| Observers.JoinWatch | src/file_monitor.py:117 | `join()` raises exactly for an observer that never started |
| Observers.StopWatchIdempotent | src/file_monitor.py:110-118 | stopping twice equals stopping once, and a stopped observer is not running |
| Monitor.StopCurrent | src/file_monitor.py:71-72 | `if self.observer: stop()`: an observer stays present and stops running |
| Monitor.JoinCurrent | src/file_monitor.py:73 | the join fails exactly for a present observer that never ran |
| Monitor.RetireKeepsQuiet | src/file_monitor.py:70-73 | replacing an observer that is not running keeps a history with no running watch free of running watches |
| Monitor.FileMonitor.constructor | src/file_monitor.py:30-43 | no observer, no source folder, running, menu closed |
| Monitor.FileMonitor.ExpectedReport | src/file_monitor.py:82-108 | started exactly for an existing folder that can be watched; the missing-folder error exactly for a folder that does not exist (or, in src, none at all); a caught start error only in src; a propagated error only in file_copier.py; in file_copier.py (file_copier.py:226-237), with `legacy`: no `None` check and no `try`, so both kinds of failure propagate |
| Monitor.FileMonitor.StartMonitoring | src/file_monitor.py:82-108 | for an existing folder, a fresh non-recursive watch with a new handler for that folder replaces the old one, running unless starting raised; otherwise nothing changes; in file_copier.py (file_copier.py:226-242), the same, with the file_copier.py reports and a fresh file_copier.py handler, which copies created and modified files with `copy2` |
| Monitor.FileMonitor.Stop | src/file_monitor.py:110-118 | clears `running`, stops the observer and keeps it; the join raises exactly for an observer that never ran; in file_copier.py (file_copier.py:244-250), the same |
| Monitor.FileMonitor.ChangeSourceFolder | src/file_monitor.py:68-80 | stop and join the old observer (a failed join ends the call); prompt until a valid identifier or end of input; join it to the base folder; start monitoring there; in file_copier.py (file_copier.py:213-224), the same |
| Monitor.FileMonitor.MenuChoice | src/file_monitor.py:58-63 | end of input raises; otherwise one line is read, and stripped "1" changes folder, "2" stops, anything else does nothing |
| Monitor.FileMonitor.ShowMenu | src/file_monitor.py:45-66 | ignored while open; otherwise runs the choice, and the flag is clear afterwards (`finally`); in file_copier.py (file_copier.py:193-211), with `legacy`, the flag stays set exactly when the choice raised |
| Monitor.FileMonitor.Run | src/file_monitor.py:120-141 | on return the monitor is stopped; src ends with quit, caught Ctrl-C, or a fatal end of input, or raises only a failed join from the `finally`; end of input at the first prompt gives exactly the fatal end or that join failure; in file_copier.py (file_copier.py:252-270), with `legacy`, Ctrl-C propagates after the `finally`, and a failed start is fatal |
| Monitor.AtMostOneRunning | src/file_monitor.py:68-80 | at most one watch of the controller's whole history is running |
| Monitor.StoppedControllerIsQuiet | src/file_monitor.py:110-118 | after `stop()`, no watch the controller ever made is running |
| LegacyCopier.ValidateFolderName | file_copier.py:168-172 | passes exactly for a match; otherwise raises ValueError with the format message |
| LegacyCopier.ValidatorsAgree | file_copier.py:168-172 | the two versions of the check accept the same names and give the same message |
| LegacyCopier.MissingIn | file_copier.py:95-96 | the missing names are exactly the listed ones that Python's `in` does not find in the loaded value |
| LegacyCopier.MissingInObject | file_copier.py:95-96 | for a JSON object this is the src check for missing keys |
| LegacyCopier.CheckParameters | file_copier.py:94-101 | the value is returned exactly when both names are `in` it; a number, boolean or null raises TypeError; otherwise ValueError lists the missing names; a failure is TypeError exactly when the value does not support `in` |
| LegacyCopier.CheckAgreesOnKeys | file_copier.py:94-101 | on a JSON object it fails exactly when the src validation reports missing keys, and with the same names |
| LegacyCopier.StringPassesKeyCheck | file_copier.py:96 | a JSON string that contains both names as substrings passes |
| LegacyCopier.ParametersFile.constructor | file_copier.py:74 | the file and whether writing it succeeds |
| LegacyCopier.ParametersFile.LoadParameters | file_copier.py:70-106 | missing file: the ComfyUI defaults are written and returned; read failure, invalid JSON or a failed key check: exit 1; only a missing file changes the file |
| LegacyCopier.LegacyDefaultsAreValid | file_copier.py:81-84 | the defaults pass both checks |
| LegacyCopier.Copy2 | file_copier.py:151 | `shutil.copy2` raises nothing exactly when the source opens and reads, the destination opens, no write fails and `copystat` succeeds; then the destination equals the source; anything written is a prefix of the source |
| LegacyCopier.ErrorReport | file_copier.py:155-157 | with a working console the report is the failure with the time, the file name and the error; printing that raises turns it into a raised report |
| LegacyCopier.FailureReportedWithName | file_copier.py:139-157 | with a working console, a failed mkdir, a failed size reading or a raising `copy2` is reported as that error, with the time and the source's file name; every failure report carries them |
| LegacyCopier.CopiedIff | file_copier.py:133-157 | a copy is reported exactly when mkdir succeeds, the sizes agree, `copy2` succeeds and printing works; a successful `copy2` always leaves the source bytes at the destination |
| LegacyCopier.UnstableSkipsCopy | file_copier.py:145-149 | different sizes around the wait: nothing is written and nothing is logged |
| LegacyCopier.CopyFileFrame | file_copier.py:133-157 | only the destination directory and file change, and the file holds a prefix of the source |
| LegacyCopier.BrokenConsoleDifference | file_copier.py:151-152 | with a broken console both versions raise, but only file_copier.py has written the file, because it prints after copying and src prints first |
| LegacyCopier.FileHandler.constructor | file_copier.py:109-112 | both directories and an empty in-flight set |
| LegacyCopier.FileHandler.Dispatch | file_copier.py:114-120 | created and modified files are handled; directories and other kinds are ignored; the in-flight set is the same afterwards |
| LegacyCopier.FileHandler.OnCreated | file_copier.py:114-116 | directories ignored, duplicates dropped, otherwise the reference copy |
| LegacyCopier.FileHandler.OnModified | file_copier.py:118-120 | the same for modification events |
| LegacyCopier.FileHandler.HandleFileEvent | file_copier.py:122-131 | a duplicate changes nothing; otherwise the path is in flight during the copy and removed afterwards |
| LegacyCopier.FileHandler.CopyFile | file_copier.py:133-157 | the report and file system state of the reference `_copy_file` |

## Left out

- Printing, colours and logging: console output becomes report values; the text of `print` and `logging` calls is not modelled, except the progress line and the error messages.
- `time.sleep`: the waits have no effect beyond the two size readings, which `Observation` supplies.
- `datetime.now()`: the clock reading is a parameter.
- JSON text: `json.loads`, `json.load` and `json.dumps` are not modelled. parameters.json holds a parsed `JsonValue`, or is marked unreadable or malformed. Numbers are integers only.
- `input("Press Enter to exit...")` before `sys.exit(1)` (src/config.py:99, file_copier.py:105): the pause is not modelled, and the model always exits with code 1; at end of input that call would raise EOFError instead.
- Threads: observer threads, watchdog's event delivery and the keyboard hook thread are not modelled. The model handles events one at a time and ESC presses between sleeps of the run loop. It does not model:
  - a menu opened while the prompt is waiting for input;
  - two menus competing for console lines;
  - Ctrl-C arriving during a prompt or during a copy;
  - the unsynchronised in-flight set being shared by watchdog's thread.
- Writes: a chunk write either succeeds completely or writes nothing. Partial writes, buffering and the flush on close are not modelled.
- `shutil.copy2`: it copies the bytes and then the metadata. Its other behaviour (`SameFileError`, symlinks, which metadata it copies) is not modelled.
- FileHandling.Percentage: computes the exact floor of `100 * current / total`. `int((current / total) * 100)` in floating point can be one lower; for 29 of 100 bytes it shows 28.
- FileHandling.FilledWidthBounds: `int(self.width * current / self.total_size)` is computed exactly, not in floating point.
- Utils.FolderPatternMatch: `\d` accepts ASCII digits only. Python's `\d` on `str` also accepts the other Unicode decimal digits.
- Paths: paths are compared component by component. Windows comparison is case-insensitive and its separators are not modelled.
- Monitor.FileMonitor.Run: states the ways `run` can end and the end-of-input case in full. For the other cases it states no complete final state: which observer is current and which lines remain. When the ticks run out while `running` is still set, it returns `StillRunning`.
- Out-of-core and untestable utilities, not modelled:
  - `setup_logging` (src/utils.py:17-42);
  - `format_file_size` (src/utils.py:91-105), which uses floating point;
  - `is_path_accessible` (src/utils.py:107-134);
  - `get_config_path` and `get_config_template` (src/config.py:22-28 and 135-155).
- Outside the core, not modelled:
  - the dependency installer (file_copier.py:6-38) and its `__main__` block (file_copier.py:272-287);
  - src/dependencies.py and main.py, except that main.py:52 binds ESC to `show_menu`, which the run loop's ticks stand for.
