/**
 * The single-file version of the program, file_copier.py: its event handler,
 * which reacts to created as well as modified files and copies with
 * `shutil.copy2`, its folder-name check, and its parameter loader, which checks
 * only that the two keys are present. Its session controller is
 * `Monitor.FileMonitor` with `legacy` set.
 */
module LegacyCopier {
  import opened Wrappers
  import opened Text
  import opened Paths
  import Utils
  import Config
  import FileHandling

  // ---------------------------------------------------------------------------
  // validate_folder_name
  // ---------------------------------------------------------------------------

  /** The `ValueError` of `validate_folder_name`. */
  datatype ValueError = ValueError(message: string)

  /** `validate_folder_name`: returns `None` on a match and raises `ValueError` otherwise. */
  function ValidateFolderName(folderName: string): (r: Outcome<ValueError>)
    ensures r.Pass? <==> Utils.FolderPatternMatch(folderName)
    ensures r.Fail? ==> r.error.message == Utils.FolderFormatMessage
  {
    if Utils.FolderPatternMatch(folderName) then Pass else Fail(ValueError(Utils.FolderFormatMessage))
  }

  /**
   * The two checks accept the same names with the same message, so the prompt
   * loop of file_copier.py behaves as `Utils.GetValidFolderName`.
   */
  lemma ValidatorsAgree(folderName: string)
    ensures ValidateFolderName(folderName).Pass? <==> Utils.ValidateFolderName(folderName).Ok?
    ensures ValidateFolderName(folderName).Fail? ==>
      ValidateFolderName(folderName).error.message == Utils.ValidateFolderName(folderName).error.message
  {
  }

  // ---------------------------------------------------------------------------
  // load_parameters
  // ---------------------------------------------------------------------------

  /** The `default_params` written when parameters.json is missing. */
  function LegacyDefaults(): Config.ConfigDict {
    map[Config.BaseSourceKey := Config.JString("C:\\ComfyUI\\ComfyUI\\output"),
        Config.DestinationKey := Config.JString("\\\\CAMSERVO\\home\\Photos\\AI Art - Others\\ComfyUI\\inbox")]
  }

  /** A JSON value on which Python's `in` works: an object, an array or a string. */
  predicate Containable(v: Config.JsonValue) {
    v.JObject? || v.JArray? || v.JString?
  }

  predicate IsSubstring(key: string, s: string) {
    exists i :: 0 <= i <= |s| && key <= s[i..]
  }

  /** `key in v`: a key of an object, an element of an array, a substring of a string. */
  predicate PyContains(v: Config.JsonValue, key: string)
    requires Containable(v)
  {
    match v
    case JObject(m) => key in m
    case JArray(items) => Config.JString(key) in items
    case JString(s) => IsSubstring(key, s)
  }

  /** `[param for param in params if param not in v]`. */
  function MissingIn(params: seq<string>, v: Config.JsonValue): (r: seq<string>)
    requires Containable(v)
    ensures forall p :: p in r <==> p in params && !PyContains(v, p)
    ensures |r| <= |params|
  {
    if params == [] then []
    else (if PyContains(v, params[0]) then [] else [params[0]]) + MissingIn(params[1..], v)
  }

  /** On a JSON object the legacy key check lists the same keys, in the same order, as src. */
  lemma {:induction false} MissingInObject(params: seq<string>, m: Config.ConfigDict)
    ensures MissingIn(params, Config.JObject(m)) == Config.MissingFrom(params, m)
  {
    if params != [] {
      MissingInObject(params[1..], m);
    }
  }

  /** Why `load_parameters` printed an error and exited. */
  datatype LoadFailure =
    | CreateFailed
    | ReadFailed
    | InvalidJson
    /** `in` on a number, a Boolean or `null` raises `TypeError`. */
    | NotIterable
    | Missing(names: seq<string>)
  {
    function Message(): string
      requires Missing?
    {
      "Missing required parameters: " + JoinWith(names, ", ")
    }
  }

  /** The key check on a loaded document: `in` must work and both names must be found. */
  function CheckParameters(v: Config.JsonValue): (r: Result<Config.JsonValue, LoadFailure>)
    ensures r.Ok? <==> Containable(v) && PyContains(v, Config.BaseSourceKey) && PyContains(v, Config.DestinationKey)
    ensures r.Ok? ==> r.value == v
    ensures r.Err? ==> r.error == NotIterable || (r.error.Missing? && r.error.names != [])
    ensures r.Err? ==> (r.error == NotIterable <==> !Containable(v))
    ensures r.Err? && Containable(v) ==> r.error == Missing(MissingIn(Config.RequiredParams, v))
  {
    if !Containable(v) then Err(NotIterable)
    else
      var missing := MissingIn(Config.RequiredParams, v);
      if missing != [] then
        assert missing[0] in missing;
        Err(Missing(missing))
      else
        assert Config.BaseSourceKey in Config.RequiredParams && Config.DestinationKey in Config.RequiredParams;
        Ok(v)
  }

  /**
   * On an object the legacy check fails exactly when src's check reports
   * missing keys, with the same list; it never looks at the values, so it
   * accepts the objects whose values src rejects as non-strings.
   */
  lemma CheckAgreesOnKeys(m: Config.ConfigDict)
    ensures CheckParameters(Config.JObject(m)).Err? <==> Config.ValidateConfig(m).Fail? && Config.ValidateConfig(m).error.MissingParameters?
    ensures CheckParameters(Config.JObject(m)).Err? ==>
      CheckParameters(Config.JObject(m)).error == Missing(Config.ValidateConfig(m).error.names)
  {
    MissingInObject(Config.RequiredParams, m);
  }

  /** A string that names both keys passes the legacy check although it is not a configuration at all. */
  lemma StringPassesKeyCheck()
    ensures CheckParameters(Config.JString("base_source_dir destination_dir")).Ok?
  {
    var s := "base_source_dir destination_dir";
    assert Config.BaseSourceKey <= s[0..];
    assert Config.DestinationKey <= s[16..];
  }

  /** `load_parameters`: the document it hands out, or the `sys.exit(1)` after the error message. */
  datatype LoadResult = Loaded(params: Config.JsonValue) | Exited(code: int, cause: LoadFailure)

  /** parameters.json as file_copier.py sees it. */
  class ParametersFile {
    var file: Config.ConfigFile
    /** Whether writing parameters.json succeeds. */
    const writable: bool

    constructor(file: Config.ConfigFile, writable: bool)
      ensures this.file == file && this.writable == writable
    {
      this.file := file;
      this.writable := writable;
    }

    /**
     * `load_parameters`: a missing file is created with the defaults, which are
     * returned; an existing file must hold a document that passes the key
     * check. Every failure is caught and ends in exit code 1.
     */
    method LoadParameters() returns (r: LoadResult)
      modifies this`file
      ensures old(file).Absent? && writable ==>
        r == Loaded(Config.JObject(LegacyDefaults())) && file == Config.Stored(Config.JObject(LegacyDefaults()))
      ensures old(file).Absent? && !writable ==> r == Exited(1, CreateFailed) && file == old(file)
      ensures !old(file).Absent? ==> file == old(file)
      ensures old(file).Unreadable? ==> r == Exited(1, ReadFailed)
      ensures old(file).Malformed? ==> r == Exited(1, InvalidJson)
      ensures old(file).Stored? ==>
        match CheckParameters(old(file).value)
        case Ok(v) => r == Loaded(v)
        case Err(e) => r == Exited(1, e)
    {
      match file
      case Absent =>
        if writable {
          file := Config.Stored(Config.JObject(LegacyDefaults()));
          r := Loaded(Config.JObject(LegacyDefaults()));
        } else {
          r := Exited(1, CreateFailed);
        }
      case Unreadable =>
        r := Exited(1, ReadFailed);
      case Malformed =>
        r := Exited(1, InvalidJson);
      case Stored(v) =>
        match CheckParameters(v)
        case Ok(params) => r := Loaded(params);
        case Err(e) => r := Exited(1, e);
    }
  }

  /** The defaults the legacy loader writes are a configuration src accepts too. */
  lemma LegacyDefaultsAreValid()
    ensures Config.ValidateConfig(LegacyDefaults()) == Pass
    ensures CheckParameters(Config.JObject(LegacyDefaults())).Ok?
  {
  }

  // ---------------------------------------------------------------------------
  // FileHandler
  // ---------------------------------------------------------------------------

  /** What the file system does during one event of the legacy handler. */
  datatype Observation = Observation(
    /** `destination_dir.mkdir(parents=True, exist_ok=True)` succeeds. */
    mkdirOk: bool,
    /** `source_path.stat().st_size` before the half-second wait; `None` when stat raises. */
    sizeBefore: Option<nat>,
    /** The same after the wait. */
    sizeAfter: Option<nat>,
    /** The bytes `copy2` reads from the source; `None` when opening it raises. */
    contents: Option<seq<byte>>,
    /** Opening the destination for writing succeeds. */
    destinationOpens: bool,
    /** A write raises once this many bytes have reached the destination. */
    failAfter: Option<nat>,
    /** `copystat` succeeds. */
    copystatOk: bool,
    /** `print` raises. */
    consoleBroken: bool)

  type byte = FileHandling.byte

  /**
   * `shutil.copy2(src, dst)`: the destination's content afterwards (`None` when
   * it was never opened) and the exception raised, if any. A write failure
   * leaves the bytes written so far.
   */
  function Copy2(obs: Observation): (r: (Option<seq<byte>>, Option<FileHandling.CopyError>))
    ensures r.0.Some? ==> obs.contents.Some? && FileHandling.IsPrefix(r.0.value, obs.contents.value)
    ensures r.1.None? <==>
      obs.contents.Some? && obs.destinationOpens
      && (obs.failAfter.None? || obs.failAfter.value >= |obs.contents.value|) && obs.copystatOk
    ensures r.1.None? ==> r.0 == obs.contents
  {
    if obs.contents.None? then (None, Some(FileHandling.SourceOpenFailed))
    else if !obs.destinationOpens then (None, Some(FileHandling.DestinationOpenFailed))
    else
      var content := obs.contents.value;
      if obs.failAfter.Some? && obs.failAfter.value < |content| then
        (Some(content[..obs.failAfter.value]), Some(FileHandling.WriteFailed))
      else if !obs.copystatOk then (Some(content), Some(FileHandling.MetadataFailed))
      else (Some(content), None)
  }

  /** The `except` branch of `_copy_file`: the error is printed with the file name, unless printing raises. */
  function ErrorReport(obs: Observation, time: string, fileName: string, e: FileHandling.CopyError)
    : (r: FileHandling.Report)
    ensures r == FileHandling.Raised <==> obs.consoleBroken
    ensures !obs.consoleBroken ==> r == FileHandling.Failed(time, fileName, e)
  {
    if obs.consoleBroken then FileHandling.Raised else FileHandling.Failed(time, fileName, e)
  }

  /**
   * The reference definition of the legacy `_copy_file`: as in src the
   * directory is created first and the sizes are compared, but nothing is
   * printed before `copy2`, so a broken console raises only after the file was
   * copied, from the success message and then from the error message.
   */
  function CopyFileOutcome(destinationDir: Path, sourcePath: Path, fs: FileHandling.FsState, obs: Observation,
                           now: Utils.Clock): (FileHandling.Report, FileHandling.FsState)
  {
    var fileName := Name(sourcePath);
    var dst := FileHandling.DestinationPath(destinationDir, sourcePath);
    var time := Utils.FormatClock(now);
    if !obs.mkdirOk then (ErrorReport(obs, time, fileName, FileHandling.MkdirFailed), fs)
    else
      var made := FileHandling.MakeDirs(fs, destinationDir);
      if obs.sizeBefore.None? || obs.sizeAfter.None? then (ErrorReport(obs, time, fileName, FileHandling.StatFailed), made)
      else if obs.sizeBefore != obs.sizeAfter then (FileHandling.Unstable, made)
      else
        var run := Copy2(obs);
        var after := if run.0.Some? then made.(files := made.files[dst := run.0.value]) else made;
        if run.1.Some? then (ErrorReport(obs, time, fileName, run.1.value), after)
        else if obs.consoleBroken then (FileHandling.Raised, after)
        else (FileHandling.Copied(time, fileName, sourcePath, dst), after)
  }

  /** The copy succeeded exactly when the sizes match and `copy2` raised nothing; then the destination is the source. */
  lemma CopiedIff(destinationDir: Path, sourcePath: Path, fs: FileHandling.FsState, obs: Observation, now: Utils.Clock)
    ensures var (report, after) := CopyFileOutcome(destinationDir, sourcePath, fs, obs, now);
      var dst := FileHandling.DestinationPath(destinationDir, sourcePath);
      && (report.Copied? <==>
            obs.mkdirOk && obs.sizeBefore.Some? && obs.sizeBefore == obs.sizeAfter
            && Copy2(obs).1.None? && !obs.consoleBroken)
      && (obs.mkdirOk && obs.sizeBefore.Some? && obs.sizeBefore == obs.sizeAfter && Copy2(obs).1.None? ==>
            dst in after.files && after.files[dst] == obs.contents.value)
      && (report.Copied? ==> report == FileHandling.Copied(Utils.FormatClock(now), Name(sourcePath), sourcePath, dst))
  {
  }

  /**
   * With a working console every failure is printed as `Failed` with the
   * formatted time, the file name and the error of the step that raised; a
   * printed failure always had a working console.
   */
  lemma FailureReportedWithName(destinationDir: Path, sourcePath: Path, fs: FileHandling.FsState, obs: Observation,
                                now: Utils.Clock)
    ensures var report := CopyFileOutcome(destinationDir, sourcePath, fs, obs, now).0;
      var time, fileName := Utils.FormatClock(now), Name(sourcePath);
      && (!obs.consoleBroken && !obs.mkdirOk ==> report == FileHandling.Failed(time, fileName, FileHandling.MkdirFailed))
      && (!obs.consoleBroken && obs.mkdirOk && (obs.sizeBefore.None? || obs.sizeAfter.None?) ==>
            report == FileHandling.Failed(time, fileName, FileHandling.StatFailed))
      && (!obs.consoleBroken && obs.mkdirOk && obs.sizeBefore.Some? && obs.sizeBefore == obs.sizeAfter
          && Copy2(obs).1.Some? ==>
            report == FileHandling.Failed(time, fileName, Copy2(obs).1.value))
      && (report.Failed? ==> !obs.consoleBroken && report.time == time && report.fileName == fileName)
  {
  }

  /** Unequal sizes around the wait: nothing is copied and nothing is printed. */
  lemma UnstableSkipsCopy(destinationDir: Path, sourcePath: Path, fs: FileHandling.FsState, obs: Observation, now: Utils.Clock)
    requires obs.mkdirOk && obs.sizeBefore.Some? && obs.sizeAfter.Some? && obs.sizeBefore != obs.sizeAfter
    ensures CopyFileOutcome(destinationDir, sourcePath, fs, obs, now).0 == FileHandling.Unstable
    ensures CopyFileOutcome(destinationDir, sourcePath, fs, obs, now).1.files == fs.files
  {
  }

  /**
   * One event touches nothing but the destination directory (with its
   * ancestors) and the destination file, which holds a prefix of the source.
   */
  lemma CopyFileFrame(destinationDir: Path, sourcePath: Path, fs: FileHandling.FsState, obs: Observation, now: Utils.Clock)
    ensures var (report, after) := CopyFileOutcome(destinationDir, sourcePath, fs, obs, now);
      var dst := FileHandling.DestinationPath(destinationDir, sourcePath);
      && (after.dirs == fs.dirs || after.dirs == fs.dirs + Ancestors(destinationDir))
      && (forall p :: p in fs.files && p != dst ==> p in after.files && after.files[p] == fs.files[p])
      && (forall p :: p in after.files && p != dst ==> p in fs.files)
      && (dst in after.files && (dst !in fs.files || after.files[dst] != fs.files[dst]) ==>
            obs.contents.Some? && FileHandling.IsPrefix(after.files[dst], obs.contents.value))
  {
    var dst := FileHandling.DestinationPath(destinationDir, sourcePath);
    var (report, after) := CopyFileOutcome(destinationDir, sourcePath, fs, obs, now);
    var made := FileHandling.MakeDirs(fs, destinationDir);
    if obs.mkdirOk && obs.sizeBefore.Some? && obs.sizeBefore == obs.sizeAfter {
      var run := Copy2(obs);
      assert after == if run.0.Some? then made.(files := made.files[dst := run.0.value]) else made;
    } else {
      assert after.files == fs.files;
    }
  }

  /** The source-file observation the src handler would see for the same event, copying in one chunk. */
  function AsCurrent(obs: Observation): FileHandling.Observation {
    FileHandling.Observation(obs.mkdirOk, obs.sizeBefore, obs.sizeAfter, obs.sizeAfter, obs.contents,
                             obs.destinationOpens, None, obs.copystatOk, obs.consoleBroken)
  }

  /**
   * With a broken console the two handlers part ways: src raises before
   * copying, so the destination file is untouched, while file_copier.py writes
   * the whole file and raises afterwards.
   */
  lemma BrokenConsoleDifference(destinationDir: Path, sourcePath: Path, fs: FileHandling.FsState, obs: Observation,
                                now: Utils.Clock)
    requires obs.mkdirOk && obs.sizeBefore.Some? && obs.sizeBefore == obs.sizeAfter
    requires obs.consoleBroken && Copy2(obs).1.None?
    ensures var dst := FileHandling.DestinationPath(destinationDir, sourcePath);
      var legacy := CopyFileOutcome(destinationDir, sourcePath, fs, obs, now);
      var current := FileHandling.CopyFileOutcome(destinationDir, sourcePath, fs, AsCurrent(obs), now);
      && legacy.0 == FileHandling.Raised && current.0 == FileHandling.Raised
      && dst in legacy.1.files && legacy.1.files[dst] == obs.contents.value
      && current.1.files == fs.files
  {
  }

  /** The handler of file_copier.py: `on_created` and `on_modified` both hand files to `_handle_file_event`. */
  class FileHandler {
    const sourceDir: Path
    const destinationDir: Path
    /** The paths being processed right now. */
    var processingFiles: set<Path>

    constructor(sourceDir: Path, destinationDir: Path)
      ensures this.sourceDir == sourceDir && this.destinationDir == destinationDir
      ensures processingFiles == {}
    {
      this.sourceDir := sourceDir;
      this.destinationDir := destinationDir;
      processingFiles := {};
    }

    /** watchdog's dispatch: created and modified file events are handled, everything else is ignored. */
    method Dispatch(event: FileHandling.FileEvent, fs: FileHandling.FsState, obs: Observation, now: Utils.Clock)
      returns (report: FileHandling.Report, fs': FileHandling.FsState, ghost inFlight: set<Path>)
      modifies this
      ensures processingFiles == old(processingFiles)
      ensures (event.kind != FileHandling.Created && event.kind != FileHandling.Modified) || event.isDirectory ==>
        report == FileHandling.Ignored && fs' == fs
      ensures (event.kind == FileHandling.Created || event.kind == FileHandling.Modified) && !event.isDirectory ==>
        && (event.srcPath in old(processingFiles) ==> report == FileHandling.Duplicate && fs' == fs)
        && (event.srcPath !in old(processingFiles) ==>
              && inFlight == old(processingFiles) + {event.srcPath}
              && (report, fs') == CopyFileOutcome(destinationDir, event.srcPath, fs, obs, now))
    {
      if event.kind == FileHandling.Created {
        report, fs', inFlight := OnCreated(event, fs, obs, now);
      } else if event.kind == FileHandling.Modified {
        report, fs', inFlight := OnModified(event, fs, obs, now);
      } else {
        report, fs', inFlight := FileHandling.Ignored, fs, processingFiles;
      }
    }

    /** `on_created`: directory events are ignored, file events handled. */
    method OnCreated(event: FileHandling.FileEvent, fs: FileHandling.FsState, obs: Observation, now: Utils.Clock)
      returns (report: FileHandling.Report, fs': FileHandling.FsState, ghost inFlight: set<Path>)
      modifies this
      ensures processingFiles == old(processingFiles)
      ensures event.isDirectory ==> report == FileHandling.Ignored && fs' == fs
      ensures !event.isDirectory && event.srcPath in old(processingFiles) ==> report == FileHandling.Duplicate && fs' == fs
      ensures !event.isDirectory && event.srcPath !in old(processingFiles) ==>
        && inFlight == old(processingFiles) + {event.srcPath}
        && (report, fs') == CopyFileOutcome(destinationDir, event.srcPath, fs, obs, now)
    {
      if event.isDirectory {
        report, fs', inFlight := FileHandling.Ignored, fs, processingFiles;
      } else {
        report, fs', inFlight := HandleFileEvent(event.srcPath, fs, obs, now);
      }
    }

    /** `on_modified`: the same as `on_created`. */
    method OnModified(event: FileHandling.FileEvent, fs: FileHandling.FsState, obs: Observation, now: Utils.Clock)
      returns (report: FileHandling.Report, fs': FileHandling.FsState, ghost inFlight: set<Path>)
      modifies this
      ensures processingFiles == old(processingFiles)
      ensures event.isDirectory ==> report == FileHandling.Ignored && fs' == fs
      ensures !event.isDirectory && event.srcPath in old(processingFiles) ==> report == FileHandling.Duplicate && fs' == fs
      ensures !event.isDirectory && event.srcPath !in old(processingFiles) ==>
        && inFlight == old(processingFiles) + {event.srcPath}
        && (report, fs') == CopyFileOutcome(destinationDir, event.srcPath, fs, obs, now)
    {
      if event.isDirectory {
        report, fs', inFlight := FileHandling.Ignored, fs, processingFiles;
      } else {
        report, fs', inFlight := HandleFileEvent(event.srcPath, fs, obs, now);
      }
    }

    /**
     * `_handle_file_event`: an event for a path in flight returns at once;
     * otherwise the path is in the set while `_copy_file` runs (`inFlight`)
     * and is removed in the `finally`.
     */
    method HandleFileEvent(sourcePath: Path, fs: FileHandling.FsState, obs: Observation, now: Utils.Clock)
      returns (report: FileHandling.Report, fs': FileHandling.FsState, ghost inFlight: set<Path>)
      modifies this
      ensures processingFiles == old(processingFiles)
      ensures sourcePath in old(processingFiles) ==>
        report == FileHandling.Duplicate && fs' == fs && inFlight == old(processingFiles)
      ensures sourcePath !in old(processingFiles) ==>
        && inFlight == old(processingFiles) + {sourcePath}
        && (report, fs') == CopyFileOutcome(destinationDir, sourcePath, fs, obs, now)
    {
      if sourcePath in processingFiles {
        return FileHandling.Duplicate, fs, processingFiles;
      }
      processingFiles := processingFiles + {sourcePath};
      inFlight := processingFiles;
      report, fs' := CopyFile(sourcePath, fs, obs, now);
      processingFiles := processingFiles - {sourcePath};
    }

    /** `_copy_file` with `shutil.copy2`. */
    method CopyFile(sourcePath: Path, fs: FileHandling.FsState, obs: Observation, now: Utils.Clock)
      returns (report: FileHandling.Report, fs': FileHandling.FsState)
      ensures (report, fs') == CopyFileOutcome(destinationDir, sourcePath, fs, obs, now)
    {
      var fileName := Name(sourcePath);
      var destinationPath := FileHandling.DestinationPath(destinationDir, sourcePath);
      var currentTime := Utils.FormatClock(now);
      if !obs.mkdirOk {
        return ErrorReport(obs, currentTime, fileName, FileHandling.MkdirFailed), fs;
      }
      fs' := FileHandling.MakeDirs(fs, destinationDir);
      if obs.sizeBefore.None? || obs.sizeAfter.None? {
        return ErrorReport(obs, currentTime, fileName, FileHandling.StatFailed), fs';
      }
      if obs.sizeBefore != obs.sizeAfter {
        return FileHandling.Unstable, fs';
      }
      var destination, err := Copy2(obs).0, Copy2(obs).1;
      if destination.Some? {
        fs' := fs'.(files := fs'.files[destinationPath := destination.value]);
      }
      if err.Some? {
        report := ErrorReport(obs, currentTime, fileName, err.value);
      } else if obs.consoleBroken {
        report := FileHandling.Raised;
      } else {
        report := FileHandling.Copied(currentTime, fileName, sourcePath, destinationPath);
      }
    }
  }
}
