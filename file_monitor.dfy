/**
 * The session controller of src/file_monitor.py: one watched source folder at
 * a time, a menu that switches folders or quits, and the run loop that keeps
 * the program alive until the menu or Ctrl-C ends it.
 *
 * The console is a sequence of lines that the menu and the folder prompt both
 * consume. Which directories exist, and which of them an observer fails to
 * start on, are fixed when the controller is built. The keyboard hook's ESC
 * presses and Ctrl-C arrive as a sequence of ticks of the run loop.
 */
module Monitor {
  import opened Wrappers
  import opened Paths
  import opened Text
  import opened Observers
  import Utils
  import FileHandling
  import LegacyCopier

  /**
   * The event handler an observer is scheduled with: src's `FileHandler`, or
   * the `FileHandler` of file_copier.py, which also reacts to created files and
   * copies with `shutil.copy2`.
   */
  datatype AnyHandler = Current(currentHandler: FileHandling.FileHandler) | Legacy(legacyHandler: LegacyCopier.FileHandler)
  {
    function Obj(): object {
      match this
      case Current(h) => h
      case Legacy(h) => h
    }
  }

  /** `h` is a handler of the given version for `sourceDir` and `destinationDir`, with nothing in flight. */
  predicate NewHandlerFor(h: AnyHandler, isLegacy: bool, sourceDir: Path, destinationDir: Path)
    reads h.Obj()
  {
    match h
    case Current(c) => !isLegacy && c.sourceDir == sourceDir && c.destinationDir == destinationDir && c.processingFiles == {}
    case Legacy(l) => isLegacy && l.sourceDir == sourceDir && l.destinationDir == destinationDir && l.processingFiles == {}
  }

  type HandlerWatch = Watch<AnyHandler>

  /**
   * How `start_monitoring` ended: it printed the missing-directory error, the
   * start banner or the caught start error, or an exception left it.
   */
  datatype StartReport = NoSuchDirectory | Started | StartErrorCaught | Propagated(error: MonitorError)

  /** What happens during one 0.1-second sleep of the run loop. */
  datatype Tick = Idle | Escape | Interrupt

  /** How `run` returned normally: the loop saw `running` cleared, Ctrl-C was caught, or another exception was. */
  datatype RunEnd = Quit | Interrupted | Fatal(error: MonitorError)

  /** `run` returned, raised from its `finally`, or is still looping when the ticks run out. */
  datatype RunResult = Finished(how: RunEnd) | Raised(error: MonitorError) | StillRunning

  /** `if self.observer: self.observer.stop()`. */
  function StopCurrent(o: Option<HandlerWatch>): (r: Option<HandlerWatch>)
    ensures r.Some? <==> o.Some?
    ensures r.Some? ==> r.value == StopWatch(o.value) && r.value.phase != Running
  {
    if o.Some? then Some(StopWatch(o.value)) else None
  }

  /** The `join()` that follows that stop, when there is an observer. */
  function JoinCurrent(o: Option<HandlerWatch>): (r: Outcome<MonitorError>)
    ensures r.Fail? <==> o.Some? && !StopWatch(o.value).phase.started
    ensures r.Fail? ==> r.error == JoinNotStarted
  {
    if o.Some? then JoinWatch(StopWatch(o.value)) else Pass
  }

  /** The observer a replacement pushes out, as a sequence of at most one. */
  function AsSeq(o: Option<HandlerWatch>): (r: seq<HandlerWatch>)
    ensures |r| <= 1 && (r == [] <==> o.None?)
    ensures o.Some? ==> r[0] == o.value
  {
    if o.Some? then [o.value] else []
  }

  function HandlerOf(o: Option<HandlerWatch>): set<object> {
    if o.Some? then {o.value.handler.Obj()} else {}
  }

  /** No watch of the sequence is running. */
  ghost predicate Quiet(ws: seq<HandlerWatch>) {
    forall i :: 0 <= i < |ws| ==> ws[i].phase != Running
  }

  /** Replacing an observer that is not running keeps a quiet history quiet. */
  lemma RetireKeepsQuiet(retired: seq<HandlerWatch>, current: Option<HandlerWatch>)
    requires Quiet(retired)
    requires current.None? || current.value.phase != Running
    ensures Quiet(retired + AsSeq(current))
  {
    var after := retired + AsSeq(current);
    forall i | 0 <= i < |after|
      ensures after[i].phase != Running
    {
      if i >= |retired| {
        assert after[i] == current.value;
      }
    }
  }

  /**
   * The session controller. `legacy` selects the FileMonitor of file_copier.py,
   * which differs from the one of src/file_monitor.py in three places:
   * `show_menu` resets its flag only when the action returns normally,
   * `start_monitoring` has no `None` check and no `try`, so the missing
   * directory and a failed start raise, and `run` catches only `Exception`,
   * so Ctrl-C leaves it after the `finally`.
   */
  class FileMonitor {
    const legacy: bool
    const baseSourceDir: Path
    const destinationDir: Path
    /** The directories for which `Path.exists()` holds. */
    const existing: set<Path>
    /** The existing directories on which scheduling or starting an observer raises. */
    const unwatchable: set<Path>

    var observer: Option<HandlerWatch>
    /** Every observer the controller has replaced, oldest first. */
    ghost var retired: seq<HandlerWatch>
    var currentSourceDir: Option<Path>
    var running: bool
    var menuActive: bool
    /** The console lines not read yet. */
    var input: seq<string>

    /** Every watch this controller has made, the current one last. */
    ghost function History(): seq<HandlerWatch>
      reads this
    {
      retired + AsSeq(observer)
    }

    /** No replaced observer is still running. */
    ghost predicate Valid()
      reads this
    {
      Quiet(retired)
    }

    /** The current observer, if any, is not running. */
    predicate NotWatching()
      reads this
    {
      observer.None? || observer.value.phase != Running
    }

    constructor(legacy: bool, baseSourceDir: Path, destinationDir: Path, existing: set<Path>, unwatchable: set<Path>,
                input: seq<string>)
      ensures this.legacy == legacy
      ensures this.baseSourceDir == baseSourceDir && this.destinationDir == destinationDir
      ensures this.existing == existing && this.unwatchable == unwatchable && this.input == input
      ensures observer == None && retired == [] && currentSourceDir == None
      ensures running && !menuActive
      ensures Valid() && NotWatching()
    {
      this.legacy := legacy;
      this.baseSourceDir := baseSourceDir;
      this.destinationDir := destinationDir;
      this.existing := existing;
      this.unwatchable := unwatchable;
      this.input := input;
      observer := None;
      retired := [];
      currentSourceDir := None;
      running := true;
      menuActive := false;
    }

    /**
     * What `start_monitoring` does for a source directory: report that it
     * does not exist, start, or fail to start. A failed start is caught in
     * src; in file_copier.py it propagates, and so does the `AttributeError`
     * of `None.exists()`.
     */
    function ExpectedReport(dir: Option<Path>): (r: StartReport)
      ensures r == Started <==> dir.Some? && dir.value in existing && dir.value !in unwatchable
      ensures r == NoSuchDirectory <==> (dir.None? && !legacy) || (dir.Some? && dir.value !in existing)
      ensures r.Propagated? <==> legacy && (dir.None? || (dir.value in existing && dir.value in unwatchable))
      ensures r == StartErrorCaught <==> !legacy && dir.Some? && dir.value in existing && dir.value in unwatchable
    {
      if dir.None? then (if legacy then Propagated(NoSourceDirectory) else NoSuchDirectory)
      else if dir.value !in existing then NoSuchDirectory
      else if dir.value in unwatchable then (if legacy then Propagated(StartFailed) else StartErrorCaught)
      else Started
    }

    /**
     * The observer and history `start_monitoring` leaves, from the observer
     * `prev` and history `prevRetired` it found: nothing changes without an
     * existing directory; otherwise a new non-recursive watch with a fresh
     * handler of the controller's version for the directory replaces `prev`,
     * running unless starting it raised.
     */
    ghost predicate StartDone(prev: Option<HandlerWatch>, prevRetired: seq<HandlerWatch>)
      reads this`observer, this`retired, this`currentSourceDir, HandlerOf(observer)
    {
      var dir := currentSourceDir;
      if dir.None? || dir.value !in existing then
        observer == prev && retired == prevRetired
      else
        && observer.Some?
        && observer.value.dir == dir.value
        && !observer.value.recursive
        && NewHandlerFor(observer.value.handler, legacy, dir.value, destinationDir)
        && observer.value.phase == (if dir.value in unwatchable then Unstarted else Running)
        && retired == prevRetired + AsSeq(prev)
    }

    /** The fields `stop()` leaves, from the observer it found, and the exception of its `join()`. */
    ghost predicate StopDone(prev: Option<HandlerWatch>, e: Outcome<MonitorError>)
      reads this`observer, this`running
    {
      && !running
      && observer == StopCurrent(prev)
      && e == JoinCurrent(prev)
    }

    /**
     * What `change_source_folder` leaves, from the state it found: the old
     * observer is stopped and joined, and a failed join ends the call; then
     * the prompt reads lines until one is a valid identifier, or raises at the
     * end of input; the source directory becomes the base joined with that
     * identifier, and monitoring starts there.
     */
    ghost predicate ChangeDone(prev: Option<HandlerWatch>, prevRetired: seq<HandlerWatch>, prevDir: Option<Path>,
                               prevInput: seq<string>, e: Outcome<MonitorError>)
      reads this`observer, this`retired, this`currentSourceDir, this`input, HandlerOf(observer)
    {
      var stopped := StopCurrent(prev);
      if JoinCurrent(prev).Fail? then
        && e == Fail(JoinNotStarted)
        && observer == stopped && retired == prevRetired
        && currentSourceDir == prevDir && input == prevInput
      else
        var prompt := Utils.PromptFolderName(prevInput);
        && input == prompt.1
        && (prompt.0.Err? ==>
              && e == Fail(EndOfInput)
              && observer == stopped && retired == prevRetired && currentSourceDir == prevDir)
        && (prompt.0.Ok? ==>
              && currentSourceDir == Some(Join(baseSourceDir, prompt.0.value))
              && (e.Fail? <==> ExpectedReport(currentSourceDir).Propagated?)
              && (e.Fail? ==> e.error == ExpectedReport(currentSourceDir).error)
              && StartDone(stopped, prevRetired))
    }

    /** `start_monitoring`. */
    method StartMonitoring() returns (report: StartReport)
      modifies this
      ensures running == old(running) && menuActive == old(menuActive)
      ensures input == old(input) && currentSourceDir == old(currentSourceDir)
      ensures report == ExpectedReport(currentSourceDir)
      ensures StartDone(old(observer), old(retired))
      ensures currentSourceDir.Some? && currentSourceDir.value in existing ==> fresh(observer.value.handler.Obj())
      ensures old(Valid()) && old(NotWatching()) ==> Valid()
    {
      if currentSourceDir.None? {
        report := if legacy then Propagated(NoSourceDirectory) else NoSuchDirectory;
        return;
      }
      if currentSourceDir.value !in existing {
        report := NoSuchDirectory;
        return;
      }
      var dir := currentSourceDir.value;
      var handler: AnyHandler;
      if legacy {
        var h := new LegacyCopier.FileHandler(dir, destinationDir);
        handler := Legacy(h);
      } else {
        var h := new FileHandling.FileHandler(dir, destinationDir);
        handler := Current(h);
      }
      if Valid() && NotWatching() {
        RetireKeepsQuiet(retired, observer);
      }
      retired := retired + AsSeq(observer);
      observer := Some(Watch(dir, false, handler, Unstarted));
      if dir in unwatchable {
        report := if legacy then Propagated(StartFailed) else StartErrorCaught;
      } else {
        observer := Some(observer.value.(phase := Running));
        report := Started;
      }
    }

    /** `stop()`: clears `running`, then stops and joins the observer; the observer is kept. */
    method Stop() returns (e: Outcome<MonitorError>)
      modifies this
      ensures StopDone(old(observer), e)
      ensures retired == old(retired) && currentSourceDir == old(currentSourceDir)
      ensures menuActive == old(menuActive) && input == old(input)
      ensures NotWatching()
      ensures old(Valid()) ==> Valid()
    {
      running := false;
      e := Pass;
      if observer.Some? {
        observer := Some(StopWatch(observer.value));
        e := JoinWatch(observer.value);
      }
    }

    /** `change_source_folder`. */
    method ChangeSourceFolder() returns (e: Outcome<MonitorError>)
      modifies this
      ensures ChangeDone(old(observer), old(retired), old(currentSourceDir), old(input), e)
      ensures running == old(running) && menuActive == old(menuActive)
      ensures old(Valid()) ==> Valid()
    {
      if observer.Some? {
        observer := Some(StopWatch(observer.value));
        e := JoinWatch(observer.value);
        if e.Fail? {
          return;
        }
      }
      var name, consumed := Utils.GetValidFolderName(input);
      input := input[consumed..];
      if name.Err? {
        e := Fail(EndOfInput);
        return;
      }
      currentSourceDir := Some(Join(baseSourceDir, name.value));
      var report := StartMonitoring();
      e := if report.Propagated? then Fail(report.error) else Pass;
    }

    /**
     * What the body of `show_menu` leaves, from the state it found: the end of
     * input raises; otherwise one line is read, and its stripped text "1"
     * changes the source folder, "2" stops the monitor, and anything else does
     * nothing.
     */
    ghost predicate MenuDone(prev: Option<HandlerWatch>, prevRetired: seq<HandlerWatch>, prevDir: Option<Path>,
                             prevRunning: bool, prevInput: seq<string>, e: Outcome<MonitorError>)
      reads this`observer, this`retired, this`currentSourceDir, this`running, this`input, HandlerOf(observer)
    {
      if prevInput == [] then
        && e == Fail(EndOfInput) && input == []
        && observer == prev && retired == prevRetired && currentSourceDir == prevDir && running == prevRunning
      else
        var choice := StripSpace(prevInput[0]);
        if choice == "1" then
          ChangeDone(prev, prevRetired, prevDir, prevInput[1..], e) && running == prevRunning
        else if choice == "2" then
          && StopDone(prev, e)
          && retired == prevRetired && currentSourceDir == prevDir && input == prevInput[1..]
        else
          && e == Pass && input == prevInput[1..]
          && observer == prev && retired == prevRetired && currentSourceDir == prevDir && running == prevRunning
    }

    /** The body of `show_menu` after the flag is set: read a choice and act on it. */
    method MenuChoice() returns (e: Outcome<MonitorError>)
      modifies this
      ensures MenuDone(old(observer), old(retired), old(currentSourceDir), old(running), old(input), e)
      ensures menuActive == old(menuActive)
      ensures old(Valid()) ==> Valid()
    {
      if input == [] {
        return Fail(EndOfInput);
      }
      var choice := StripSpace(input[0]);
      input := input[1..];
      if choice == "1" {
        e := ChangeSourceFolder();
      } else if choice == "2" {
        e := Stop();
      } else {
        e := Pass;
      }
    }

    /**
     * `show_menu`: ignored while a menu is open; otherwise runs the choice and
     * closes the menu again; in src always (`finally`), in file_copier.py only
     * when the choice raised nothing.
     */
    method ShowMenu() returns (e: Outcome<MonitorError>)
      modifies this
      ensures old(menuActive) ==> e == Pass && unchanged(this)
      ensures !old(menuActive) ==>
        && (menuActive <==> legacy && e.Fail?)
        && MenuDone(old(observer), old(retired), old(currentSourceDir), old(running), old(input), e)
      ensures old(Valid()) ==> Valid()
    {
      if menuActive {
        return Pass;
      }
      menuActive := true;
      e := MenuChoice();
      assert this !in HandlerOf(observer);
      if !legacy || e.Pass? {
        menuActive := false;
      }
    }

    /**
     * `run`: prompt for the first folder and start monitoring it, then loop
     * while `running`, one tick per sleep. ESC opens the menu on the keyboard
     * hook's thread, so what the menu raises never reaches the loop. Ctrl-C is
     * caught in src and propagates after the `finally` in file_copier.py; any
     * other exception is reported as fatal. The `finally` always stops the
     * monitor, and an exception of that stop replaces the result.
     */
    method Run(ticks: seq<Tick>) returns (r: RunResult)
      modifies this
      ensures r.StillRunning? ==> running
      ensures !r.StillRunning? ==> !running && NotWatching()
      ensures r.Raised? ==> r.error == JoinNotStarted || (legacy && r.error == KeyboardInterrupt)
      ensures r.Finished? ==> r.how != Interrupted || !legacy
      ensures r.Finished? && r.how.Fatal? ==> r.how.error == EndOfInput || (legacy && r.how.error == StartFailed)
      ensures Utils.PromptFolderName(old(input)).0.Err? ==>
        && input == [] && currentSourceDir == old(currentSourceDir)
        && r == (if JoinCurrent(old(observer)).Fail? then Raised(JoinNotStarted) else Finished(Fatal(EndOfInput)))
      ensures old(Valid()) && old(NotWatching()) ==> Valid()
    {
      var name, consumed := Utils.GetValidFolderName(input);
      input := input[consumed..];
      var how: RunEnd;
      if name.Err? {
        how := Fatal(EndOfInput);
      } else {
        currentSourceDir := Some(Join(baseSourceDir, name.value));
        var report := StartMonitoring();
        if report.Propagated? {
          how := Fatal(report.error);
        } else {
          how := Quit;
          var i := 0;
          while running
            invariant i <= |ticks|
            invariant old(Valid()) && old(NotWatching()) ==> Valid()
            invariant how == Quit
            decreases |ticks| - i
          {
            if i == |ticks| {
              return StillRunning;
            }
            match ticks[i] {
              case Idle =>
              case Escape =>
                var _ := ShowMenu();
              case Interrupt =>
                how := Interrupted;
                break;
            }
            i := i + 1;
          }
        }
      }
      var e := Stop();
      if e.Fail? {
        r := Raised(e.error);
      } else if how == Interrupted && legacy {
        r := Raised(KeyboardInterrupt);
      } else {
        r := Finished(how);
      }
    }
  }

  /** In a valid controller at most one watch of its whole history is running: the current one. */
  lemma AtMostOneRunning(m: FileMonitor, i: nat, j: nat)
    requires m.Valid()
    requires i < j < |m.History()|
    ensures m.History()[i].phase != Running || m.History()[j].phase != Running
  {
    assert i < |m.retired|;
    assert m.History()[i] == m.retired[i];
  }

  /** Once a valid controller has stopped its observer, no watch of its history is running. */
  lemma StoppedControllerIsQuiet(m: FileMonitor)
    requires m.Valid() && m.NotWatching()
    ensures Quiet(m.History())
  {
    RetireKeepsQuiet(m.retired, m.observer);
  }
}
