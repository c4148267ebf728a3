/**
 * The part of a watchdog `Observer` the session controller relies on: which
 * directory it watches, with which handler, and whether its thread was
 * started, is running or was stopped. Its threads are not modelled.
 */
module Observers {
  import opened Wrappers
  import opened Paths

  /** The life of an observer thread. `Stopped(started)` remembers whether it ever ran. */
  datatype Phase = Unstarted | Running | Stopped(started: bool)

  /** An observer with one scheduled handler. */
  datatype Watch<H> = Watch(dir: Path, recursive: bool, handler: H, phase: Phase)

  /**
   * The exceptions that leave the controller's methods: end of console input
   * (`EOFError`), joining a thread that was never started (`RuntimeError`),
   * a watch that cannot start, a missing source directory seen through `None`
   * (`AttributeError`), and Ctrl-C (`KeyboardInterrupt`).
   */
  datatype MonitorError = EndOfInput | JoinNotStarted | StartFailed | NoSourceDirectory | KeyboardInterrupt

  /** `observer.stop()`: a running or unstarted observer becomes stopped; stopping again changes nothing. */
  function StopWatch<H>(w: Watch<H>): (r: Watch<H>)
    ensures r.phase.Stopped? && r.dir == w.dir && r.recursive == w.recursive && r.handler == w.handler
    ensures r.phase.started <==> w.phase == Running || w.phase == Stopped(true)
  {
    match w.phase
    case Unstarted => w.(phase := Stopped(false))
    case Running => w.(phase := Stopped(true))
    case Stopped(_) => w
  }

  /** `observer.join()` after `stop()`: fails exactly when the thread was never started. */
  function JoinWatch<H>(w: Watch<H>): (r: Outcome<MonitorError>)
    requires w.phase.Stopped?
    ensures r.Fail? <==> !w.phase.started
    ensures r.Fail? ==> r.error == JoinNotStarted
  {
    if w.phase.started then Pass else Fail(JoinNotStarted)
  }

  /** Stopping is idempotent, and a stopped observer is never running. */
  lemma StopWatchIdempotent<H>(w: Watch<H>)
    ensures StopWatch(StopWatch(w)) == StopWatch(w)
    ensures StopWatch(w).phase != Running
  {
  }
}
