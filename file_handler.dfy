/**
 * src/file_handler.py: the progress bar, the chunked copy and the per-file
 * event handler with its in-flight set.
 *
 * The file system is not touched: `FsState` is the part of it the handler
 * changes (directories and destination files) and `Observation` is what the
 * file system answers during one event (the two sizes around the wait, the
 * bytes of the source, which operation raises).
 */
module FileHandling {
  import opened Wrappers
  import opened Text
  import opened Paths
  import Utils

  newtype byte = b: int | 0 <= b < 256

  const DefaultBarWidth: nat := 50
  const DefaultChunkSize: int := 8192

  // ---------------------------------------------------------------------------
  // ProgressBar.update
  // ---------------------------------------------------------------------------

  /**
   * `k * n` and `a // b` written as recursions, so that the functions below
   * carry no product or quotient of two variables; the lemmas after them
   * connect the two with `*` and `/`.
   */
  function Times(k: nat, n: nat): nat {
    if k == 0 then 0 else n + Times(k - 1, n)
  }

  function Quotient(a: nat, b: nat): nat
    requires b > 0
    decreases a
  {
    if a < b then 0 else 1 + Quotient(a - b, b)
  }

  lemma {:induction false} TimesIsProduct(k: nat, n: nat)
    ensures Times(k, n) == k * n
  {
    if k > 0 {
      TimesIsProduct(k - 1, n);
      assert k * n == (k - 1) * n + n;
    }
  }

  /** `Quotient(a, b)` is the whole part of `a / b`: `q * b <= a < q * b + b`. */
  lemma {:induction false} QuotientBounds(a: nat, b: nat)
    requires b > 0
    ensures Quotient(a, b) * b <= a < Quotient(a, b) * b + b
    decreases a
  {
    if a >= b {
      QuotientBounds(a - b, b);
      var q := Quotient(a - b, b);
      assert (q + 1) * b == q * b + b;
    }
  }

  lemma MulMonotone(a: nat, b: nat, c: nat)
    requires a <= b
    ensures a * c <= b * c && c * a <= c * b
  {
  }

  lemma QuotientAtMost(x: nat, y: nat, t: nat)
    requires t > 0 && x <= y * t
    ensures Quotient(x, t) <= y
  {
    QuotientBounds(x, t);
  }

  lemma QuotientAtLeast(x: nat, y: nat, t: nat)
    requires t > 0 && x >= y * t
    ensures Quotient(x, t) >= y
  {
    QuotientBounds(x, t);
    var q := Quotient(x, t);
    if q < y {
      MulMonotone(q + 1, y, t);
    }
  }

  /** The percentage shown, `min(100, int(current / total * 100))`, computed exactly. */
  function Percentage(current: nat, total: nat): (p: nat)
    requires total > 0
    ensures p <= 100
  {
    var q := Quotient(100 * current, total);
    if q < 100 then q else 100
  }

  /**
   * The percentage reaches 100 exactly when the copy reaches the total; below
   * it, it is the whole part of `100 * current / total`.
   */
  lemma PercentageIsFloor(current: nat, total: nat)
    requires total > 0
    ensures Percentage(current, total) == 100 <==> current >= total
    ensures var p := Percentage(current, total);
      current < total ==> p * total <= 100 * current < (p + 1) * total
  {
    QuotientBounds(100 * current, total);
    var q := Quotient(100 * current, total);
    if current >= total {
      QuotientAtLeast(100 * current, 100, total);
    } else {
      if q >= 100 {
        MulMonotone(100, q, total);
      }
      assert (q + 1) * total == q * total + total;
    }
  }

  /** `int(width * current / total)`: how many `=` the bar shows. */
  function FilledWidth(width: nat, current: nat, total: nat): nat
    requires total > 0
  {
    Quotient(Times(width, current), total)
  }

  /** The filled part fits the width until the copy reaches the total, and fills it from then on. */
  lemma FilledWidthBounds(width: nat, current: nat, total: nat)
    requires total > 0
    ensures current <= total ==> FilledWidth(width, current, total) <= width
    ensures current >= total ==> FilledWidth(width, current, total) >= width
  {
    TimesIsProduct(width, current);
    var x := width * current;
    if current <= total {
      MulMonotone(current, total, width);
      QuotientAtMost(x, width, total);
    }
    if current >= total {
      MulMonotone(total, current, width);
      QuotientAtLeast(x, width, total);
    }
  }

  /** `'=' * filled + '-' * (width - filled)`. */
  function Bar(width: nat, current: nat, total: nat): string
    requires total > 0
  {
    var f := FilledWidth(width, current, total);
    Repeat('=', f) + Repeat('-', width - f)
  }

  /**
   * While the copy has not passed the total, the bar is exactly `width`
   * characters: a run of `=` then a run of `-`. Once more bytes than the total
   * were copied (the file grew after its size was read), the bar is longer.
   */
  lemma BarShape(width: nat, current: nat, total: nat)
    requires total > 0
    ensures current <= total ==> |Bar(width, current, total)| == width
    ensures current > total ==> |Bar(width, current, total)| == FilledWidth(width, current, total) >= width
    ensures var b, f := Bar(width, current, total), FilledWidth(width, current, total);
      && (forall k :: 0 <= k < |b| && k < f ==> b[k] == '=')
      && (forall k :: 0 <= k < |b| && f <= k ==> b[k] == '-')
  {
    FilledWidthBounds(width, current, total);
    var f := FilledWidth(width, current, total);
    var b := Bar(width, current, total);
    forall k | 0 <= k < |b| && f <= k ensures b[k] == '-' {
      assert b[k] == Repeat('-', width - f)[k - |Repeat('=', f)|];
    }
  }

  /**
   * `n / d` rounded to the nearest integer, ties to the even neighbour: how
   * `format(x, ".1f")` rounds `x * 10` for an `x` that a float holds exactly.
   */
  function RoundHalfEven(n: nat, d: nat): nat
    requires d > 0
  {
    var q, rem := n / d, n % d;
    if 2 * rem < d then q
    else if 2 * rem > d then q + 1
    else if q % 2 == 0 then q
    else q + 1
  }

  /** The rounded value is within half a unit of the exact quotient. */
  lemma RoundHalfEvenIsNearest(n: nat, d: nat)
    requires d > 0
    ensures var r := RoundHalfEven(n, d);
      && (r * d <= n ==> 2 * (n - r * d) <= d)
      && (r * d > n ==> 2 * (r * d - n) <= d)
  {
    var q, rem := n / d, n % d;
    assert q * d + rem == n;
    assert (q + 1) * d == q * d + d;
  }

  /** A count of tenths written with one decimal: `12` is `"1.2"`. */
  function Tenths(t: nat): string {
    NatToString(t / 10) + "." + [Digit(t % 10)]
  }

  /**
   * The speed text of `update`, computed from the byte count alone: kilobytes
   * below 1024 KB, megabytes from there on, one decimal each.
   */
  function SpeedText(current: nat): string {
    if current < 1024 * 1024 then Tenths(RoundHalfEven(10 * current, 1024)) + " KB/s"
    else Tenths(RoundHalfEven(10 * current, 1024 * 1024)) + " MB/s"
  }

  /** `f"\r[{bar}] {percentage}% ({speed_str})"`. */
  function ProgressLine(width: nat, current: nat, total: nat): string
    requires total > 0
  {
    "\r[" + Bar(width, current, total) + "] " + NatToString(Percentage(current, total)) + "% (" + SpeedText(current) + ")"
  }

  /** The exceptions of the copy step, each caught by `_copy_file`'s `except Exception`. */
  datatype CopyError =
    | MkdirFailed
    | StatFailed
    | SourceOpenFailed
    | DestinationOpenFailed
    | InvalidReadSize
    | WriteFailed
    | ZeroDivision
    | MetadataFailed

  /** The ASCII progress bar; `lastPrintedLen` is the length of the last line printed. */
  class ProgressBar {
    const totalSize: nat
    const width: nat
    var lastPrintedLen: nat

    constructor(totalSize: nat, width: nat)
      ensures this.totalSize == totalSize && this.width == width && lastPrintedLen == 0
    {
      this.totalSize := totalSize;
      this.width := width;
      lastPrintedLen := 0;
    }

    /**
     * `update(current_size)`: returns what it prints. A shorter line than the
     * previous one is preceded by blanking the previous line; a newline follows
     * only at 100%. With a total of 0 the division raises before anything is printed.
     */
    method Update(currentSize: nat) returns (r: Result<string, CopyError>)
      modifies this
      ensures totalSize == 0 ==> r == Err(ZeroDivision) && lastPrintedLen == old(lastPrintedLen)
      ensures totalSize > 0 ==>
        && r == Ok(UpdateOutput(width, currentSize, totalSize, old(lastPrintedLen)))
        && lastPrintedLen == |ProgressLine(width, currentSize, totalSize)|
    {
      if totalSize == 0 {
        return Err(ZeroDivision);
      }
      var percentage := Percentage(currentSize, totalSize);
      var line := ProgressLine(width, currentSize, totalSize);
      var clear := if |line| < lastPrintedLen then "\r" + Repeat(' ', lastPrintedLen) else "";
      var newline := if percentage == 100 then "\n" else "";
      lastPrintedLen := |line|;
      r := Ok(clear + line + newline);
    }
  }

  /**
   * What one `update` prints after a line of `lastLen` characters: blanking
   * first when the new line is shorter, then the line, then a newline at 100%.
   */
  function UpdateOutput(width: nat, current: nat, total: nat, lastLen: nat): string
    requires total > 0
  {
    var line := ProgressLine(width, current, total);
    (if |line| < lastLen then "\r" + Repeat(' ', lastLen) else "")
    + line
    + (if Percentage(current, total) == 100 then "\n" else "")
  }

  /**
   * The printed text ends the console line exactly when the copy has reached
   * the total, and it never blanks more than the previous line's length.
   */
  lemma UpdateOutputEnds(width: nat, current: nat, total: nat, lastLen: nat)
    requires total > 0
    ensures var out := UpdateOutput(width, current, total, lastLen);
      && out != []
      && (out[|out| - 1] == '\n' <==> current >= total)
      && (out[0] == '\r')
      && |ProgressLine(width, current, total)| <= |out| <= |ProgressLine(width, current, total)| + lastLen + 2
  {
    PercentageIsFloor(current, total);
    var line := ProgressLine(width, current, total);
    assert line[|line| - 1] == ')';
    assert line[0] == '\r';
  }

  // ---------------------------------------------------------------------------
  // copy_with_progress
  // ---------------------------------------------------------------------------

  /**
   * How many bytes `read(chunkSize)` returns at offset `pos` of an `n`-byte
   * source: `-1` reads everything, `0` reads nothing.
   */
  function ReadLength(pos: nat, n: nat, chunkSize: int): (len: nat)
    requires pos <= n && chunkSize >= -1
    ensures pos + len <= n
    ensures len == 0 <==> pos == n || chunkSize == 0
    ensures chunkSize > 0 ==> len <= chunkSize && (len == chunkSize || pos + len == n)
  {
    if chunkSize == -1 || n - pos <= chunkSize then n - pos else chunkSize
  }

  /**
   * The successive values of `copied_size` from offset `pos` on: one per
   * non-empty chunk, each the offset after that chunk.
   */
  function Ends(pos: nat, n: nat, chunkSize: int): seq<nat>
    requires pos <= n && chunkSize >= -1
    decreases n - pos
  {
    var len := ReadLength(pos, n, chunkSize);
    if len == 0 then [] else [pos + len] + Ends(pos + len, n, chunkSize)
  }

  /**
   * The offsets passed to `progress.update` are strictly increasing, lie in
   * `(pos, n]`, end at `n`, and there are none exactly when nothing is read.
   */
  lemma {:induction false} EndsShape(pos: nat, n: nat, chunkSize: int)
    requires pos <= n && chunkSize >= -1
    ensures var r := Ends(pos, n, chunkSize);
      && (forall i :: 0 <= i < |r| ==> pos < r[i] <= n)
      && (forall i, j :: 0 <= i < j < |r| ==> r[i] < r[j])
      && (r == [] <==> pos == n || chunkSize == 0)
      && (r != [] ==> r[|r| - 1] == n)
    decreases n - pos
  {
    var len := ReadLength(pos, n, chunkSize);
    if len > 0 {
      var next := pos + len;
      EndsShape(next, n, chunkSize);
      var rest := Ends(next, n, chunkSize);
      var r := Ends(pos, n, chunkSize);
      assert r == [next] + rest;
      assert forall i :: 0 < i < |r| ==> r[i] == rest[i - 1];
    }
  }
  /** With a positive chunk size there is one update per chunk: `n - pos` rounded up to a multiple of the chunk size. */
  lemma {:induction false} EndsCount(pos: nat, n: nat, chunkSize: int)
    requires pos < n && chunkSize > 0
    ensures var k := |Ends(pos, n, chunkSize)|;
      (k - 1) * chunkSize < n - pos <= k * chunkSize
    decreases n - pos
  {
    var len := ReadLength(pos, n, chunkSize);
    var next := pos + len;
    if next < n {
      EndsCount(next, n, chunkSize);
      var k := |Ends(next, n, chunkSize)|;
      assert |Ends(pos, n, chunkSize)| == k + 1;
      assert (k + 1) * chunkSize == k * chunkSize + chunkSize;
    } else {
      assert Ends(next, n, chunkSize) == [];
    }
  }

  /** One more chunk read: its end moves from the pending offsets to the reported ones. */
  lemma EndsStep(reported: seq<nat>, pos: nat, next: nat, n: nat, chunkSize: int, ends: seq<nat>)
    requires pos <= n && chunkSize >= -1 && ReadLength(pos, n, chunkSize) > 0
    requires next == pos + ReadLength(pos, n, chunkSize)
    requires reported + Ends(pos, n, chunkSize) == ends
    ensures |reported| < |ends| && reported == ends[..|reported|]
    ensures reported + [next] == ends[..|reported| + 1]
    ensures (reported + [next]) + Ends(next, n, chunkSize) == ends
    ensures LastOr0(reported + [next]) == next
  {
    assert Ends(pos, n, chunkSize) == [next] + Ends(next, n, chunkSize);
    assert (reported + [next]) + Ends(next, n, chunkSize) == reported + Ends(pos, n, chunkSize);
  }

  function LastOr0(s: seq<nat>): nat {
    if s == [] then 0 else s[|s| - 1]
  }

  /** What the file system does during one event, read instead of performing I/O. */
  datatype Observation = Observation(
    /** `destination_dir.mkdir(parents=True, exist_ok=True)` succeeds. */
    mkdirOk: bool,
    /** `source_path.stat().st_size` before the half-second wait; `None` when stat raises. */
    sizeBefore: Option<nat>,
    /** The same after the wait. */
    sizeAfter: Option<nat>,
    /** `os.path.getsize(src)` when the copy starts; `None` when it raises. */
    totalSize: Option<nat>,
    /** The bytes reading the source yields; `None` when opening it raises. */
    contents: Option<seq<byte>>,
    /** `open(dst, 'wb')` succeeds. */
    destinationOpens: bool,
    /** The index of the chunk whose write raises, if one does. */
    failWriteAt: Option<nat>,
    /** `shutil.copystat(src, dst)` succeeds. */
    copystatOk: bool,
    /** Printing to the console raises. */
    consoleBroken: bool)

  /**
   * How the chunk loop ends for `chunks` non-empty chunks: the number of
   * `progress.update` calls made and the exception that stops it, if any. A
   * failing write stops it before its chunk is reported; with a total of 0 the
   * first update divides by zero after the first chunk was written.
   */
  function LoopStop(chunks: nat, total: nat, failWriteAt: Option<nat>): (r: (nat, Option<CopyError>))
    ensures r.0 <= chunks
  {
    if failWriteAt.Some? && failWriteAt.value < chunks && (failWriteAt.value == 0 || total > 0) then (failWriteAt.value, Some(WriteFailed))
    else if total == 0 && chunks > 0 then (1, Some(ZeroDivision))
    else (chunks, None)
  }

  /**
   * The effect of one `copy_with_progress` call: the destination file's content
   * afterwards (`None` when it was never opened), the arguments of the
   * `progress.update` calls in order, and the exception it raises, if any.
   */
  datatype CopyRun = CopyRun(destination: Option<seq<byte>>, updates: seq<nat>, error: Option<CopyError>)

  /** The reference definition of `copy_with_progress`, without the loop. */
  function CopyResult(chunkSize: int, obs: Observation): CopyRun {
    if obs.totalSize.None? then CopyRun(None, [], Some(StatFailed))
    else if obs.contents.None? then CopyRun(None, [], Some(SourceOpenFailed))
    else if !obs.destinationOpens then CopyRun(None, [], Some(DestinationOpenFailed))
    else if chunkSize < -1 then CopyRun(Some([]), [], Some(InvalidReadSize))
    else
      var content := obs.contents.value;
      var ends := Ends(0, |content|, chunkSize);
      var stop := LoopStop(|ends|, obs.totalSize.value, obs.failWriteAt);
      var updates := ends[..stop.0];
      EndsShape(0, |content|, chunkSize);
      var error := if stop.1.None? && !obs.copystatOk then Some(MetadataFailed) else stop.1;
      CopyRun(Some(content[..LastOr0(updates)]), updates, error)
  }

  /** Both files open and the read size is one `read` accepts. */
  predicate Opened(chunkSize: int, obs: Observation) {
    obs.totalSize.Some? && obs.contents.Some? && obs.destinationOpens && chunkSize >= -1
  }

  /** The copy raises nothing: the loop runs to the end and the metadata is copied. */
  predicate CopySucceeds(chunkSize: int, obs: Observation) {
    && Opened(chunkSize, obs)
    && var chunks := |Ends(0, |obs.contents.value|, chunkSize)|;
    && (obs.totalSize.value > 0 || chunks == 0)
    && (obs.failWriteAt.None? || obs.failWriteAt.value >= chunks)
    && obs.copystatOk
  }

  predicate IsPrefix(a: seq<byte>, b: seq<byte>) {
    |a| <= |b| && a == b[..|a|]
  }

  /**
   * Whatever happens, the destination holds a prefix of the source ending at the
   * last reported offset, and nothing was reported unless the destination was opened.
   */
  lemma CopyWritesPrefix(chunkSize: int, obs: Observation)
    ensures var r := CopyResult(chunkSize, obs);
      && (r.destination.None? ==> r.updates == [] && r.error.Some?)
      && (r.destination.Some? ==>
            obs.contents.Some? && IsPrefix(r.destination.value, obs.contents.value)
            && |r.destination.value| == LastOr0(r.updates))
  {
    if Opened(chunkSize, obs) {
      EndsShape(0, |obs.contents.value|, chunkSize);
    }
  }

  /** The reported offsets are the chunk ends in order: strictly increasing and within the source. */
  lemma CopyReportsChunkEnds(chunkSize: int, obs: Observation)
    requires Opened(chunkSize, obs)
    ensures var r, ends := CopyResult(chunkSize, obs), Ends(0, |obs.contents.value|, chunkSize);
      && |r.updates| <= |ends| && r.updates == ends[..|r.updates|]
      && (forall i :: 0 <= i < |r.updates| ==> 0 < r.updates[i] <= |obs.contents.value|)
      && (forall i, j :: 0 <= i < j < |r.updates| ==> r.updates[i] < r.updates[j])
  {
    EndsShape(0, |obs.contents.value|, chunkSize);
  }

  /**
   * The copy raises nothing exactly when `CopySucceeds`; then every chunk was
   * reported and, for a chunk size other than 0, the destination equals the source.
   */
  lemma CopySucceedsIff(chunkSize: int, obs: Observation)
    ensures var r := CopyResult(chunkSize, obs);
      && (r.error.None? <==> CopySucceeds(chunkSize, obs))
      && (r.error.None? ==> r.updates == Ends(0, |obs.contents.value|, chunkSize))
      && (r.error.None? && chunkSize != 0 ==> r.destination == obs.contents)
  {
    if Opened(chunkSize, obs) {
      var content := obs.contents.value;
      EndsShape(0, |content|, chunkSize);
      if CopyResult(chunkSize, obs).error.None? && chunkSize != 0 {
        assert LastOr0(Ends(0, |content|, chunkSize)) == |content|;
        assert content[..|content|] == content;
      }
    }
  }

  /** A read size of 0 reads nothing: the destination is left empty and no update is made. */
  lemma ZeroChunkCopiesNothing(obs: Observation)
    requires Opened(0, obs)
    ensures CopyResult(0, obs).destination == Some([])
    ensures CopyResult(0, obs).updates == []
    ensures CopyResult(0, obs).error.None? <==> obs.copystatOk
  {
    EndsShape(0, |obs.contents.value|, 0);
  }

  /**
   * A file that was empty when its size was read but has bytes when it is read
   * gets its first chunk written, then the first update divides by zero.
   */
  lemma GrownEmptyFileDividesByZero(chunkSize: int, obs: Observation)
    requires Opened(chunkSize, obs) && chunkSize != 0
    requires obs.totalSize == Some(0) && obs.contents.value != [] && obs.failWriteAt != Some(0)
    ensures CopyResult(chunkSize, obs).error == Some(ZeroDivision)
    ensures |CopyResult(chunkSize, obs).updates| == 1
  {
    EndsShape(0, |obs.contents.value|, chunkSize);
  }

  /**
   * `copy_with_progress(src, dst, chunk_size)`: reads the source chunk by chunk,
   * writes each chunk and reports the running total to a fresh `ProgressBar`,
   * then copies the metadata.
   */
  method CopyWithProgress(chunkSize: int, obs: Observation)
    returns (destination: Option<seq<byte>>, updates: seq<nat>, err: Option<CopyError>)
    ensures CopyRun(destination, updates, err) == CopyResult(chunkSize, obs)
    ensures err.None? && chunkSize != 0 ==> destination == obs.contents
  {
    destination, updates, err := None, [], None;
    if obs.totalSize.None? {
      err := Some(StatFailed);
      return;
    }
    var progress := new ProgressBar(obs.totalSize.value, DefaultBarWidth);
    if obs.contents.None? {
      err := Some(SourceOpenFailed);
      return;
    }
    if !obs.destinationOpens {
      err := Some(DestinationOpenFailed);
      return;
    }
    if chunkSize < -1 {
      destination, err := Some([]), Some(InvalidReadSize);
      return;
    }
    var written;
    written, updates, err := CopyChunks(progress, obs.contents.value, chunkSize, obs.failWriteAt);
    destination := Some(written);
    if err.None? && !obs.copystatOk {
      err := Some(MetadataFailed);
    }
    CopySucceedsIff(chunkSize, obs);
  }

  /**
   * The statement `progress.update(copied_size)` inside the copy loop: whether
   * it raised. What it printed is `Update`'s business.
   */
  method ReportProgress(progress: ProgressBar, total: nat, copiedSize: nat) returns (raised: bool)
    requires progress.totalSize == total
    modifies progress
    ensures raised <==> total == 0
  {
    var printed := progress.Update(copiedSize);
    raised := printed.Err?;
  }

  /**
   * The state of the copy loop after some chunks: `written` is the first
   * `pos` bytes and `reported` the offsets reported so far, which together
   * with the offsets still to come make up `ends`. A report was made only
   * with a non-zero total, and the failing write, if any, is still ahead.
   */
  ghost predicate Copying(content: seq<byte>, chunkSize: int, total: nat, failWriteAt: Option<nat>,
                          ends: seq<nat>, pos: nat, written: seq<byte>, reported: seq<nat>)
    requires chunkSize >= -1
  {
    && pos <= |content|
    && written == content[..pos]
    && reported + Ends(pos, |content|, chunkSize) == ends
    && pos == LastOr0(reported)
    && (reported != [] ==> total > 0)
    && (failWriteAt.Some? ==> failWriteAt.value >= |reported|)
  }

  /**
   * Writing one more non-empty chunk and reporting it: with a non-zero total
   * the loop state is kept, with a zero total the report raises and the loop
   * ends as `LoopStop` says.
   */
  lemma CopyingStep(content: seq<byte>, chunkSize: int, total: nat, failWriteAt: Option<nat>,
                    pos: nat, written: seq<byte>, reported: seq<nat>, next: nat)
    requires chunkSize >= -1
    requires Copying(content, chunkSize, total, failWriteAt, Ends(0, |content|, chunkSize), pos, written, reported)
    requires ReadLength(pos, |content|, chunkSize) > 0 && next == pos + ReadLength(pos, |content|, chunkSize)
    requires failWriteAt != Some(|reported|)
    ensures pos < next <= |content|
    ensures total > 0 ==>
      Copying(content, chunkSize, total, failWriteAt, Ends(0, |content|, chunkSize), next, written + content[pos..next], reported + [next])
    ensures total == 0 ==>
      var ends := Ends(0, |content|, chunkSize);
      var stop := LoopStop(|ends|, total, failWriteAt);
      && reported + [next] == ends[..stop.0]
      && LastOr0(reported + [next]) <= |content|
      && written + content[pos..next] == content[..LastOr0(reported + [next])]
      && Some(ZeroDivision) == stop.1
  {
    if total > 0 {
      CopyingKept(content, chunkSize, total, failWriteAt, pos, written, reported, next);
    } else {
      EndsStep(reported, pos, next, |content|, chunkSize, Ends(0, |content|, chunkSize));
      assert written + content[pos..next] == content[..next];
    }
  }

  lemma CopyingKept(content: seq<byte>, chunkSize: int, total: nat, failWriteAt: Option<nat>,
                    pos: nat, written: seq<byte>, reported: seq<nat>, next: nat)
    requires chunkSize >= -1 && total > 0
    requires Copying(content, chunkSize, total, failWriteAt, Ends(0, |content|, chunkSize), pos, written, reported)
    requires ReadLength(pos, |content|, chunkSize) > 0 && next == pos + ReadLength(pos, |content|, chunkSize)
    requires failWriteAt != Some(|reported|)
    ensures Copying(content, chunkSize, total, failWriteAt, Ends(0, |content|, chunkSize), next, written + content[pos..next], reported + [next])
  {
    var ends := Ends(0, |content|, chunkSize);
    EndsStep(reported, pos, next, |content|, chunkSize, ends);
    var reported' := reported + [next];
    assert |reported'| == |reported| + 1;
    assert reported' + Ends(next, |content|, chunkSize) == ends;
    assert next == LastOr0(reported');
    assert written + content[pos..next] == content[..next];
  }

  /** A write that fails ends the loop as `LoopStop` says. */
  lemma StopOnWriteFailure(content: seq<byte>, chunkSize: int, total: nat, failWriteAt: Option<nat>,
                           written: seq<byte>, updates: seq<nat>)
    requires chunkSize >= -1
    requires Copying(content, chunkSize, total, failWriteAt, Ends(0, |content|, chunkSize), LastOr0(updates), written, updates)
    requires ReadLength(LastOr0(updates), |content|, chunkSize) > 0 && failWriteAt == Some(|updates|)
    ensures var ends := Ends(0, |content|, chunkSize);
      var stop := LoopStop(|ends|, total, failWriteAt);
      && updates == ends[..stop.0]
      && LastOr0(updates) <= |content|
      && written == content[..LastOr0(updates)]
      && Some(WriteFailed) == stop.1
  {
    var pos := LastOr0(updates);
    EndsStep(updates, pos, pos + ReadLength(pos, |content|, chunkSize), |content|, chunkSize, Ends(0, |content|, chunkSize));
  }

  /** Reading past the end ends the loop as `LoopStop` says. */
  lemma StopAtEnd(content: seq<byte>, chunkSize: int, total: nat, failWriteAt: Option<nat>,
                  written: seq<byte>, updates: seq<nat>)
    requires chunkSize >= -1
    requires Copying(content, chunkSize, total, failWriteAt, Ends(0, |content|, chunkSize), LastOr0(updates), written, updates)
    requires ReadLength(LastOr0(updates), |content|, chunkSize) == 0
    ensures var ends := Ends(0, |content|, chunkSize);
      var stop := LoopStop(|ends|, total, failWriteAt);
      && updates == ends[..stop.0]
      && LastOr0(updates) <= |content|
      && written == content[..LastOr0(updates)]
      && None == stop.1
  {
    var ends := Ends(0, |content|, chunkSize);
    assert Ends(LastOr0(updates), |content|, chunkSize) == [];
    assert updates == ends;
  }

  /**
   * The `while True` loop of `copy_with_progress`: `written` is what reached the
   * destination, `updates` the arguments given to `progress.update`, `err` the
   * exception that ended the loop, all as `LoopStop` says.
   */
  method CopyChunks(progress: ProgressBar, content: seq<byte>, chunkSize: int, failWriteAt: Option<nat>)
    returns (written: seq<byte>, updates: seq<nat>, err: Option<CopyError>)
    requires chunkSize >= -1
    modifies progress
    ensures var ends := Ends(0, |content|, chunkSize);
      var stop := LoopStop(|ends|, progress.totalSize, failWriteAt);
      && updates == ends[..stop.0]
      && LastOr0(updates) <= |content|
      && written == content[..LastOr0(updates)]
      && err == stop.1
  {
    var total := progress.totalSize;
    written, updates, err := [], [], None;
    var copiedSize: nat := 0;
    while true
      invariant Copying(content, chunkSize, total, failWriteAt, Ends(0, |content|, chunkSize), copiedSize, written, updates)
      invariant err.None?
      decreases |content| - copiedSize
    {
      var len := ReadLength(copiedSize, |content|, chunkSize);
      if len == 0 {
        break;
      }
      if failWriteAt == Some(|updates|) {
        err := Some(WriteFailed);
        StopOnWriteFailure(content, chunkSize, total, failWriteAt, written, updates);
        return;
      }
      var next := copiedSize + len;
      CopyingStep(content, chunkSize, total, failWriteAt, copiedSize, written, updates, next);
      written := written + content[copiedSize..next];
      copiedSize := next;
      updates := updates + [next];
      var raised := ReportProgress(progress, total, next);
      if raised {
        err := Some(ZeroDivision);
        return;
      }
    }
    StopAtEnd(content, chunkSize, total, failWriteAt, written, updates);
  }

  // ---------------------------------------------------------------------------
  // FileHandler
  // ---------------------------------------------------------------------------

  /** The part of the file system the handler changes: directories and the destination files' contents. */
  datatype FsState = FsState(dirs: set<Path>, files: map<Path, seq<byte>>)

  /** `dir.mkdir(parents=True, exist_ok=True)`: the directory and its ancestors exist afterwards. */
  function MakeDirs(fs: FsState, dir: Path): (r: FsState)
    ensures dir in r.dirs && fs.dirs <= r.dirs && r.files == fs.files
  {
    fs.(dirs := fs.dirs + Ancestors(dir))
  }

  /** Creating the destination directory again changes nothing. */
  lemma MakeDirsIdempotent(fs: FsState, dir: Path)
    ensures MakeDirs(MakeDirs(fs, dir), dir) == MakeDirs(fs, dir)
  {
    assert fs.dirs + Ancestors(dir) + Ancestors(dir) == fs.dirs + Ancestors(dir);
  }

  /** `destination_dir / source_path.name`. */
  function DestinationPath(destinationDir: Path, sourcePath: Path): (r: Path)
    ensures Name(sourcePath) != "" ==> Name(r) == Name(sourcePath) && Parent(r) == destinationDir
    ensures Name(sourcePath) == "" ==> r == destinationDir
  {
    Join(destinationDir, Name(sourcePath))
  }

  /** The kinds of event watchdog delivers. */
  datatype EventKind = Created | Modified | Deleted | Moved | Opened | Closed

  datatype FileEvent = FileEvent(kind: EventKind, srcPath: Path, isDirectory: bool)

  /** What handling one event amounts to, in place of the lines it prints. */
  datatype Report =
    /** No handler method for this event. */
    | Ignored
    /** The path was already in flight. */
    | Duplicate
    /** The two sizes differed: no copy and nothing logged. */
    | Unstable
    | Copied(time: string, fileName: string, source: Path, destination: Path)
    | Failed(time: string, fileName: string, error: CopyError)
    /** Printing raised inside the `except` branch, so an exception left `_copy_file`. */
    | Raised

  /** The `except` branch of `_copy_file`: the error is logged with the file name, unless printing itself raises. */
  function ErrorReport(obs: Observation, time: string, fileName: string, e: CopyError): (r: Report)
    ensures r == Raised <==> obs.consoleBroken
    ensures !obs.consoleBroken ==> r == Failed(time, fileName, e)
  {
    if obs.consoleBroken then Raised else Failed(time, fileName, e)
  }

  /**
   * The reference definition of `_copy_file` for one source path: the report
   * and the file system afterwards. The destination directory is created before
   * the sizes are compared; printing the start line raises when the console is
   * broken, and then so does printing the error.
   */
  function CopyFileOutcome(destinationDir: Path, sourcePath: Path, fs: FsState, obs: Observation, now: Utils.Clock)
    : (Report, FsState)
  {
    var fileName := Name(sourcePath);
    var dst := DestinationPath(destinationDir, sourcePath);
    var time := Utils.FormatClock(now);
    if !obs.mkdirOk then (ErrorReport(obs, time, fileName, MkdirFailed), fs)
    else
      var made := MakeDirs(fs, destinationDir);
      if obs.sizeBefore.None? || obs.sizeAfter.None? then (ErrorReport(obs, time, fileName, StatFailed), made)
      else if obs.sizeBefore != obs.sizeAfter then (Unstable, made)
      else if obs.consoleBroken then (Raised, made)
      else
        var run := CopyResult(DefaultChunkSize, obs);
        var after := if run.destination.Some? then made.(files := made.files[dst := run.destination.value]) else made;
        if run.error.Some? then (Failed(time, fileName, run.error.value), after)
        else (Copied(time, fileName, sourcePath, dst), after)
  }

  /**
   * A copy is reported only for equal sizes around the wait and a copy step
   * that raised nothing; the destination then holds the source's bytes and the
   * log line names the file and both paths at the formatted time.
   */
  lemma CopiedIff(destinationDir: Path, sourcePath: Path, fs: FsState, obs: Observation, now: Utils.Clock)
    ensures var (report, after) := CopyFileOutcome(destinationDir, sourcePath, fs, obs, now);
      && (report.Copied? <==>
            obs.mkdirOk && obs.sizeBefore.Some? && obs.sizeBefore == obs.sizeAfter
            && !obs.consoleBroken && CopySucceeds(DefaultChunkSize, obs))
      && (report.Copied? ==>
            var dst := DestinationPath(destinationDir, sourcePath);
            && report == Copied(Utils.FormatClock(now), Name(sourcePath), sourcePath, dst)
            && dst in after.files && after.files[dst] == obs.contents.value)
  {
    CopySucceedsIff(DefaultChunkSize, obs);
  }

  /**
   * One event touches nothing but the destination directory (with its
   * ancestors) and the destination file, and that file, when written, holds a
   * prefix of the source.
   */
  lemma CopyFileFrame(destinationDir: Path, sourcePath: Path, fs: FsState, obs: Observation, now: Utils.Clock)
    ensures var (report, after) := CopyFileOutcome(destinationDir, sourcePath, fs, obs, now);
      var dst := DestinationPath(destinationDir, sourcePath);
      && (after.dirs == fs.dirs || after.dirs == fs.dirs + Ancestors(destinationDir))
      && (forall p :: p in fs.files && p != dst ==> p in after.files && after.files[p] == fs.files[p])
      && (forall p :: p in after.files && p != dst ==> p in fs.files)
      && (dst in after.files && (dst !in fs.files || after.files[dst] != fs.files[dst]) ==>
            obs.contents.Some? && IsPrefix(after.files[dst], obs.contents.value))
  {
    var dst := DestinationPath(destinationDir, sourcePath);
    var after := CopyFileOutcome(destinationDir, sourcePath, fs, obs, now).1;
    if obs.mkdirOk && obs.sizeBefore.Some? && obs.sizeBefore == obs.sizeAfter && !obs.consoleBroken {
      var run := CopyResult(DefaultChunkSize, obs);
      CopyWritesPrefix(DefaultChunkSize, obs);
      if run.destination.Some? {
        assert after.files == fs.files[dst := run.destination.value];
        UpdateFrame(fs.files, dst, run.destination.value);
      } else {
        assert after.files == fs.files;
      }
    } else {
      assert after.files == fs.files;
    }
  }

  /** Writing one file leaves every other file as it was and adds none. */
  lemma UpdateFrame(files: map<Path, seq<byte>>, dst: Path, content: seq<byte>)
    ensures forall p :: p in files && p != dst ==> p in files[dst := content] && files[dst := content][p] == files[p]
    ensures forall p :: p in files[dst := content] && p != dst ==> p in files
  {
  }

  /** Unequal sizes around the wait: no file is written and nothing is logged. */
  lemma UnstableSkipsCopy(destinationDir: Path, sourcePath: Path, fs: FsState, obs: Observation, now: Utils.Clock)
    requires obs.mkdirOk && obs.sizeBefore.Some? && obs.sizeAfter.Some? && obs.sizeBefore != obs.sizeAfter
    ensures CopyFileOutcome(destinationDir, sourcePath, fs, obs, now).0 == Unstable
    ensures CopyFileOutcome(destinationDir, sourcePath, fs, obs, now).1.files == fs.files
  {
  }

  /** An exception escapes `_copy_file` only when the console is broken. */
  lemma RaisedOnlyWithBrokenConsole(destinationDir: Path, sourcePath: Path, fs: FsState, obs: Observation, now: Utils.Clock)
    ensures CopyFileOutcome(destinationDir, sourcePath, fs, obs, now).0 == Raised ==> obs.consoleBroken
    ensures obs.consoleBroken ==> !CopyFileOutcome(destinationDir, sourcePath, fs, obs, now).0.Copied?
  {
  }

  /**
   * With a working console every failure of the copy step is logged as
   * `Failed` with the formatted time, the file name and the error of the step
   * that raised; a logged failure always had a working console.
   */
  lemma FailureReportedWithName(destinationDir: Path, sourcePath: Path, fs: FsState, obs: Observation, now: Utils.Clock)
    ensures var report := CopyFileOutcome(destinationDir, sourcePath, fs, obs, now).0;
      var time, fileName := Utils.FormatClock(now), Name(sourcePath);
      && (!obs.consoleBroken && !obs.mkdirOk ==> report == Failed(time, fileName, MkdirFailed))
      && (!obs.consoleBroken && obs.mkdirOk && (obs.sizeBefore.None? || obs.sizeAfter.None?) ==>
            report == Failed(time, fileName, StatFailed))
      && (var run := CopyResult(DefaultChunkSize, obs);
          !obs.consoleBroken && obs.mkdirOk && obs.sizeBefore.Some? && obs.sizeBefore == obs.sizeAfter
          && run.error.Some? ==>
            report == Failed(time, fileName, run.error.value))
      && (report.Failed? ==> !obs.consoleBroken && report.time == time && report.fileName == fileName)
  {
  }

  /** The watchdog handler that copies files from the source directory to the destination directory. */
  class FileHandler {
    const sourceDir: Path
    const destinationDir: Path
    /** The paths being processed right now. */
    var processingFiles: set<Path>

    constructor(sourceDir: Path, destinationDir: Path)
      ensures this.sourceDir == sourceDir && this.destinationDir == destinationDir
      ensures processingFiles == {}
    {
      this.sourceDir := sourceDir;
      this.destinationDir := destinationDir;
      processingFiles := {};
    }

    /** watchdog's dispatch: this handler defines only `on_modified`, so every other kind is ignored. */
    method Dispatch(event: FileEvent, fs: FsState, obs: Observation, now: Utils.Clock)
      returns (report: Report, fs': FsState, ghost inFlight: set<Path>)
      modifies this
      ensures processingFiles == old(processingFiles)
      ensures event.kind != Modified ==> report == Ignored && fs' == fs
      ensures event.kind == Modified && event.isDirectory ==> report == Ignored && fs' == fs
      ensures event.kind == Modified && !event.isDirectory && event.srcPath in old(processingFiles) ==>
        report == Duplicate && fs' == fs
      ensures event.kind == Modified && !event.isDirectory && event.srcPath !in old(processingFiles) ==>
        && inFlight == old(processingFiles) + {event.srcPath}
        && (report, fs') == CopyFileOutcome(destinationDir, event.srcPath, fs, obs, now)
    {
      if event.kind == Modified {
        report, fs', inFlight := OnModified(event, fs, obs, now);
      } else {
        report, fs', inFlight := Ignored, fs, processingFiles;
      }
    }

    /** `on_modified`: directory events are ignored, file events handled. */
    method OnModified(event: FileEvent, fs: FsState, obs: Observation, now: Utils.Clock)
      returns (report: Report, fs': FsState, ghost inFlight: set<Path>)
      modifies this
      ensures processingFiles == old(processingFiles)
      ensures event.isDirectory ==> report == Ignored && fs' == fs
      ensures !event.isDirectory && event.srcPath in old(processingFiles) ==> report == Duplicate && fs' == fs
      ensures !event.isDirectory && event.srcPath !in old(processingFiles) ==>
        && inFlight == old(processingFiles) + {event.srcPath}
        && (report, fs') == CopyFileOutcome(destinationDir, event.srcPath, fs, obs, now)
    {
      if event.isDirectory {
        report, fs', inFlight := Ignored, fs, processingFiles;
      } else {
        report, fs', inFlight := HandleFileEvent(event.srcPath, fs, obs, now);
      }
    }

    /**
     * `_handle_file_event`: an event for a path already in flight returns at
     * once; otherwise the path is in the set while `_copy_file` runs (`inFlight`)
     * and is removed afterwards, so the set ends as it began.
     */
    method HandleFileEvent(sourcePath: Path, fs: FsState, obs: Observation, now: Utils.Clock)
      returns (report: Report, fs': FsState, ghost inFlight: set<Path>)
      modifies this
      ensures processingFiles == old(processingFiles)
      ensures sourcePath in old(processingFiles) ==> report == Duplicate && fs' == fs && inFlight == old(processingFiles)
      ensures sourcePath !in old(processingFiles) ==>
        && inFlight == old(processingFiles) + {sourcePath}
        && (report, fs') == CopyFileOutcome(destinationDir, sourcePath, fs, obs, now)
    {
      if sourcePath in processingFiles {
        return Duplicate, fs, processingFiles;
      }
      processingFiles := processingFiles + {sourcePath};
      inFlight := processingFiles;
      report, fs' := CopyFile(sourcePath, fs, obs, now);
      processingFiles := processingFiles - {sourcePath};
    }

    /** `_copy_file`: its `except Exception` turns every failure of the copy step into a logged error. */
    method CopyFile(sourcePath: Path, fs: FsState, obs: Observation, now: Utils.Clock)
      returns (report: Report, fs': FsState)
      ensures (report, fs') == CopyFileOutcome(destinationDir, sourcePath, fs, obs, now)
    {
      var fileName := Name(sourcePath);
      var destinationPath := DestinationPath(destinationDir, sourcePath);
      var currentTime := Utils.FormatClock(now);
      if !obs.mkdirOk {
        report := ErrorReport(obs, currentTime, fileName, MkdirFailed);
        return report, fs;
      }
      fs' := MakeDirs(fs, destinationDir);
      if obs.sizeBefore.None? || obs.sizeAfter.None? {
        report := ErrorReport(obs, currentTime, fileName, StatFailed);
        return;
      }
      if obs.sizeBefore != obs.sizeAfter {
        return Unstable, fs';
      }
      if obs.consoleBroken {
        return Raised, fs';
      }
      var destination, _, err := CopyWithProgress(DefaultChunkSize, obs);
      if destination.Some? {
        fs' := fs'.(files := fs'.files[destinationPath := destination.value]);
      }
      if err.Some? {
        report := Failed(currentTime, fileName, err.value);
      } else {
        report := Copied(currentTime, fileName, sourcePath, destinationPath);
      }
    }
  }
}
