/**
 The rotating SD-card logger. The C++ object holds the active file name, the
 rotation counter and the ready flag; here that state is an immutable
 `Logger` value, and `Begin` and `Log` are pure transitions. Everything the
 hardware decides is an argument: the result of `SD.begin`, the results of
 the two `SD.open` calls, the size `file.size()` reports and the `millis()`
 reading. What the logger does to the outside world is returned as two
 ordered lists, one per channel: the operations on the SD card and the lines
 printed on the serial port.
 */
module DataLogger {
  import opened Wrappers
  import opened Decimal
  import opened LogLevels
  import opened Timestamps
  import opened LogLines

  /** `MAX_LOG_SIZE`: one mebibyte. A file rotates only when strictly larger. */
  const MaxLogSize: nat := 1024 * 1024

  /** The logger's state: `_filename`, `_fileIndex`, `_ready`. */
  datatype Logger = Logger(filename: string, fileIndex: nat, ready: bool)

  /** The diagnostic lines printed on the serial port, by kind. */
  datatype Diagnostic =
    | InitStarted       // `begin` announces the attempt
    | InitSucceeded
    | InitFailed
    | NotInitialized    // `log` called while not ready
    | OpenFailed        // the active file could not be opened
    | SizeLimitReached  // rotation to a new file
    | CreateFailed      // the file after rotation could not be opened

  /** An operation on the SD card. */
  datatype CardOp =
    | Open(name: string)                  // `SD.open(name, FILE_WRITE)`
    | SizeQuery(name: string)             // `file.size()` on the open handle
    | Close(name: string)                 // `file.close()`
    | Append(name: string, line: string)  // `file.print(line)` on the handle of `name`

  /** An output printed on the serial port. */
  datatype SerialOut =
    | Mirror(line: string)                // `Serial.println(line)` of a log line
    | Report(diagnostic: Diagnostic)      // a diagnostic message

  /** The answers of the hardware during one `log` call. */
  datatype Driver = Driver(
    openOk: bool,    // did opening the active file succeed
    size: nat,       // the size of the active file, when it opened
    reopenOk: bool,  // did opening the file after rotation succeed
    ms: Millis       // `millis()` when the line is built
  )

  /** A transition: the value returned to the caller, the new state and the output on both channels. */
  datatype Step<T> = Step(value: T, next: Logger, card: seq<CardOp>, serial: seq<SerialOut>)

  /** `getFileIndex`: the rotation counter. */
  function FileIndex(s: Logger): nat {
    s.fileIndex
  }

  /** `getFilename`: the active file name. */
  function Filename(s: Logger): string {
    s.filename
  }

  /** `isReady`: whether the card was initialised. */
  function IsReady(s: Logger): bool {
    s.ready
  }

  // ---------------------------------------------------------------------------
  // File names

  /** `snprintf(newName, 32, "data_%d.log", index)`. */
  function RotationName(index: nat): string {
    "data_" + NatToString(index) + ".log"
  }

  /** A rotation name is read back as its index. */
  lemma RotationNameParses(index: nat)
    ensures ParseRotationName(RotationName(index)) == Some(index)
  {
    var digits := NatToString(index);
    var name := RotationName(index);
    assert name[..5] == "data_" && name[|name| - 4..] == ".log";
    assert name[5..|name| - 4] == digits;
    ParseNatToString(index);
  }

  /** Recognizes a rotation file name and returns its index. */
  function ParseRotationName(name: string): (r: Option<nat>)
    ensures r.Some? ==> "data_" + NatToString(r.value) + ".log" == name
  {
    if |name| >= 10 && name[..5] == "data_" && name[|name| - 4..] == ".log"
       && Canonical(name[5..|name| - 4])
    then
      var digits := name[5..|name| - 4];
      NatToStringOfParse(digits);
      assert name == name[..5] + digits + name[|name| - 4..];
      Some(ParseNat(digits))
    else
      None
  }

  /** Distinct rotations write to distinct files. */
  lemma RotationNamesDistinct(i: nat, j: nat)
    requires i != j
    ensures RotationName(i) != RotationName(j)
  {
    RotationNameParses(i);
    RotationNameParses(j);
  }

  /** The file a logger built on `base` writes to after `index` rotations. */
  function ActiveName(base: string, index: nat): string {
    if index == 0 then base else RotationName(index)
  }

  /** The active file name is the one the rotation counter designates. */
  predicate NamedByIndex(base: string, s: Logger) {
    s.filename == ActiveName(base, s.fileIndex)
  }

  // ---------------------------------------------------------------------------
  // Projections of the output

  /** The (file, line) pairs appended to the card, in order. */
  function Written(card: seq<CardOp>): seq<(string, string)> {
    if |card| == 0 then []
    else (if card[0].Append? then [(card[0].name, card[0].line)] else []) + Written(card[1..])
  }

  /** The log lines mirrored on the serial port, in order. */
  function Mirrored(serial: seq<SerialOut>): seq<string> {
    if |serial| == 0 then []
    else (if serial[0].Mirror? then [serial[0].line] else []) + Mirrored(serial[1..])
  }

  /** The number of rotations announced on the serial port. */
  function Rotations(serial: seq<SerialOut>): nat {
    if |serial| == 0 then 0
    else (if serial[0] == Report(SizeLimitReached) then 1 else 0) + Rotations(serial[1..])
  }

  /** The lines of a sequence of (file, line) pairs. */
  function LinesOf(written: seq<(string, string)>): (lines: seq<string>)
    ensures |lines| == |written|
    ensures forall k :: 0 <= k < |written| ==> lines[k] == written[k].1
  {
    if |written| == 0 then [] else [written[0].1] + LinesOf(written[1..])
  }

  /** The projections of a concatenation are the concatenations of the projections. */
  lemma {:induction false} WrittenDistributes(a: seq<CardOp>, b: seq<CardOp>)
    ensures Written(a + b) == Written(a) + Written(b)
    decreases |a|
  {
    if |a| == 0 {
      assert a + b == b;
    } else {
      assert (a + b)[0] == a[0] && (a + b)[1..] == a[1..] + b;
      WrittenDistributes(a[1..], b);
    }
  }

  lemma {:induction false} SerialDistributes(a: seq<SerialOut>, b: seq<SerialOut>)
    ensures Mirrored(a + b) == Mirrored(a) + Mirrored(b)
    ensures Rotations(a + b) == Rotations(a) + Rotations(b)
    decreases |a|
  {
    if |a| == 0 {
      assert a + b == b;
    } else {
      assert (a + b)[0] == a[0] && (a + b)[1..] == a[1..] + b;
      SerialDistributes(a[1..], b);
    }
  }

  /** The projections of a single serial output. */
  lemma SerialSingle(x: SerialOut)
    ensures Mirrored([x]) == (if x.Mirror? then [x.line] else [])
    ensures Rotations([x]) == (if x == Report(SizeLimitReached) then 1 else 0)
  {
    assert [x][1..] == [];
  }

  /** The projections of two serial outputs in a row are those of each, concatenated. */
  lemma SerialPair(x: SerialOut, y: SerialOut)
    ensures Mirrored([x, y]) == Mirrored([x]) + Mirrored([y])
    ensures Rotations([x, y]) == Rotations([x]) + Rotations([y])
    ensures Mirrored([x, y]) == (if x.Mirror? then [x.line] else []) + (if y.Mirror? then [y.line] else [])
    ensures Rotations([x, y]) == (if x == Report(SizeLimitReached) then 1 else 0)
                                + (if y == Report(SizeLimitReached) then 1 else 0)
  {
    SerialSingle(x);
    SerialSingle(y);
    assert [x, y] == [x] + [y];
    SerialDistributes([x], [y]);
  }

  // ---------------------------------------------------------------------------
  // Operations

  /** The constructor: the given name, no rotation yet, card not initialised. */
  function Construct(base: string): (s: Logger)
    ensures NamedByIndex(base, s) && Filename(s) == base
    ensures FileIndex(s) == 0 && !IsReady(s)
  {
    Logger(base, 0, false)
  }

  /**
   `begin`: returns the result of `SD.begin` and records it in the ready
   flag, on success and on failure alike; the file state is untouched, no
   file is accessed and no log line is mirrored.
   */
  function Begin(s: Logger, cardDetected: bool): (r: Step<bool>)
    ensures r.value == cardDetected && IsReady(r.next) == cardDetected
    ensures Filename(r.next) == Filename(s) && FileIndex(r.next) == FileIndex(s)
    ensures r.card == [] && Mirrored(r.serial) == [] && Rotations(r.serial) == 0
  {
    var verdict := if cardDetected then InitSucceeded else InitFailed;
    SerialPair(Report(InitStarted), Report(verdict));
    Step(cardDetected, s.(ready := cardDetected), [], [Report(InitStarted), Report(verdict)])
  }

  /** The `log` call rotates: the card is ready, the file opened and it is over the limit. */
  predicate Rotates(s: Logger, drv: Driver) {
    s.ready && drv.openOk && drv.size > MaxLogSize
  }

  /** The `log` call reaches the write: ready, opened, and either no rotation or the new file opened. */
  predicate Writes(s: Logger, drv: Driver) {
    s.ready && drv.openOk && (drv.size <= MaxLogSize || drv.reopenOk)
  }

  /** The logger after one rotation: next counter, next name, still ready. */
  function Rotated(s: Logger): Logger {
    s.(fileIndex := s.fileIndex + 1, filename := RotationName(s.fileIndex + 1))
  }

  /**
   `log`. Not ready: nothing but a diagnostic. Otherwise the active file is
   opened; if that fails the message is dropped. If the open file is strictly
   larger than `MaxLogSize` it is closed, the counter goes up by one, the
   active name becomes `data_<counter>.log` and that file is opened; if that
   fails the message is dropped but the new name stays. Otherwise the line
   is appended, the file closed and the line mirrored on the serial port.
   */
  function Log(s: Logger, message: string, level: LogLevel, drv: Driver): (r: Step<()>)
    ensures IsReady(r.next) == IsReady(s)
    ensures !IsReady(s) ==> r.next == s && r.card == []
    ensures Rotates(s, drv) <==> FileIndex(r.next) == FileIndex(s) + 1
    ensures !Rotates(s, drv) ==> r.next == s
    ensures Rotates(s, drv) ==> Filename(r.next) == RotationName(FileIndex(r.next))
  {
    if !s.ready then
      Step((), s, [], [Report(NotInitialized)])
    else if !drv.openOk then
      Step((), s, [Open(s.filename)], [Report(OpenFailed)])
    else
      var line := BuildLine(drv.ms, level, message);
      if drv.size > MaxLogSize then
        var t := Rotated(s);
        var switch := [Open(s.filename), SizeQuery(s.filename), Close(s.filename), Open(t.filename)];
        if drv.reopenOk then
          Step((), t, switch + [Append(t.filename, line), Close(t.filename)],
               [Report(SizeLimitReached), Mirror(line)])
        else
          Step((), t, switch, [Report(SizeLimitReached), Report(CreateFailed)])
      else
        Step((), s, [Open(s.filename), SizeQuery(s.filename), Append(s.filename, line), Close(s.filename)],
             [Mirror(line)])
  }

  /** Not ready: the card is not touched, the state is unchanged, only a diagnostic is printed. */
  lemma LogWhenNotReady(s: Logger, message: string, level: LogLevel, drv: Driver)
    requires !IsReady(s)
    ensures var r := Log(s, message, level, drv);
            && r.next == s && r.card == [] && r.serial == [Report(NotInitialized)]
            && Written(r.card) == [] && Mirrored(r.serial) == [] && Rotations(r.serial) == 0
  {
    SerialSingle(Report(NotInitialized));
  }

  /**
   The active file does not open: the message is dropped, its size is not
   asked for, nothing is written, and the state is unchanged.
   */
  lemma LogWhenOpenFails(s: Logger, message: string, level: LogLevel, drv: Driver)
    requires IsReady(s) && !drv.openOk
    ensures var r := Log(s, message, level, drv);
            && r.next == s && r.card == [Open(Filename(s))] && r.serial == [Report(OpenFailed)]
            && Written(r.card) == [] && Mirrored(r.serial) == [] && Rotations(r.serial) == 0
  {
    SerialSingle(Report(OpenFailed));
    NoAppendsWritesNothing([Open(Filename(s))]);
  }

  /**
   The active file opens and holds at most `MaxLogSize` bytes: its size is
   asked for, the line is appended to it, it is closed, and the same line is
   mirrored on the serial port.
   */
  lemma LogWithinLimit(s: Logger, message: string, level: LogLevel, drv: Driver)
    requires IsReady(s) && drv.openOk && drv.size <= MaxLogSize
    ensures var r := Log(s, message, level, drv);
            var f := Filename(s);
            var line := BuildLine(drv.ms, level, message);
            && r.next == s
            && r.card == [Open(f), SizeQuery(f), Append(f, line), Close(f)]
            && r.serial == [Mirror(line)]
            && Written(r.card) == [(f, line)] && Mirrored(r.serial) == [line]
            && Rotations(r.serial) == 0
  {
    var f := Filename(s);
    var line := BuildLine(drv.ms, level, message);
    WrittenOf([Open(f), SizeQuery(f)], f, line);
    assert [Open(f), SizeQuery(f)] + [Append(f, line), Close(f)]
        == [Open(f), SizeQuery(f), Append(f, line), Close(f)];
    SerialSingle(Mirror(line));
  }

  /**
   The active file opens and is over `MaxLogSize` bytes, and the file named
   after the next counter opens: the old file is closed, the counter goes up
   by one, the active name becomes the rotation name of the new counter and
   the line goes to the new file, whose size is never asked for.
   */
  lemma LogRotateAndWrite(s: Logger, message: string, level: LogLevel, drv: Driver)
    requires IsReady(s) && drv.openOk && drv.size > MaxLogSize && drv.reopenOk
    ensures var r := Log(s, message, level, drv);
            var f := Filename(s);
            var g := RotationName(FileIndex(s) + 1);
            var line := BuildLine(drv.ms, level, message);
            && FileIndex(r.next) == FileIndex(s) + 1 && Filename(r.next) == g && IsReady(r.next)
            && r.card == [Open(f), SizeQuery(f), Close(f), Open(g), Append(g, line), Close(g)]
            && r.serial == [Report(SizeLimitReached), Mirror(line)]
            && Written(r.card) == [(g, line)] && Mirrored(r.serial) == [line]
            && Rotations(r.serial) == 1
  {
    var f := Filename(s);
    var g := RotationName(FileIndex(s) + 1);
    var line := BuildLine(drv.ms, level, message);
    var switch := [Open(f), SizeQuery(f), Close(f), Open(g)];
    var r := Log(s, message, level, drv);
    assert r == Step((), Rotated(s), switch + [Append(g, line), Close(g)],
                     [Report(SizeLimitReached), Mirror(line)]);
    WrittenOf(switch, g, line);
    assert switch + [Append(g, line), Close(g)]
        == [Open(f), SizeQuery(f), Close(f), Open(g), Append(g, line), Close(g)];
    SerialPair(Report(SizeLimitReached), Mirror(line));
  }

  /**
   The active file is over the limit but the file named after the next
   counter does not open: the message is dropped, yet the counter has gone
   up, the new name is kept and the card stays marked ready.
   */
  lemma LogRotateCreateFails(s: Logger, message: string, level: LogLevel, drv: Driver)
    requires IsReady(s) && drv.openOk && drv.size > MaxLogSize && !drv.reopenOk
    ensures var r := Log(s, message, level, drv);
            var f := Filename(s);
            var g := RotationName(FileIndex(s) + 1);
            && FileIndex(r.next) == FileIndex(s) + 1 && Filename(r.next) == g && IsReady(r.next)
            && r.card == [Open(f), SizeQuery(f), Close(f), Open(g)]
            && r.serial == [Report(SizeLimitReached), Report(CreateFailed)]
            && Written(r.card) == [] && Mirrored(r.serial) == [] && Rotations(r.serial) == 1
  {
    var f := Filename(s);
    var g := RotationName(FileIndex(s) + 1);
    NoAppendsWritesNothing([Open(f), SizeQuery(f), Close(f), Open(g)]);
    SerialPair(Report(SizeLimitReached), Report(CreateFailed));
  }

  /**
   What one `log` call outputs, whatever the hardware answers: the line is
   appended to the (possibly new) active file exactly when the call gets
   that far, the serial port mirrors exactly the lines appended, and one
   rotation is announced per step of the counter.
   */
  lemma LogOutput(s: Logger, message: string, level: LogLevel, drv: Driver)
    ensures var r := Log(s, message, level, drv);
            && Written(r.card) ==
                 (if Writes(s, drv) then [(Filename(r.next), BuildLine(drv.ms, level, message))] else [])
            && Mirrored(r.serial) == LinesOf(Written(r.card))
            && Rotations(r.serial) == FileIndex(r.next) - FileIndex(s)
  {
    if !IsReady(s) {
      LogWhenNotReady(s, message, level, drv);
    } else if !drv.openOk {
      LogWhenOpenFails(s, message, level, drv);
    } else if drv.size <= MaxLogSize {
      LogWithinLimit(s, message, level, drv);
    } else if drv.reopenOk {
      LogRotateAndWrite(s, message, level, drv);
    } else {
      LogRotateCreateFails(s, message, level, drv);
    }
  }

  /** Appending after a prefix of opens, size queries and closes writes exactly that one line. */
  lemma WrittenOf(prefix: seq<CardOp>, name: string, line: string)
    requires forall i :: 0 <= i < |prefix| ==> !prefix[i].Append?
    ensures Written(prefix + [Append(name, line), Close(name)]) == [(name, line)]
  {
    var tail := [Append(name, line), Close(name)];
    NoAppendsWritesNothing(prefix);
    NoAppendsWritesNothing(tail[1..]);
    WrittenDistributes(prefix, tail);
  }

  /** A sequence without appends writes nothing. */
  lemma {:induction false} NoAppendsWritesNothing(card: seq<CardOp>)
    requires forall i :: 0 <= i < |card| ==> !card[i].Append?
    ensures Written(card) == []
    decreases |card|
  {
    if |card| > 0 {
      NoAppendsWritesNothing(card[1..]);
    }
  }

  /** Every call keeps the naming rule: the active name follows the counter. */
  lemma LogKeepsNaming(base: string, s: Logger, message: string, level: LogLevel, drv: Driver)
    requires NamedByIndex(base, s)
    ensures NamedByIndex(base, Log(s, message, level, drv).next)
  {
  }

  /** A file of exactly `MaxLogSize` bytes is kept; one byte more and it rotates. */
  lemma RotationBoundary(s: Logger, message: string, level: LogLevel, ms: Millis)
    requires IsReady(s)
    ensures Log(s, message, level, Driver(true, 1048576, true, ms)).next == s
    ensures FileIndex(Log(s, message, level, Driver(true, 1048577, true, ms)).next) == FileIndex(s) + 1
  {
  }

  /**
   The usage example of the header, with the card present and an empty
   `system.log`: `begin` succeeds and the first message goes to
   `system.log`. The example gives no uptime; five seconds is chosen here.
   */
  lemma HeaderExampleScenario()
    ensures var b := Begin(Construct("system.log"), true);
            var r := Log(b.next, "Système démarré", INFO, Driver(true, 0, true, 5000));
            && b.value && IsReady(b.next)
            && r.next == b.next
            && Written(r.card) == [("system.log", "00:00:05 [INFO] Système démarré\n")]
            && Mirrored(r.serial) == ["00:00:05 [INFO] Système démarré\n"]
  {
    var s := Begin(Construct("system.log"), true).next;
    LogWithinLimit(s, "Système démarré", INFO, Driver(true, 0, true, 5000));
    HeaderExampleLine();
  }

  /** The names of the first two rotations. */
  lemma FirstRotationNames()
    ensures RotationName(1) == "data_1.log" && RotationName(2) == "data_2.log"
  {
    assert NatToString(1) == "1" && NatToString(2) == "2";
  }

  /**
   The counter is raised before the new name is formatted, so a rotation
   never produces `data_0.log`: the first rotated file is `data_1.log`.
   */
  lemma RotationSkipsZero(base: string, index: nat)
    requires index > 0
    ensures ActiveName(base, index) != "data_0.log"
  {
    RotationNamesDistinct(index, 0);
    assert NatToString(0) == "0";
  }

  /** A file already over the limit: the old file is closed and the message goes to `data_1.log`. */
  lemma OversizeScenario(ms: Millis)
    ensures var s := Begin(Construct("system.log"), true).next;
            var r := Log(s, "x", WARN, Driver(true, 1048577, true, ms));
            && FileIndex(r.next) == 1
            && Filename(r.next) == "data_1.log"
            && Written(r.card) == [("data_1.log", BuildLine(ms, WARN, "x"))]
            && r.card[2] == Close("system.log")
  {
    var s := Begin(Construct("system.log"), true).next;
    LogRotateAndWrite(s, "x", WARN, Driver(true, 1048577, true, ms));
    FirstRotationNames();
  }
}
