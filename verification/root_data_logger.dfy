/**
 The second copy of the logger kept at the top of the repository. It has
 the same members as the copy under `src/` except the two accessors, and
 its counter starts at 0 through the header's member initializer instead
 of an assignment in the constructor. Here it is written the way the C++
 reads: statements in order, early returns, the counter incremented before
 the new name is formatted with `data_%d.log`, `%02lu` padding done by
 width. Each method is proved to produce exactly what the functional model
 of the `src/` copy produces, so the two copies behave identically.
 */
module RootDataLogger {
  import opened Wrappers
  import opened Decimal
  import opened LogLevels
  import opened Timestamps
  import opened LogLines
  import opened DataLogger

  /** `%d` / `%lu` on a non-negative value: decimal digits, most significant first. */
  method FormatDecimal(n: nat) returns (text: string)
    ensures text == NatToString(n)
    ensures IsDigits(text) && ParseNat(text) == n
  {
    var rest: nat := n / 10;
    text := [DigitChar(n % 10)];
    if n >= 10 {
      assert NatToString(n) == NatToString(n / 10) + [DigitChar(n % 10)];
    }
    while rest > 0
      invariant rest == 0 ==> NatToString(n) == text
      invariant rest > 0 ==> NatToString(n) == NatToString(rest) + text
      decreases rest
    {
      assert NatToString(rest) == if rest < 10 then [DigitChar(rest)]
                                  else NatToString(rest / 10) + [DigitChar(rest % 10)];
      text := [DigitChar(rest % 10)] + text;
      rest := rest / 10;
    }
    ParseNatToString(n);
  }

  /** `%02lu`: the decimal digits, with a '0' in front when there is only one. */
  method FormatPadded(n: nat) returns (text: string)
    ensures text == Pad2(n)
    ensures n < 100 ==> |text| == 2
  {
    text := FormatDecimal(n);
    if |text| < 2 {
      text := "0" + text;
    }
  }

  /** `getTimestamp`, with the uptime as a parameter. */
  method GetTimestamp(ms: Millis) returns (stamp: string)
    ensures stamp == Timestamp(ms)
    ensures ParseTimestamp(stamp) == Some(ClockOf(ms))
  {
    var sec := ms / 1000;
    var min := sec / 60;
    var hr := min / 60;
    var h := FormatPadded(hr % 24);
    var m := FormatPadded(min % 60);
    var s := FormatPadded(sec % 60);
    stamp := h + ":" + m + ":" + s;
    TimestampParses(ms);
  }

  /** `levelToString` on the raw integer of the enum variable, `default` branch included. */
  method LevelText(code: int) returns (text: string)
    ensures text == LabelOfCode(code)
    ensures 0 <= code < 3 ==> ParseLevel(text).Some? && Code(ParseLevel(text).value) == code
    ensures !(0 <= code < 3) ==> text == "UNKNOWN"
  {
    if code == 0 {
      text := "INFO";
    } else if code == 1 {
      text := "WARN";
    } else if code == 2 {
      text := "ERROR";
    } else {
      text := "UNKNOWN";
    }
  }

  /** The constructor: the given name, counter 0 from the member initializer, not ready. */
  method Create(base: string) returns (s: Logger)
    ensures s == Construct(base)
    ensures Filename(s) == base && FileIndex(s) == 0 && !IsReady(s)
  {
    s := Logger(base, 0, false);
  }

  /** `begin`: the outcome of `SD.begin` decides the flag and the result. */
  method Begin(s: Logger, cardDetected: bool)
    returns (ok: bool, next: Logger, card: seq<CardOp>, serial: seq<SerialOut>)
    ensures DataLogger.Begin(s, cardDetected) == Step(ok, next, card, serial)
    ensures ok == cardDetected && IsReady(next) == ok
  {
    serial := [Report(InitStarted)];
    card := [];
    if !cardDetected {
      serial := serial + [Report(InitFailed)];
      next := s.(ready := false);
      return false, next, card, serial;
    }
    serial := serial + [Report(InitSucceeded)];
    next := s.(ready := true);
    return true, next, card, serial;
  }

  /** The rotation inside `log`: counter up by one, then the name formatted from the new counter. */
  method Rotate(s: Logger) returns (next: Logger)
    ensures next == Rotated(s)
    ensures ParseRotationName(Filename(next)) == Some(FileIndex(s) + 1)
  {
    next := s.(fileIndex := s.fileIndex + 1);
    var digits := FormatDecimal(next.fileIndex);
    next := next.(filename := "data_" + digits + ".log");
    RotationNameParses(next.fileIndex);
  }

  /** The line `log` builds: stamp, label in brackets, message, newline. */
  method FormatLine(ms: Millis, level: LogLevel, message: string) returns (line: string)
    ensures line == BuildLine(ms, level, message)
    ensures ParseLine(line) == Some(Entry(ClockOf(ms), level, message))
  {
    var stamp := GetTimestamp(ms);
    var tag := LevelText(Code(level));
    LabelOfCodeAgrees(level);
    line := stamp + " [" + tag + "] " + message + "\n";
    BuildLineParses(ms, level, message);
  }

  /**
   `log`, statement by statement. The outputs are exactly those of the
   functional model; in particular a message reaches the card at most once,
   and only when the call gets past every check.
   */
  method Log(s: Logger, message: string, level: LogLevel, drv: Driver)
    returns (next: Logger, card: seq<CardOp>, serial: seq<SerialOut>)
    ensures DataLogger.Log(s, message, level, drv) == Step((), next, card, serial)
    ensures Written(card) ==
              (if Writes(s, drv) then [(Filename(next), BuildLine(drv.ms, level, message))] else [])
  {
    if !s.ready {
      next, card, serial := s, [], [Report(NotInitialized)];
      LogWhenNotReady(s, message, level, drv);
      return;
    }
    card := [Open(s.filename)];
    if !drv.openOk {
      next, serial := s, [Report(OpenFailed)];
      LogWhenOpenFails(s, message, level, drv);
      return;
    }
    next, card, serial := LogOpened(s, message, level, drv);
    LogOutput(s, message, level, drv);
  }

  /** The rest of `log` once the active file is open: size check, then rotation or write. */
  method LogOpened(s: Logger, message: string, level: LogLevel, drv: Driver)
    returns (next: Logger, card: seq<CardOp>, serial: seq<SerialOut>)
    requires IsReady(s) && drv.openOk
    ensures DataLogger.Log(s, message, level, drv) == Step((), next, card, serial)
  {
    if drv.size > MaxLogSize {
      next, card, serial := LogRotating(s, message, level, drv);
    } else {
      var active := s.filename;
      var line := FormatLine(drv.ms, level, message);
      next := s;
      card := [Open(active), SizeQuery(active)];
      card := card + [Append(active, line), Close(active)];
      serial := [Mirror(line)];
      LogWithinLimit(s, message, level, drv);
    }
  }

  /** The size check fired: close, announce, rename, reopen, and write if the reopen worked. */
  method LogRotating(s: Logger, message: string, level: LogLevel, drv: Driver)
    returns (next: Logger, card: seq<CardOp>, serial: seq<SerialOut>)
    requires Rotates(s, drv)
    ensures DataLogger.Log(s, message, level, drv) == Step((), next, card, serial)
  {
    var f := s.filename;
    next := Rotate(s);
    var g := next.filename;
    card := [Open(f), SizeQuery(f), Close(f), Open(g)];
    serial := [Report(SizeLimitReached)];
    if !drv.reopenOk {
      serial := serial + [Report(CreateFailed)];
      LogRotateCreateFails(s, message, level, drv);
      return;
    }
    var line := FormatLine(drv.ms, level, message);
    card := card + [Append(g, line), Close(g)];
    serial := serial + [Mirror(line)];
    LogRotateAndWrite(s, message, level, drv);
  }
}
