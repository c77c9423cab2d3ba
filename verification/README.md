# DataLogger — a Dafny model of the rotating SD-card logger

`DataLogger` is an Arduino class that appends timestamped, levelled lines to
a log file on an SD card. It mirrors every line on the serial port. When the
active file grows past 1 MiB it switches to `data_1.log`, then `data_2.log`,
and so on. The repository holds two copies of the class:
- `src/DataLogger.{h,cpp}`, the documented one;
- `DataLogger.{h,cpp}` at the top level, an older one. Its counter starts at 0
  through a member initializer and it has no accessors.

This project models both copies as pure state transitions:

- **State.** `DataLogger.Logger(filename, fileIndex, ready)` holds the three
  fields that matter. `Construct`, `Begin` and `Log` are pure functions that
  return the next state.
- **Hardware answers are parameters.** A `Driver` record carries what the
  hardware says during one `log` call:
  - whether `SD.open` succeeds on the active file;
  - the file's `size()`;
  - whether the open after a rotation succeeds;
  - the value of `millis()`.

  The result of `SD.begin` is a parameter of `Begin`.
- **Two output channels.** Each call returns what it does:
  - `card`: the opens, size queries, appends and closes on the SD card, in
    order;
  - `serial`: the lines mirrored on the serial port and the diagnostics
    printed there, recorded by kind.
- **Projections.** Three functions read the channels back:
  - `Written` gives the `(file, line)` pairs appended;
  - `Mirrored` gives the lines echoed on the serial port;
  - `Rotations` counts the "size limit reached" announcements.

The supporting modules model the text the logger produces:
- `Decimal` covers `%d` and `%lu` digits.
- `Timestamps` covers `getTimestamp` and `%02lu`.
- `LogLevels` covers the `LogLevel` enum and `levelToString`.
- `LogLines` covers the line `log` builds.

Each of these has a parser. A round-trip lemma in each direction shows that
the text has exactly the documented shape. For a log line this holds for
the record one `log` call prints. If the message holds a newline, that
record spans several lines of the file, and only the first starts with a
stamp.

`Sessions` runs any sequence of `begin` and `log` calls and states what holds
over a whole session.

`RootDataLogger` rewrites the top-level copy as imperative methods that
follow the C++ statement order, with early returns and explicit digit
formatting. It proves each method produces exactly what the functional model
produces.

## Model

| member | source | states |
|---|---|---|
| DataLogger.Construct | src/DataLogger.cpp:18-23 | a new logger is not ready, has counter 0 and writes to the base name, and its name already follows the counter |
| DataLogger.Begin | src/DataLogger.cpp:34-47 | `begin` returns true exactly when the card is detected and sets the ready flag to that same value, on success and on failure; it touches no file, mirrors no line and keeps name and counter |
| DataLogger.Log | src/DataLogger.cpp:60-104 | `log` never changes the ready flag; when not ready it leaves the state alone and touches no file; it rotates exactly when ready, opened and over the limit, and then the counter goes up by exactly one and the name becomes the rotation name of the new counter; otherwise the state is unchanged |
| DataLogger.LogOutput | src/DataLogger.cpp:60-104 | for every hardware answer: the line is appended to the active file exactly when the call gets past both opens; the serial port mirrors exactly the appended lines; one rotation is announced per step of the counter |
| DataLogger.LogWhenNotReady | src/DataLogger.cpp:62-65 | not ready: no card operation at all, the state unchanged, one "not initialised" diagnostic |
| DataLogger.LogWhenOpenFails | src/DataLogger.cpp:68-72 | the first open fails: only that open is attempted, there is no size check and no write, the state is unchanged, one diagnostic |
| DataLogger.LogWithinLimit | src/DataLogger.cpp:96-103 | the file holds at most the limit: open, size query, append of the built line, close, and the same line mirrored; the state is unchanged |
| DataLogger.LogRotateAndWrite | src/DataLogger.cpp:75-92 | over the limit and the new file opens: the old file is closed, the counter goes up by one and the name becomes `data_<counter>.log`, the line goes to the new file, and the new file is not size-checked in the same call |
| DataLogger.LogRotateCreateFails | src/DataLogger.cpp:81-91 | over the limit and the new file does not open: nothing is written, yet the counter and the new name persist and the logger stays ready |
| DataLogger.RotationBoundary | src/DataLogger.cpp:75 | with the 1048576-byte limit, a file of exactly that size is kept and one byte more rotates: the comparison is strict |
| DataLogger.RotationNameParses | src/DataLogger.cpp:83 | `data_%d.log` is read back as its counter, so the name records the counter |
| DataLogger.ParseRotationName | src/DataLogger.cpp:83 | any name accepted as a rotation name is exactly `data_` + the decimal digits of its index + `.log` |
| DataLogger.RotationNamesDistinct | src/DataLogger.cpp:80-84 | different counters give different file names, so a rotation never reopens an earlier rotated file |
| DataLogger.RotationSkipsZero | src/DataLogger.cpp:81-83 | the counter is raised before formatting, so no rotation produces `data_0.log` |
| DataLogger.FirstRotationNames | src/DataLogger.cpp:80 | the first two rotation names are `data_1.log` and `data_2.log` |
| DataLogger.LogKeepsNaming | src/DataLogger.cpp:81-84 | every `log` call keeps the active name equal to the name its counter designates |
| DataLogger.HeaderExampleScenario | src/DataLogger.h:34-37 | the header's usage example on a present card with an empty `system.log`: `begin` succeeds, and the first message, logged here at five seconds, is appended to `system.log` as `00:00:05 [INFO] Système démarré\n` and mirrored, with the state unchanged |
| DataLogger.OversizeScenario | src/DataLogger.cpp:75-84 | a base file already over the limit is closed, and the message goes to `data_1.log` |
| Sessions.RunCountsRotations | src/DataLogger.h:98-103 | after any sequence of calls the counter is its start value plus the number of rotations announced, so it never decreases |
| Sessions.AccessorsAfterSession | src/DataLogger.h:103-110 | after any session on a new logger, `getFileIndex` is the number of rotations so far and `getFilename` is the base name before any rotation and `data_<counter>.log` after |
| Sessions.RunKeepsNaming | src/DataLogger.cpp:81-84 | the active name follows the counter after any sequence of calls |
| Sessions.RunReadyIsLastBegin | src/DataLogger.cpp:109-111 | `isReady` after a session is the result of the last `begin`, or the initial flag when there was none: nothing but `begin` changes the flag |
| Sessions.RunWhileNotReady | src/DataLogger.cpp:62-65 | until a `begin` succeeds, a logger that is not ready does nothing: same state, no card operation, no mirrored line |
| Sessions.RunMirrorsWrites | src/DataLogger.cpp:99-103 | over a whole session the serial port mirrors exactly the lines written to the card, in order |
| Sessions.RunLinesWellFormed | src/DataLogger.h:76-77 | each text one `log` call prints during a session has the documented `HH:MM:SS [LEVEL] message\n` shape; it spans several lines of the file when the message holds a newline |
| Sessions.RunWritesToActiveFiles | src/DataLogger.cpp:68 | lines only go to the base file or to rotation files whose index lies between the counters at the start and end of the session |
| Sessions.TwoRotations | src/DataLogger.cpp:80 | two oversized writes in a row go to `data_1.log` and then `data_2.log` |
| LogLevels.Code | src/DataLogger.h:21-25 | the three enumerators are numbered 0, 1 and 2; the top-level header declares the same enum |
| LogLevels.LabelOfCode | src/DataLogger.cpp:119-130 | the switch gives "UNKNOWN" exactly for integers outside 0..2, and for each enumerator gives that enumerator's label |
| LogLevels.ParseLevelToString | src/DataLogger.cpp:119-130 | each level's label is read back as that level, so labels are distinct, and none is "UNKNOWN" |
| LogLevels.LabelOfCodeAgrees | src/DataLogger.cpp:120-126 | on the three enumerators the switch agrees with the closed mapping |
| LogLevels.LabelShape | src/DataLogger.cpp:121-126 | labels are four or five upper-case letters, so they never contain the closing bracket |
| Timestamps.ClockOf | src/DataLogger.cpp:140-150 | the printed fields form a valid clock, below 24/60/60, whose second of the day is the uptime in seconds modulo one day |
| Timestamps.ClockOfUnits | src/DataLogger.cpp:141-150 | the fields are `(ms/3600000)%24`, `(ms/60000)%60` and `(ms/1000)%60` |
| Timestamps.Pad2 | src/DataLogger.cpp:147 | `%02lu` gives at least two digits that read back as the number, and exactly two below 100 |
| Timestamps.Pad2OfParse | src/DataLogger.cpp:147 | every two-digit text is the padded form of its value |
| Timestamps.Timestamp | src/DataLogger.cpp:139-153 | the stamp has eight characters with colons at positions 2 and 5 |
| Timestamps.TimestampParses | src/DataLogger.cpp:139-153 | the stamp reads back as the clock fields of the uptime |
| Timestamps.ClockTextParses | src/DataLogger.cpp:147-150 | every valid clock's text reads back as that clock |
| Timestamps.ParseTimestampExact | src/DataLogger.cpp:147-150 | any text the stamp parser accepts is the text of the clock it returns |
| Timestamps.ParseTimestamp | src/DataLogger.h:77 | an accepted stamp always has fields below 24/60/60 |
| Timestamps.TimestampWrapsDaily | src/DataLogger.cpp:145-148 | uptimes a whole number of days apart give the same stamp |
| Timestamps.SameSecondOfDay | src/DataLogger.cpp:148-150 | a valid clock is determined by its second of the day, so stamps of different seconds in a day differ |
| Timestamps.FiveSecondsStamp | src/DataLogger.cpp:139-153 | 5000 ms gives `00:00:05` |
| Timestamps.TwentyFiveHoursStamp | src/DataLogger.cpp:148 | 90000000 ms gives `01:00:00`: the hour wraps at 24 |
| Decimal.ParseNatToString | src/DataLogger.cpp:83 | the decimal digits of a number read back as that number |
| Decimal.NatToStringOfParse | src/DataLogger.cpp:83 | every canonical digit string is the decimal text of its value |
| Decimal.NatToStringInjective | src/DataLogger.cpp:83 | different numbers have different decimal texts |
| LogLines.BuildLine | src/DataLogger.cpp:96 | the line starts with the stamp, ends with a newline, and is 13 characters longer than label and message together |
| LogLines.BuildLineParses | src/DataLogger.cpp:96 | the built record reads back as the uptime's clock, the same level and the same message, even a message holding newlines |
| LogLines.LineLayout | src/DataLogger.cpp:96 | the label sits in brackets after the stamp, followed by `] ` and then the message up to the final newline |
| LogLines.ParseRender | src/DataLogger.h:76-77 | every entry with a valid clock reads back from its line |
| LogLines.ParseLineExact | src/DataLogger.h:76-77 | any line the parser accepts is exactly the documented rendering of the entry it returns |
| LogLines.ParseLine | src/DataLogger.h:76-77 | an accepted line always carries a valid clock |
| LogLines.HeaderExampleLine | src/DataLogger.cpp:96 | the header example's first message at INFO, at 5000 ms, is `00:00:05 [INFO] Système démarré\n` |
| LogLines.EmbeddedNewline | src/DataLogger.cpp:96 | the message is neither rejected nor escaped: `a\nb` makes the record two file lines, and the second, `b\n`, has no stamp and does not read back as a log line |
| LogLines.EmbeddedNewlineRecord | src/DataLogger.cpp:96 | that two-line record still reads back whole as clock 00:00:05, INFO and the message `a\nb` |
| RootDataLogger.Create | DataLogger.cpp:5-9 | the top-level constructor builds the same logger as the `src/` one: base name, not ready, and counter 0, which comes from the member initializer in the header |
| RootDataLogger.Begin | DataLogger.cpp:11-23 | the top-level `begin` reports the card-detection result as a boolean and records it in the ready flag, with the same output as the `src/` model |
| RootDataLogger.Log | DataLogger.cpp:25-59 | the top-level `log`, followed statement by statement, yields the same state, card operations and serial output as the `src/` model: nothing but a diagnostic when not ready, the message dropped when an open fails, and the line written exactly when both opens succeed |
| RootDataLogger.LogOpened | DataLogger.cpp:37-58 | once the file is open, the size check against the same 1048576-byte limit, strictly exceeded, and the rotation and write that follow agree with the `src/` model |
| RootDataLogger.LogRotating | DataLogger.cpp:37-51 | the rotation path agrees with the `src/` model whether or not the second open succeeds; when it fails, the new name persists |
| RootDataLogger.Rotate | DataLogger.cpp:41-44 | incrementing and then formatting gives the rotated state, whose name reads back as the new counter |
| RootDataLogger.FormatDecimal | DataLogger.cpp:43 | digit extraction by repeated division gives the canonical decimal text, which reads back as the number |
| RootDataLogger.FormatPadded | DataLogger.cpp:81 | width-2 zero padding equals `Pad2`, and has exactly two digits below 100 |
| RootDataLogger.GetTimestamp | DataLogger.cpp:74-85 | the top-level `getTimestamp` equals the `src/` stamp and reads back as the uptime's clock |
| RootDataLogger.LevelText | DataLogger.cpp:65-72 | the top-level switch equals `LabelOfCode`: a level's label for 0..2, "UNKNOWN" otherwise |
| RootDataLogger.FormatLine | DataLogger.cpp:53 | the top-level line equals the `src/` line and reads back as its clock, level and message |

## Left out

- `_csPin` is only forwarded to `SD.begin`, whose result is a parameter of `Begin`, so it is not modelled.
- The SD and SPI driver is not modelled. `SD.begin`'s answer is the `cardDetected` parameter of `Begin`, and its call is not recorded. The calls to `SD.open`, `File::size`, `File::print` and `File::close` are recorded as `Open`, `SizeQuery`, `Append` and `Close`. The answers of `SD.open` and `File::size` are fields of `Driver`.
- The text of the serial diagnostics is not modelled: French wording, emoji, and the extra terminator `println` adds. Diagnostics are recorded by kind, and mirrored lines are recorded as the line passed to `println`.
- `strdup` allocates each new name and never frees the old one (src/DataLogger.cpp:84, DataLogger.cpp:44). File names are immutable values here, so neither the leak nor the Arduino `String` internals appear.
- `_fileIndex` is an `int`, which overflows after INT_MAX rotations: 32767 on 8-bit AVR boards, where `int` is 16 bits, and 2^31 - 1 on 32-bit boards. After that, `%d` would print a negative index. Here the counter is unbounded, so the overflow is not modelled.
- `snprintf` truncation into `newName[32]` and `buffer[20]` is not modelled. It cannot happen: an `int` needs at most 11 characters, and the stamp fields are below 100.
- The `millis()` clock is a parameter below 2^32, the range of an Arduino `unsigned long`. Its own wrap after about 49.7 days belongs to the hardware.
- `isReady`, `getFileIndex` and `getFilename` are the plain reads `IsReady`, `FileIndex` and `Filename`, with no contracts of their own. Being pure functions, they cannot change state. Their values are stated by `Sessions.RunReadyIsLastBegin` and `Sessions.AccessorsAfterSession`.
- An out-of-range `LogLevel` integer cannot inhabit the closed datatype. The `default: "UNKNOWN"` branch is modelled on raw integers only, by `LabelOfCode` and `RootDataLogger.LevelText`.
- Concurrency is not modelled: the class has none, and each call runs to completion.
- The header documents `getFileIndex` as the number of files created by rotations (src/DataLogger.h:98-103). The code raises the counter before it tries to create the new file (src/DataLogger.cpp:81-89), so it counts rotation attempts, failed creates included. The model follows the code; see `DataLogger.LogRotateCreateFails`. `Sessions.RunCountsRotations` and `Sessions.AccessorsAfterSession` count rotations announced, not files created.
- The comment at src/DataLogger.cpp:80 shows a sequence starting `data_0.log`. The code never produces that name, since the counter is raised before formatting. The model follows the code; see `DataLogger.RotationSkipsZero`.
- A Dafny `char` stands for one byte of the Arduino `String`. Lengths such as the 13 extra characters of `LogLines.BuildLine` are byte counts in the source only for ASCII text. A non-ASCII message, such as the header example's `Système démarré`, is several bytes per accented letter on the card, and the file size the logger compares against the limit counts those bytes. The model does not track the encoding.
- `Sessions.RunLinesWellFormed` is about the record each `log` call prints, not each physical line of the file. A message holding a newline splits its record over several file lines, and only the first starts with a stamp (`LogLines.EmbeddedNewline`).
