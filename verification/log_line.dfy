/**
 The text one `log` call prints for one message:
 `HH:MM:SS [LEVEL] message` followed by a newline. `ParseLine` reads such a
 record back into its parts; the lemmas below show that building and
 reading are inverse to each other, so each record the logger prints has
 the documented shape and carries the message unchanged. A message that
 holds a newline makes the record span several lines of the file, and
 only the first of them starts with a stamp (`EmbeddedNewline`).
 */
module LogLines {
  import opened Wrappers
  import opened LogLevels
  import opened Timestamps

  /** The content of one log line. */
  datatype Entry = Entry(clock: Clock, level: LogLevel, message: string)

  /** The line of an entry whose clock is valid. */
  function Render(e: Entry): (line: string)
    requires ValidClock(e.clock)
  {
    ClockText(e.clock) + " [" + LevelToString(e.level) + "] " + e.message + "\n"
  }

  /** The line `log` builds from the uptime, the level and the message. */
  function BuildLine(ms: Millis, level: LogLevel, message: string): (line: string)
    ensures |line| == 13 + |LevelToString(level)| + |message|
    ensures line[..8] == Timestamp(ms) && line[|line| - 1] == '\n'
  {
    Timestamp(ms) + " [" + LevelToString(level) + "] " + message + "\n"
  }

  /**
   A built record is read back as the clock of the uptime, the same level
   and the same message: it has the documented shape and keeps the message
   whole, even when the message holds newlines.
   */
  lemma BuildLineParses(ms: Millis, level: LogLevel, message: string)
    ensures ParseLine(BuildLine(ms, level, message)) == Some(Entry(ClockOf(ms), level, message))
  {
    ParseRender(Entry(ClockOf(ms), level, message));
  }

  /** The rest of `text` after the label of `level` and the closing "] ", if it starts so. */
  function AfterLabel(text: string, level: LogLevel): (r: Option<string>)
    ensures r.Some? ==> text == LevelToString(level) + "] " + r.value
  {
    var tag := LevelToString(level) + "] ";
    if |text| >= |tag| && text[..|tag|] == tag then
      assert text == text[..|tag|] + text[|tag|..];
      Some(text[|tag|..])
    else
      None
  }

  /** Splits `LEVEL] message` into the level and the message. */
  function ParseLabelled(text: string): Option<(LogLevel, string)> {
    if AfterLabel(text, INFO).Some? then Some((INFO, AfterLabel(text, INFO).value))
    else if AfterLabel(text, WARN).Some? then Some((WARN, AfterLabel(text, WARN).value))
    else if AfterLabel(text, ERROR).Some? then Some((ERROR, AfterLabel(text, ERROR).value))
    else None
  }

  /** Reads a log line; `None` when the text does not have the documented shape. */
  function ParseLine(line: string): (r: Option<Entry>)
    ensures r.Some? ==> ValidClock(r.value.clock)
  {
    if |line| < 12 || line[|line| - 1] != '\n' then None
    else match ParseTimestamp(line[..8])
      case None => None
      case Some(c) =>
        if line[8..10] != " [" then None
        else match ParseLabelled(line[10..|line| - 1])
          case None => None
          case Some(lm) => Some(Entry(c, lm.0, lm.1))
  }

  /** The labels start with distinct letters, so a labelled text has one reading. */
  lemma ParseLabelledOf(level: LogLevel, message: string)
    ensures ParseLabelled(LevelToString(level) + "] " + message) == Some((level, message))
  {
    var text := LevelToString(level) + "] " + message;
    assert text[0] == LevelToString(level)[0];
    var tag := LevelToString(level) + "] ";
    assert text[..|tag|] == tag && text[|tag|..] == message;
  }

  /** Every entry with a valid clock is read back from its line. */
  lemma ParseRender(e: Entry)
    requires ValidClock(e.clock)
    ensures ParseLine(Render(e)) == Some(e)
  {
    var line := Render(e);
    var stamp := ClockText(e.clock);
    var labelled := LevelToString(e.level) + "] " + e.message;
    assert line == stamp + " [" + labelled + "\n";
    assert line[..8] == stamp;
    assert line[8..10] == " [";
    assert line[10..|line| - 1] == labelled;
    ClockTextParses(e.clock);
    ParseLabelledOf(e.level, e.message);
  }

  /** Whatever the label parser accepts is the label, the closing "] " and the message. */
  lemma ParseLabelledExact(text: string)
    requires ParseLabelled(text).Some?
    ensures var (level, message) := ParseLabelled(text).value;
            text == LevelToString(level) + "] " + message
  {
  }

  /** Whatever line the parser accepts is exactly the line of the entry it returns. */
  lemma ParseLineExact(line: string)
    requires ParseLine(line).Some?
    ensures Render(ParseLine(line).value) == line
  {
    var e := ParseLine(line).value;
    var stamp, labelled := line[..8], line[10..|line| - 1];
    assert ParseTimestamp(stamp) == Some(e.clock);
    assert ParseLabelled(labelled) == Some((e.level, e.message));
    ParseTimestampExact(stamp);
    ParseLabelledExact(labelled);
    SplitLine(line);
  }

  /** A line of at least twelve characters is its stamp, separator, middle and last character. */
  lemma SplitLine(line: string)
    requires |line| >= 12
    ensures line == line[..8] + line[8..10] + line[10..|line| - 1] + [line[|line| - 1]]
  {
  }

  /** The message is the last part of the line and the label sits in brackets after the stamp. */
  lemma LineLayout(ms: Millis, level: LogLevel, message: string)
    ensures var line := BuildLine(ms, level, message);
            var n := |LevelToString(level)|;
            && line[8..10] == " ["
            && line[10..10 + n] == LevelToString(level)
            && line[10 + n..12 + n] == "] "
            && line[12 + n..|line| - 1] == message
  {
    var line := BuildLine(ms, level, message);
    var stamp := Timestamp(ms);
    var tag := LevelToString(level);
    assert line == stamp + " [" + tag + "] " + message + "\n";
    assert |stamp| == 8;
  }

  /** The first message of the header's usage example, logged five seconds after start-up. */
  lemma HeaderExampleLine()
    ensures BuildLine(5000, INFO, "Système démarré") == "00:00:05 [INFO] Système démarré\n"
  {
    FiveSecondsStamp();
  }

  /**
   `log` neither rejects nor escapes a newline inside the message. One call
   then prints a record that spans two lines of the file, and the second
   line carries no stamp, so on its own it does not read back.
   */
  lemma EmbeddedNewline()
    ensures BuildLine(5000, INFO, "a\nb") == "00:00:05 [INFO] a\n" + "b\n"
    ensures ParseLine("b\n") == None
  {
    FiveSecondsStamp();
    assert BuildLine(5000, INFO, "a\nb") == "00:00:05" + " [" + "INFO" + "] " + "a\nb" + "\n";
  }

  /** The record of such a message still reads back whole, newline included. */
  lemma EmbeddedNewlineRecord()
    ensures ParseLine(BuildLine(5000, INFO, "a\nb")) == Some(Entry(Clock(0, 0, 5), INFO, "a\nb"))
  {
    BuildLineParses(5000, INFO, "a\nb");
    assert ClockOf(5000) == Clock(0, 0, 5);
  }
}
