/**
 Severity levels of the logger and their labels. The C++ `LogLevel` is a
 plain enum of three enumerators numbered 0, 1, 2; `levelToString` switches
 over it and falls back to "UNKNOWN" for any other integer the enum variable
 might hold.
 */
module LogLevels {
  import opened Wrappers

  /** The closed set of severities. */
  datatype LogLevel = INFO | WARN | ERROR

  /** The integer C++ gives each enumerator (implicit numbering from 0). */
  function Code(level: LogLevel): (c: int)
    ensures 0 <= c < 3
  {
    match level
    case INFO => 0
    case WARN => 1
    case ERROR => 2
  }

  /** The label written between the brackets of a log line. */
  function LevelToString(level: LogLevel): string {
    match level
    case INFO => "INFO"
    case WARN => "WARN"
    case ERROR => "ERROR"
  }

  /**
   The `levelToString` switch applied to the raw integer of the enum
   variable, including its `default` branch.
   */
  function LabelOfCode(code: int): (text: string)
    ensures text == "UNKNOWN" <==> !(0 <= code < 3)
    ensures 0 <= code < 3 ==> exists level :: Code(level) == code && LevelToString(level) == text
  {
    if code == 0 then LevelToString(INFO)
    else if code == 1 then LevelToString(WARN)
    else if code == 2 then LevelToString(ERROR)
    else "UNKNOWN"
  }

  /** Recognizes the label of a level; the inverse of `LevelToString`. */
  function ParseLevel(text: string): (r: Option<LogLevel>)
    ensures r.Some? ==> LevelToString(r.value) == text
  {
    if text == "INFO" then Some(INFO)
    else if text == "WARN" then Some(WARN)
    else if text == "ERROR" then Some(ERROR)
    else None
  }

  /** Every level's label is read back as that level, and no label is "UNKNOWN". */
  lemma ParseLevelToString(level: LogLevel)
    ensures ParseLevel(LevelToString(level)) == Some(level)
    ensures LevelToString(level) != "UNKNOWN"
  {
  }

  /** On the three enumerators the raw switch agrees with the closed mapping. */
  lemma LabelOfCodeAgrees(level: LogLevel)
    ensures LabelOfCode(Code(level)) == LevelToString(level)
  {
  }

  /** Labels are non-empty upper-case words, so they never contain the closing bracket. */
  lemma LabelShape(level: LogLevel)
    ensures 4 <= |LevelToString(level)| <= 5
    ensures forall i :: 0 <= i < |LevelToString(level)| ==> 'A' <= LevelToString(level)[i] <= 'Z'
  {
  }
}
