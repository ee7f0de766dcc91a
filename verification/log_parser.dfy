/**
 * One line of a log file turned into a record: the anchored pattern
 * `^([\d:\-\s]+) (DEBUG|INFO|WARNING|ERROR) (.+)\n$` followed by a
 * `%Y-%m-%d %H:%M:%S` reading of the first group (task_3/main.py).
 */
module LogParser {
  import opened Wrappers
  import opened Text
  import opened Numerals

  datatype Level = DEBUG | INFO | WARNING | ERROR

  /** The literal that stands for a level in a log line. */
  function Name(level: Level): string {
    match level
    case DEBUG => "DEBUG"
    case INFO => "INFO"
    case WARNING => "WARNING"
    case ERROR => "ERROR"
  }

  /** Calendar date-time with second precision and no time zone. */
  datatype DateTime = DateTime(year: nat, month: nat, day: nat, hour: nat, minute: nat, second: nat)

  datatype LogRecord = LogRecord(date: DateTime, level: Level, message: string)

  /** Both failures are a `ValueError` in the source: the pattern's and `strptime`'s. */
  datatype ParseError = UnexpectedFormat | BadTimestamp

  // ---------------------------------------------------------------- calendar

  predicate IsLeapYear(year: nat) {
    year % 4 == 0 && (year % 100 != 0 || year % 400 == 0)
  }

  function DaysInMonth(year: nat, month: nat): nat
    requires 1 <= month <= 12
  {
    if month == 2 then (if IsLeapYear(year) then 29 else 28)
    else if month in {4, 6, 9, 11} then 30
    else 31
  }

  /** The date-times `datetime` can represent (years 1 to 9999). */
  predicate ValidDateTime(d: DateTime) {
    && 1 <= d.year <= 9999
    && 1 <= d.month <= 12
    && 1 <= d.day <= DaysInMonth(d.year, d.month)
    && d.hour < 24
    && d.minute < 60
    && d.second < 60
  }

  // ---------------------------------------------------------------- timestamps

  /** Positions of the separators and the digits in `YYYY-MM-DD HH:MM:SS`. */
  predicate TimestampShape(s: string) {
    && |s| == 19
    && s[4] == '-' && s[7] == '-' && s[10] == ' ' && s[13] == ':' && s[16] == ':'
    && IsDigits(s[..4]) && IsDigits(s[5..7]) && IsDigits(s[8..10])
    && IsDigits(s[11..13]) && IsDigits(s[14..16]) && IsDigits(s[17..])
  }

  /** `datetime.strptime(s, '%Y-%m-%d %H:%M:%S')`, read strictly: every field at full width. */
  function ParseTimestamp(s: string): Option<DateTime> {
    if !TimestampShape(s) then None
    else
      var d := DateTime(Number(s[..4]), Number(s[5..7]), Number(s[8..10]),
                        Number(s[11..13]), Number(s[14..16]), Number(s[17..]));
      if ValidDateTime(d) then Some(d) else None
  }

  /** `strftime('%Y-%m-%d %H:%M:%S')`, with the year written on four digits. */
  function FormatTimestamp(d: DateTime): string {
    Digits(d.year, 4) + "-" + Digits(d.month, 2) + "-" + Digits(d.day, 2) + " "
    + Digits(d.hour, 2) + ":" + Digits(d.minute, 2) + ":" + Digits(d.second, 2)
  }

  /** Where each field of a formatted timestamp lies. */
  lemma FormatTimestampFields(d: DateTime)
    ensures var f := FormatTimestamp(d);
      && |f| == 19
      && f[4] == '-' && f[7] == '-' && f[10] == ' ' && f[13] == ':' && f[16] == ':'
      && f[..4] == Digits(d.year, 4) && f[5..7] == Digits(d.month, 2) && f[8..10] == Digits(d.day, 2)
      && f[11..13] == Digits(d.hour, 2) && f[14..16] == Digits(d.minute, 2) && f[17..] == Digits(d.second, 2)
  {
    var a1 := Digits(d.year, 4) + "-";
    var a2 := a1 + Digits(d.month, 2);
    var a3 := a2 + "-";
    var a4 := a3 + Digits(d.day, 2);
    var a5 := a4 + " ";
    var a6 := a5 + Digits(d.hour, 2);
    var a7 := a6 + ":";
    var a8 := a7 + Digits(d.minute, 2);
    var a9 := a8 + ":";
    var f := a9 + Digits(d.second, 2);
    assert f == FormatTimestamp(d);
    Halves(f, a9, Digits(d.second, 2));
    Halves(a9, a8, ":");
    TakeTake(f, 17, 16);
    Halves(a8, a7, Digits(d.minute, 2));
    TakeTake(f, 16, 14);
    Halves(a7, a6, ":");
    TakeTake(f, 14, 13);
    Halves(a6, a5, Digits(d.hour, 2));
    TakeTake(f, 13, 11);
    Halves(a5, a4, " ");
    TakeTake(f, 11, 10);
    Halves(a4, a3, Digits(d.day, 2));
    TakeTake(f, 10, 8);
    Halves(a3, a2, "-");
    TakeTake(f, 8, 7);
    Halves(a2, a1, Digits(d.month, 2));
    TakeTake(f, 7, 5);
    Halves(a1, Digits(d.year, 4), "-");
    TakeTake(f, 5, 4);
  }

  lemma Halves(s: string, t: string, u: string)
    requires s == t + u
    ensures s[..|t|] == t && s[|t|..] == u
  {
  }

  lemma TakeTake(s: string, i: nat, j: nat)
    requires j <= i <= |s|
    ensures s[..i][..j] == s[..j]
  {
  }

  /** Two 19-character strings with the same fields and separators are equal. */
  lemma SameTimestampFields(a: string, b: string)
    requires |a| == 19 && |b| == 19
    requires a[4] == b[4] && a[7] == b[7] && a[10] == b[10] && a[13] == b[13] && a[16] == b[16]
    requires a[..4] == b[..4] && a[5..7] == b[5..7] && a[8..10] == b[8..10]
    requires a[11..13] == b[11..13] && a[14..16] == b[14..16] && a[17..] == b[17..]
    ensures a == b
  {
    forall i | 0 <= i < 19 ensures a[i] == b[i] {
      if i < 4 { assert a[i] == a[..4][i] && b[i] == b[..4][i]; }
      else if 5 <= i < 7 { assert a[i] == a[5..7][i - 5] && b[i] == b[5..7][i - 5]; }
      else if 8 <= i < 10 { assert a[i] == a[8..10][i - 8] && b[i] == b[8..10][i - 8]; }
      else if 11 <= i < 13 { assert a[i] == a[11..13][i - 11] && b[i] == b[11..13][i - 11]; }
      else if 14 <= i < 16 { assert a[i] == a[14..16][i - 14] && b[i] == b[14..16][i - 14]; }
      else if 17 <= i { assert a[i] == a[17..][i - 17] && b[i] == b[17..][i - 17]; }
    }
  }

  /** A valid date-time, once formatted, is read back as itself. */
  lemma ParseFormatTimestamp(d: DateTime)
    requires ValidDateTime(d)
    ensures ParseTimestamp(FormatTimestamp(d)) == Some(d)
  {
    FormatTimestampFields(d);
    ParseTimestampOf(FormatTimestamp(d), d);
  }

  /** A string laid out as a timestamp whose fields spell the parts of a valid `d` reads as `d`. */
  lemma ParseTimestampOf(s: string, d: DateTime)
    requires ValidDateTime(d)
    requires |s| == 19 && s[4] == '-' && s[7] == '-' && s[10] == ' ' && s[13] == ':' && s[16] == ':'
    requires s[..4] == Digits(d.year, 4) && s[5..7] == Digits(d.month, 2) && s[8..10] == Digits(d.day, 2)
    requires s[11..13] == Digits(d.hour, 2) && s[14..16] == Digits(d.minute, 2) && s[17..] == Digits(d.second, 2)
    ensures ParseTimestamp(s) == Some(d)
  {
    NumberOfDigits(d.year, 4);
    NumberOfDigits(d.month, 2);
    NumberOfDigits(d.day, 2);
    NumberOfDigits(d.hour, 2);
    NumberOfDigits(d.minute, 2);
    NumberOfDigits(d.second, 2);
    assert TimestampShape(s);
  }

  /** Whatever is accepted as a timestamp is a valid date-time written in the format. */
  lemma ParseTimestampSound(s: string)
    ensures ParseTimestamp(s).Some? ==>
              ValidDateTime(ParseTimestamp(s).value) && FormatTimestamp(ParseTimestamp(s).value) == s
  {
    if ParseTimestamp(s).Some? {
      var d := ParseTimestamp(s).value;
      DigitsOfNumber(s[..4]);
      DigitsOfNumber(s[5..7]);
      DigitsOfNumber(s[8..10]);
      DigitsOfNumber(s[11..13]);
      DigitsOfNumber(s[14..16]);
      DigitsOfNumber(s[17..]);
      FormatTimestampFields(d);
      SameTimestampFields(FormatTimestamp(d), s);
    }
  }

  /** The timestamps accepted are exactly the formatted valid date-times. */
  lemma ParseTimestampIff(s: string, d: DateTime)
    ensures ParseTimestamp(s) == Some(d) <==> ValidDateTime(d) && s == FormatTimestamp(d)
  {
    ParseTimestampSound(s);
    if ValidDateTime(d) && s == FormatTimestamp(d) {
      ParseFormatTimestamp(d);
    }
  }

  // ---------------------------------------------------------------- the line pattern

  /** The character class `[\d:\-\s]` of the timestamp group. */
  predicate IsTimestampChar(c: char) {
    IsDigit(c) || c == ':' || c == '-' || IsSpace(c)
  }

  /** Length of the longest prefix of timestamp characters. */
  function TimestampSpan(s: string): (n: nat)
    ensures n <= |s|
    ensures forall i | 0 <= i < n :: IsTimestampChar(s[i])
    ensures n < |s| ==> !IsTimestampChar(s[n])
  {
    if s == [] || !IsTimestampChar(s[0]) then 0 else 1 + TimestampSpan(s[1..])
  }

  /** Index of the first line feed, or the length when there is none. */
  function LineLength(s: string): (n: nat)
    ensures n <= |s|
    ensures forall i | 0 <= i < n :: s[i] != '\n'
    ensures n < |s| ==> s[n] == '\n'
  {
    if s == [] || s[0] == '\n' then 0 else 1 + LineLength(s[1..])
  }

  /** The level literal, followed by a space, that begins `s`, tried in the pattern's order. */
  function LevelAt(s: string): Option<Level> {
    if Name(DEBUG) + " " <= s then Some(DEBUG)
    else if Name(INFO) + " " <= s then Some(INFO)
    else if Name(WARNING) + " " <= s then Some(WARNING)
    else if Name(ERROR) + " " <= s then Some(ERROR)
    else None
  }

  /**
   * The tail `(.+)\n$` of the pattern: a non-empty message without line feeds, a
   * line feed, and at most one more line feed before the end.
   */
  function MessageOf(rest: string): Option<string> {
    var e := LineLength(rest);
    if e == 0 || e == |rest| then None
    else if rest[e + 1..] == [] || rest[e + 1..] == "\n" then Some(rest[..e])
    else None
  }

  /** The three groups of a successful match. */
  datatype Groups = Groups(timestamp: string, level: Level, message: string)

  /** `re.match(pattern, line)`. */
  function MatchLine(line: string): Option<Groups> {
    var p := TimestampSpan(line);
    if p < 2 || line[p - 1] != ' ' then None
    else match LevelAt(line[p..])
      case None => None
      case Some(level) =>
        match MessageOf(line[p..][|Name(level)| + 1..])
        case None => None
        case Some(msg) => Some(Groups(line[..p - 1], level, msg))
  }

  /**
   * `parse_log_line`: the pattern is matched first, then the timestamp is read;
   * the level is stored upper-cased, which leaves the literal as it is.
   */
  function ParseLogLine(line: string): Result<LogRecord, ParseError> {
    match MatchLine(line)
    case None => Failure(UnexpectedFormat)
    case Some(g) =>
      match ParseTimestamp(g.timestamp)
      case None => Failure(BadTimestamp)
      case Some(date) => Success(LogRecord(date, g.level, g.message))
  }

  /** `log_level.upper()` changes nothing: every level literal is already upper case. */
  lemma LevelNameIsUpper(level: Level)
    ensures Upper(Name(level)) == Name(level)
  {
    UpperOfUppered(Name(level));
  }

  /**
   * The pattern as a grammar: a non-empty run of timestamp characters, one space,
   * a level literal, one space, a non-empty message without line feeds, and a
   * line feed, which `$` lets be followed by one more line feed.
   */
  ghost predicate MatchesPattern(line: string, ts: string, level: Level, msg: string) {
    && ts != [] && (forall i | 0 <= i < |ts| :: IsTimestampChar(ts[i]))
    && msg != [] && (forall i | 0 <= i < |msg| :: msg[i] != '\n')
    && (line == ts + " " + Name(level) + " " + msg + "\n"
        || line == ts + " " + Name(level) + " " + msg + "\n\n")
  }

  lemma {:induction false} TimestampSpanOf(a: string, b: string)
    requires forall i | 0 <= i < |a| :: IsTimestampChar(a[i])
    requires b == [] || !IsTimestampChar(b[0])
    ensures TimestampSpan(a + b) == |a|
    decreases |a|
  {
    if a == [] {
      assert a + b == b;
    } else {
      assert (a + b)[1..] == a[1..] + b;
      TimestampSpanOf(a[1..], b);
    }
  }

  lemma {:induction false} LineLengthOf(a: string, b: string)
    requires forall i | 0 <= i < |a| :: a[i] != '\n'
    requires b == [] || b[0] == '\n'
    ensures LineLength(a + b) == |a|
    decreases |a|
  {
    if a == [] {
      assert a + b == b;
    } else {
      assert (a + b)[1..] == a[1..] + b;
      LineLengthOf(a[1..], b);
    }
  }

  /** Exactly one level literal can begin a string, so the alternation has one answer. */
  lemma LevelAtIff(s: string, level: Level)
    ensures LevelAt(s) == Some(level) <==> Name(level) + " " <= s
  {
    if Name(level) + " " <= s {
      assert s[0] == Name(level)[0];
    }
  }

  /** The message group and its terminator, as a grammar. */
  lemma MessageOfIff(rest: string, msg: string)
    ensures MessageOf(rest) == Some(msg) <==>
              && msg != [] && (forall i | 0 <= i < |msg| :: msg[i] != '\n')
              && (rest == msg + "\n" || rest == msg + "\n\n")
  {
    if msg != [] && (forall i | 0 <= i < |msg| :: msg[i] != '\n') {
      if rest == msg + "\n" {
        MessageOfLine(msg, "\n");
      } else if rest == msg + "\n\n" {
        MessageOfLine(msg, "\n\n");
      }
    }
    if MessageOf(rest) == Some(msg) {
      MessageOfSound(rest, msg);
    }
  }

  lemma MessageOfLine(msg: string, tail: string)
    requires msg != [] && forall i | 0 <= i < |msg| :: msg[i] != '\n'
    requires tail == "\n" || tail == "\n\n"
    ensures MessageOf(msg + tail) == Some(msg)
  {
    var rest := msg + tail;
    LineLengthOf(msg, tail);
    assert rest[..|msg|] == msg && rest[|msg| + 1..] == tail[1..];
  }

  lemma LineParts(ts: string, level: Level, msg: string, tail: string)
    ensures ts + " " + Name(level) + " " + msg + tail == ts + " " + (Name(level) + " " + (msg + tail))
  {
  }

  /** Where the timestamp group of `ts + " " + after` ends, when `after` cannot extend it. */
  lemma SplitAtTimestamp(line: string, ts: string, after: string)
    requires line == ts + " " + after
    requires forall i | 0 <= i < |ts| :: IsTimestampChar(ts[i])
    requires after != [] && !IsTimestampChar(after[0])
    ensures TimestampSpan(line) == |ts| + 1
    ensures line[|ts|] == ' ' && line[..|ts|] == ts && line[|ts| + 1..] == after
  {
    assert line == (ts + " ") + after;
    TimestampSpanOf(ts + " ", after);
  }

  lemma SplitAtLevel(after: string, level: Level, rest: string)
    requires after == Name(level) + " " + rest
    ensures LevelAt(after) == Some(level) && after[|Name(level)| + 1..] == rest
  {
    LevelAtIff(after, level);
  }

  /** A line that fits the grammar is matched with exactly those groups. */
  lemma MatchLineComplete(line: string, ts: string, level: Level, msg: string)
    requires MatchesPattern(line, ts, level, msg)
    ensures MatchLine(line) == Some(Groups(ts, level, msg))
  {
    var tail := if line == ts + " " + Name(level) + " " + msg + "\n" then "\n" else "\n\n";
    var rest := msg + tail;
    var after := Name(level) + " " + rest;
    LineParts(ts, level, msg, tail);
    assert after[0] == Name(level)[0];
    SplitAtTimestamp(line, ts, after);
    SplitAtLevel(after, level, rest);
    MessageOfLine(msg, tail);
    MatchLineOf(line, |ts| + 1, level, msg);
  }

  /** `MatchLine` read off from where its three groups were found. */
  lemma MatchLineOf(line: string, p: nat, level: Level, msg: string)
    requires TimestampSpan(line) == p && 2 <= p && line[p - 1] == ' '
    requires LevelAt(line[p..]) == Some(level)
    requires MessageOf(line[p..][|Name(level)| + 1..]) == Some(msg)
    ensures MatchLine(line) == Some(Groups(line[..p - 1], level, msg))
  {
  }

  lemma Rejoin(line: string, p: nat)
    requires 1 <= p <= |line| && line[p - 1] == ' '
    ensures line == line[..p - 1] + " " + line[p..]
  {
  }

  lemma RejoinLevel(after: string, level: Level)
    requires LevelAt(after) == Some(level)
    ensures |Name(level)| + 1 <= |after|
    ensures after == Name(level) + " " + after[|Name(level)| + 1..]
  {
    LevelAtIff(after, level);
    assert after[..|Name(level)| + 1] == Name(level) + " ";
  }

  /** A matched line fits the grammar with its groups. */
  lemma MatchLineSound(line: string)
    ensures MatchLine(line).Some? ==>
              var g := MatchLine(line).value;
              MatchesPattern(line, g.timestamp, g.level, g.message)
  {
    if MatchLine(line).Some? {
      var g := MatchLine(line).value;
      var p := TimestampSpan(line);
      assert g.timestamp == line[..p - 1] && LevelAt(line[p..]) == Some(g.level);
      assert MessageOf(line[p..][|Name(g.level)| + 1..]) == Some(g.message);
      MatchedParts(line, p, g.level, g.message);
    }
  }

  /** The pieces a match finds, put back together, are the line. */
  lemma MatchedParts(line: string, p: nat, level: Level, msg: string)
    requires 2 <= p <= |line| && line[p - 1] == ' '
    requires forall i | 0 <= i < p :: IsTimestampChar(line[i])
    requires LevelAt(line[p..]) == Some(level)
    requires MessageOf(line[p..][|Name(level)| + 1..]) == Some(msg)
    ensures MatchesPattern(line, line[..p - 1], level, msg)
  {
    var ts := line[..p - 1];
    var after := line[p..];
    RejoinLevel(after, level);
    var rest := after[|Name(level)| + 1..];
    Rejoin(line, p);
    MessageOfSound(rest, msg);
    var tail := rest[|msg|..];
    Reassemble(line, ts, after, level, rest, msg, tail);
    TimestampPrefix(line, p - 1);
  }

  /** A found message is followed by one line feed, or two, and nothing else. */
  lemma MessageOfSound(rest: string, msg: string)
    requires MessageOf(rest) == Some(msg)
    ensures msg != [] && forall i | 0 <= i < |msg| :: msg[i] != '\n'
    ensures rest == msg + rest[|msg|..] && (rest[|msg|..] == "\n" || rest[|msg|..] == "\n\n")
  {
    var e := LineLength(rest);
    assert rest == rest[..e] + "\n" + rest[e + 1..];
  }

  lemma Reassemble(line: string, ts: string, after: string, level: Level, rest: string, msg: string, tail: string)
    requires line == ts + " " + after && after == Name(level) + " " + rest && rest == msg + tail
    ensures line == ts + " " + Name(level) + " " + msg + tail
  {
    LineParts(ts, level, msg, tail);
  }

  lemma TimestampPrefix(line: string, n: nat)
    requires n <= |line| && forall i | 0 <= i < n :: IsTimestampChar(line[i])
    ensures forall i | 0 <= i < |line[..n]| :: IsTimestampChar(line[..n][i])
  {
  }

  /**
   * The match is the unique reading of the line by the grammar: `MatchLine` finds
   * the groups `ts`, `level`, `msg` exactly when the line is built from them.
   */
  lemma MatchLineIff(line: string, ts: string, level: Level, msg: string)
    ensures MatchLine(line) == Some(Groups(ts, level, msg)) <==> MatchesPattern(line, ts, level, msg)
  {
    MatchLineSound(line);
    if MatchesPattern(line, ts, level, msg) {
      MatchLineComplete(line, ts, level, msg);
    }
  }

  /**
   * A line parses to a record exactly when it fits the grammar and its timestamp
   * text is a valid date-time written in the format; the record holds that
   * date-time, the level and the message.
   */
  lemma ParseLogLineIff(line: string, r: LogRecord)
    ensures ParseLogLine(line) == Success(r) <==>
              exists ts :: MatchesPattern(line, ts, r.level, r.message)
                           && ValidDateTime(r.date) && ts == FormatTimestamp(r.date)
  {
    MatchLineSound(line);
    if ParseLogLine(line) == Success(r) {
      var g := MatchLine(line).value;
      ParseTimestampIff(g.timestamp, r.date);
      assert MatchesPattern(line, g.timestamp, r.level, r.message);
    }
    if exists ts :: MatchesPattern(line, ts, r.level, r.message)
                    && ValidDateTime(r.date) && ts == FormatTimestamp(r.date) {
      var ts :| MatchesPattern(line, ts, r.level, r.message)
                && ValidDateTime(r.date) && ts == FormatTimestamp(r.date);
      MatchLineComplete(line, ts, r.level, r.message);
      ParseFormatTimestamp(r.date);
    }
  }

  /**
   * `ValueError` for a line that fits the grammar but whose timestamp group is
   * not a valid `%Y-%m-%d %H:%M:%S` date-time.
   */
  lemma ParseLogLineBadTimestamp(line: string, ts: string, level: Level, msg: string)
    requires MatchesPattern(line, ts, level, msg)
    requires forall d: DateTime :: !(ValidDateTime(d) && ts == FormatTimestamp(d))
    ensures ParseLogLine(line) == Failure(BadTimestamp)
  {
    MatchLineComplete(line, ts, level, msg);
    ParseTimestampSound(ts);
  }

  /** A line that no split fits fails with the pattern's `ValueError`. */
  lemma ParseLogLineRejects(line: string)
    ensures (ParseLogLine(line) == Failure(UnexpectedFormat))
            <==> (!exists ts, level, msg :: MatchesPattern(line, ts, level, msg))
  {
    MatchLineSound(line);
    if exists ts, level, msg :: MatchesPattern(line, ts, level, msg) {
      var ts, level, msg :| MatchesPattern(line, ts, level, msg);
      MatchLineComplete(line, ts, level, msg);
    }
  }

  /** A line without its terminating line feed, such as an unterminated last line, is rejected. */
  lemma UnterminatedLineRejected(line: string)
    requires line == [] || line[|line| - 1] != '\n'
    ensures ParseLogLine(line) == Failure(UnexpectedFormat)
  {
    ParseLogLineRejects(line);
  }

  /** A record written back in the log format. */
  function FormatLogLine(r: LogRecord): string {
    FormatTimestamp(r.date) + " " + Name(r.level) + " " + r.message + "\n"
  }

  /** Every record with a valid date and a one-line message survives being written and parsed again. */
  lemma ParseFormatLogLine(r: LogRecord)
    requires ValidDateTime(r.date)
    requires r.message != [] && forall i | 0 <= i < |r.message| :: r.message[i] != '\n'
    ensures ParseLogLine(FormatLogLine(r)) == Success(r)
  {
    var ts := FormatTimestamp(r.date);
    FormattedTimestampChars(r.date);
    MatchLineComplete(FormatLogLine(r), ts, r.level, r.message);
    ParseFormatTimestamp(r.date);
  }

  /** A formatted timestamp is made of the characters the timestamp group accepts. */
  lemma FormattedTimestampChars(d: DateTime)
    ensures forall i | 0 <= i < |FormatTimestamp(d)| :: IsTimestampChar(FormatTimestamp(d)[i])
  {
    var ts := FormatTimestamp(d);
    FormatTimestampFields(d);
    forall i | 0 <= i < |ts| ensures IsTimestampChar(ts[i]) {
      if i < 4 { assert ts[i] == ts[..4][i]; }
      else if 5 <= i < 7 { assert ts[i] == ts[5..7][i - 5]; }
      else if 8 <= i < 10 { assert ts[i] == ts[8..10][i - 8]; }
      else if 11 <= i < 13 { assert ts[i] == ts[11..13][i - 11]; }
      else if 14 <= i < 16 { assert ts[i] == ts[14..16][i - 14]; }
      else if 17 <= i { assert ts[i] == ts[17..][i - 17]; }
    }
  }
}
