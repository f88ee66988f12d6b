/**
 * The system-log views of django_project/apps/dashboard/views.py: one log line
 * is parsed into an entry by three patterns tried in order, a log file's last
 * hundred lines become entries, entries are counted into statistics, and the
 * statistics of the three log files are combined into the overview.
 *
 * Each pattern is written out as a structural recogniser that follows the
 * regular expression's greedy matching; `\w`, `\d` and `\s` are the character
 * classes of the Text module. The current time, formatted, is a parameter.
 */
module DashboardLogs {
  import opened Common
  import Text
  import Seqs

  /** One parsed log entry. */
  datatype LogEntry = LogEntry(level: string, timestamp: string, message: string, logType: string)

  // ------------------------------------------------------------ recognisers

  /**
   * `\d{4}-\d{2}-\d{2}\s+\d{2}:\d{2}:\d{2}` at the start of `s`: the number of
   * characters it spans.
   */
  function DateTimeLength(s: string): (r: Option<nat>)
    ensures r.Some? ==> 18 < r.value <= |s| && s[r.value - 6] == ':'
  {
    if Text.DigitsAt(s, 0, 4) && 4 < |s| && s[4] == '-' && Text.DigitsAt(s, 5, 2) && 7 < |s| && s[7] == '-'
       && Text.DigitsAt(s, 8, 2) then
      var k := Text.Span(s[10..], Text.IsSpace);
      var t := 10 + k;
      if k > 0 && Text.DigitsAt(s, t, 2) && t + 2 < |s| && s[t + 2] == ':' && Text.DigitsAt(s, t + 3, 2)
         && t + 5 < |s| && s[t + 5] == ':' && Text.DigitsAt(s, t + 6, 2)
      then Some(t + 8) else None
    else None
  }

  predicate NotNewline(c: char) { c != '\n' }

  /**
   * `.+` after a greedy whitespace run that ended at `j`: the regex gives the
   * run back one character at a time (down to `least`) until `.` matches, and
   * then `.+` takes everything up to the next newline.
   */
  function BackTail(s: string, j: int, least: nat): (r: Option<string>)
    requires j <= |s|
    decreases j
  {
    if j < least then None
    else if j < |s| && NotNewline(s[j]) then Some(s[j..j + Text.Span(s[j..], NotNewline)])
    else BackTail(s, j - 1, least)
  }

  /** `\s+(.+)` at the start of `s`: the captured text. */
  function SpacedTail(s: string): Option<string>
  {
    BackTail(s, Text.Span(s, Text.IsSpace), 1)
  }

  /** `\s*(.+)` at the start of `s`: the captured text. */
  function OptSpacedTail(s: string): Option<string>
  {
    BackTail(s, Text.Span(s, Text.IsSpace), 0)
  }

  /** `(\d+)\s+(.+)`: milliseconds and message. */
  function MsTail(r: string): Option<(string, string)>
  {
    var m := Text.Span(r, Text.IsDigit);
    if m == 0 then None
    else match SpacedTail(r[m..])
      case None => None
      case Some(msg) => Some((r[..m], msg))
  }

  /** `(<date time>),(\d+)\s+(.+)`: date-time, milliseconds and message. */
  function DateTail(r: string): Option<(string, string, string)>
  {
    match DateTimeLength(r)
    case None => None
    case Some(d) =>
      if d < |r| && r[d] == ',' then
        match MsTail(r[d + 1..])
        case None => None
        case Some((ms, msg)) => Some((r[..d], ms, msg))
      else None
  }

  /** Pattern 1, `(\w+)\s+(<date time>),(\d+)\s+(.+)`: level, date-time, milliseconds, message. */
  function Pattern1(s: string): Option<(string, string, string, string)>
  {
    var w := Text.Span(s, Text.IsWordChar);
    var k := Text.Span(s[w..], Text.IsSpace);
    if w == 0 || k == 0 then None
    else match DateTail(s[w..][k..])
      case None => None
      case Some((timestamp, ms, msg)) => Some((s[..w], timestamp, ms, msg))
  }

  /** `\s+(\w+)\s+(.+)`: level and message. */
  function LevelTail(r: string): Option<(string, string)>
  {
    var k := Text.Span(r, Text.IsSpace);
    var w := Text.Span(r[k..], Text.IsWordChar);
    if k == 0 || w == 0 then None
    else match SpacedTail(r[k..][w..])
      case None => None
      case Some(msg) => Some((r[k..][..w], msg))
  }

  /** Pattern 2, `(<date time>),(\d+)\s+(\w+)\s+(.+)`: date-time, milliseconds, level, message. */
  function Pattern2(s: string): Option<(string, string, string, string)>
  {
    match DateTimeLength(s)
    case None => None
    case Some(d) =>
      if d < |s| && s[d] == ',' then
        var r := s[d + 1..];
        var m := Text.Span(r, Text.IsDigit);
        if m == 0 then None
        else match LevelTail(r[m..])
          case None => None
          case Some((level, msg)) => Some((s[..d], r[..m], level, msg))
      else None
  }

  /** Pattern 3, `(\w+):\s*(.+)`: level and message. */
  function Pattern3(s: string): Option<(string, string)>
  {
    var w := Text.Span(s, Text.IsWordChar);
    if w == 0 || w == |s| || s[w] != ':' then None
    else match OptSpacedTail(s[w + 1..])
      case None => None
      case Some(msg) => Some((s[..w], msg))
  }

  const DefaultLevel: string := "INFO"

  /**
   * `parse_log_line`. The four groups of pattern 2 are unpacked in pattern 1's
   * order, so its date-time lands in `level` and its timestamp reads
   * `<milliseconds>.<LEVEL>`. A line no pattern matches is kept whole at level
   * INFO: the function never fails.
   */
  function ParseLogLine(line: string, logType: string, now: string): LogEntry
  {
    match Pattern1(line)
    case Some((level, timestamp, ms, message)) => LogEntry(level, timestamp + "." + ms, message, logType)
    case None =>
      match Pattern2(line)
      case Some((level, timestamp, ms, message)) => LogEntry(level, timestamp + "." + ms, message, logType)
      case None =>
        match Pattern3(line)
        case Some((level, message)) => LogEntry(level, now, message, logType)
        case None => LogEntry(DefaultLevel, now, line, logType)
  }

  // ------------------------------------------------------------ line shapes

  /** A non-empty run of word characters. */
  predicate IsWord(s: string) { |s| > 0 && forall j :: 0 <= j < |s| ==> Text.IsWordChar(s[j]) }

  /** `yyyy-mm-dd`. */
  predicate IsDate(s: string)
  {
    |s| == 10 && Text.DigitsAt(s, 0, 4) && s[4] == '-' && Text.DigitsAt(s, 5, 2) && s[7] == '-' && Text.DigitsAt(s, 8, 2)
  }

  /** `hh:mm:ss`. */
  predicate IsTime(s: string)
  {
    |s| == 8 && Text.DigitsAt(s, 0, 2) && s[2] == ':' && Text.DigitsAt(s, 3, 2) && s[5] == ':' && Text.DigitsAt(s, 6, 2)
  }

  /** A message `.+` captures whole: it starts with a non-space and holds no newline. */
  predicate IsMessage(s: string) { |s| > 0 && !Text.IsSpace(s[0]) && '\n' !in s }

  /** The two halves of a concatenation, recovered by slicing. */
  lemma Halves(x: string, y: string)
    ensures (x + y)[..|x|] == x && (x + y)[|x|..] == y
  {
  }

  /** `.+` after whitespace ending just before a message captures the whole message. */
  lemma BackTailOf(gap: string, msg: string, least: nat)
    requires IsMessage(msg) && least <= |gap|
    ensures BackTail(gap + msg, |gap|, least) == Some(msg)
  {
    Halves(gap, msg);
    Text.SpanWhole(msg, NotNewline);
    assert (gap + msg)[|gap|..|gap| + |msg|] == msg;
  }

  /** `\s+(.+)` on a space followed by a message captures the message. */
  lemma SpacedTailOf(msg: string)
    requires IsMessage(msg)
    ensures SpacedTail(" " + msg) == Some(msg)
  {
    Text.SpanOf(" ", msg, Text.IsSpace);
    BackTailOf(" ", msg, 1);
  }

  /** `(\d+)\s+(.+)` splits digits, a space and a message. */
  lemma MsTailOf(ms: string, msg: string)
    requires Text.IsDigits(ms) && IsMessage(msg)
    ensures MsTail(ms + (" " + msg)) == Some((ms, msg))
  {
    Text.SpanOf(ms, " " + msg, Text.IsDigit);
    Halves(ms, " " + msg);
    SpacedTailOf(msg);
  }

  /** The date-time pattern spans a date, one space and a time, and no more. */
  lemma DateTimeOf(date: string, time: string, rest: string)
    requires IsDate(date) && IsTime(time)
    requires |rest| > 0 && !Text.IsDigit(rest[0])
    ensures DateTimeLength(date + (" " + (time + rest))) == Some(19)
  {
    var s := date + (" " + (time + rest));
    Halves(date, " " + (time + rest));
    Text.SpanOf(" ", time + rest, Text.IsSpace);
    Halves(" ", time + rest);
    assert forall j :: 0 <= j < 10 ==> s[j] == date[j];
    assert forall j :: 11 <= j < 19 ==> s[j] == time[j - 11];
  }

  /** `(<date time>),(\d+)\s+(.+)` on a well-formed tail. */
  lemma DateTailOf(date: string, time: string, ms: string, msg: string)
    requires IsDate(date) && IsTime(time) && Text.IsDigits(ms) && IsMessage(msg)
    ensures DateTail(date + (" " + (time + ("," + (ms + (" " + msg))))))
         == Some((date + " " + time, ms, msg))
  {
    var t := ms + (" " + msg);
    var dt := date + " " + time;
    var r := date + (" " + (time + ("," + t)));
    DateTimeOf(date, time, "," + t);
    assert r == dt + ("," + t);
    MsTailOf(ms, msg);
    DateTailSplit(r, dt, t);
  }

  /** A date-time of the right length followed by `,` hands the rest to the milliseconds pattern. */
  lemma DateTailSplit(r: string, dt: string, t: string)
    requires r == dt + ("," + t)
    requires DateTimeLength(r) == Some(|dt|)
    requires MsTail(t).Some?
    ensures DateTail(r) == Some((dt, MsTail(t).value.0, MsTail(t).value.1))
  {
    Halves(dt, "," + t);
    Halves(",", t);
    var d := |dt|;
    assert r[..d] == dt && r[d] == ',' && r[d + 1..] == ("," + t)[1..] == t;
  }

  /**
   * Pattern 1 on `LEVEL date time,ms message`: the level, the date-time, the
   * milliseconds and the message.
   */
  lemma Pattern1Of(level: string, date: string, time: string, ms: string, msg: string)
    requires IsWord(level) && IsDate(date) && IsTime(time) && Text.IsDigits(ms) && IsMessage(msg)
    ensures Pattern1(level + (" " + (date + (" " + (time + ("," + (ms + (" " + msg))))))))
         == Some((level, date + " " + time, ms, msg))
  {
    var r := date + (" " + (time + ("," + (ms + (" " + msg)))));
    Text.SpanOf(level, " " + r, Text.IsWordChar);
    Halves(level, " " + r);
    Text.SpanOf(" ", r, Text.IsSpace);
    Halves(" ", r);
    DateTailOf(date, time, ms, msg);
  }

  /**
   * `parse_log_line` on a pattern-1 line `LEVEL date time,ms message`: that
   * level, the timestamp `date time.ms` and the message.
   */
  lemma Pattern1Line(level: string, date: string, time: string, ms: string, msg: string, logType: string, now: string)
    requires IsWord(level) && IsDate(date) && IsTime(time) && Text.IsDigits(ms) && IsMessage(msg)
    ensures var line := level + (" " + (date + (" " + (time + ("," + (ms + (" " + msg)))))));
            ParseLogLine(line, logType, now) == LogEntry(level, date + " " + time + "." + ms, msg, logType)
  {
    Pattern1Of(level, date, time, ms, msg);
  }

  /** `\s+(\w+)\s+(.+)` on a space, a level, a space and a message. */
  lemma LevelTailOf(level: string, msg: string)
    requires IsWord(level) && IsMessage(msg)
    ensures LevelTail(" " + (level + (" " + msg))) == Some((level, msg))
  {
    Text.SpanOf(" ", level + (" " + msg), Text.IsSpace);
    Halves(" ", level + (" " + msg));
    Text.SpanOf(level, " " + msg, Text.IsWordChar);
    Halves(level, " " + msg);
    SpacedTailOf(msg);
  }

  /** Pattern 1 needs whitespace after the leading word: a line whose first word is followed by another character fails it. */
  lemma Pattern1NeedsSpace(word: string, rest: string)
    requires IsWord(word) && |rest| > 0 && !Text.IsWordChar(rest[0]) && !Text.IsSpace(rest[0])
    ensures Pattern1(word + rest).None?
  {
    Text.SpanOf(word, rest, Text.IsWordChar);
    Halves(word, rest);
  }

  /** Pattern 2 on `date time,ms LEVEL message`. */
  lemma Pattern2Of(date: string, time: string, ms: string, level: string, msg: string)
    requires IsWord(level) && IsDate(date) && IsTime(time) && Text.IsDigits(ms) && IsMessage(msg)
    ensures Pattern2(date + (" " + (time + ("," + (ms + (" " + (level + (" " + msg))))))))
         == Some((date + " " + time, ms, level, msg))
  {
    var r := ms + (" " + (level + (" " + msg)));
    DateTimeOf(date, time, "," + r);
    CommaSlices(date, time, r);
    MsSpan(ms, " " + (level + (" " + msg)));
    LevelTailOf(level, msg);
  }

  /** Around the comma after a date-time: the date-time before it and the rest after it. */
  lemma CommaSlices(date: string, time: string, r: string)
    requires IsDate(date) && IsTime(time)
    ensures var s := date + (" " + (time + ("," + r)));
            && |s| > 19 && s[19] == ',' && s[..19] == date + " " + time && s[20..] == r
  {
    var s := date + (" " + (time + ("," + r)));
    assert s == (date + " " + time) + ("," + r);
    Halves(date + " " + time, "," + r);
    Halves(",", r);
  }

  /** The digit run at the head of `ms + rest` is `ms` when `rest` starts with a space. */
  lemma MsSpan(ms: string, rest: string)
    requires Text.IsDigits(ms) && |rest| > 0 && rest[0] == ' '
    ensures var r := ms + rest; Text.Span(r, Text.IsDigit) == |ms| && r[..|ms|] == ms && r[|ms|..] == rest
  {
    Text.SpanOf(ms, rest, Text.IsDigit);
    Halves(ms, rest);
  }

  /**
   * `parse_log_line` on a pattern-2 line `date time,ms LEVEL message`: the
   * groups are read in pattern-1 order, so the date-time becomes the level and
   * the timestamp is `ms.LEVEL`.
   */
  lemma Pattern2Line(date: string, time: string, ms: string, level: string, msg: string, logType: string, now: string)
    requires IsWord(level) && IsDate(date) && IsTime(time) && Text.IsDigits(ms) && IsMessage(msg)
    ensures var line := date + (" " + (time + ("," + (ms + (" " + (level + (" " + msg)))))));
            ParseLogLine(line, logType, now) == LogEntry(date + " " + time, ms + "." + level, msg, logType)
  {
    var line := date + (" " + (time + ("," + (ms + (" " + (level + (" " + msg)))))));
    assert line == date[..4] + line[4..];
    assert forall j :: 0 <= j < 4 ==> Text.IsWordChar(date[..4][j]);
    Pattern1NeedsSpace(date[..4], line[4..]);
    Pattern2Of(date, time, ms, level, msg);
  }

  /** A word followed by a colon does not start with the date-time pattern. */
  lemma NotDateTime(level: string, rest: string)
    requires IsWord(level) && |rest| > 0 && rest[0] == ':'
    ensures DateTimeLength(level + rest).None?
  {
    var s := level + rest;
    if |level| < 4 {
      assert !Text.IsDigit(s[|level|]);
    } else {
      assert s[4] != '-';
    }
  }

  /** Pattern 3 on `LEVEL:` followed by optional whitespace and a message. */
  lemma Pattern3Of(level: string, gap: string, msg: string)
    requires IsWord(level) && IsMessage(msg)
    requires forall j :: 0 <= j < |gap| ==> Text.IsSpace(gap[j])
    ensures Pattern3(level + (":" + (gap + msg))) == Some((level, msg))
  {
    Text.SpanOf(level, ":" + (gap + msg), Text.IsWordChar);
    Halves(level, ":" + (gap + msg));
    Halves(":", gap + msg);
    Text.SpanOf(gap, msg, Text.IsSpace);
    BackTailOf(gap, msg, 0);
  }

  /** `parse_log_line` on a pattern-3 line `LEVEL: message`: that level and message, stamped now. */
  lemma Pattern3Line(level: string, gap: string, msg: string, logType: string, now: string)
    requires IsWord(level) && IsMessage(msg)
    requires forall j :: 0 <= j < |gap| ==> Text.IsSpace(gap[j])
    ensures var line := level + (":" + (gap + msg));
            ParseLogLine(line, logType, now) == LogEntry(level, now, msg, logType)
  {
    Pattern1NeedsSpace(level, ":" + (gap + msg));
    NotDateTime(level, ":" + (gap + msg));
    Pattern3Of(level, gap, msg);
  }

  /** A line without a colon matches no pattern, so it is kept whole at level INFO. */
  lemma NoColonFallsBack(line: string, logType: string, now: string)
    requires ':' !in line
    ensures ParseLogLine(line, logType, now) == LogEntry(DefaultLevel, now, line, logType)
  {
  }

  // ------------------------------------------------------------ log files

  const WindowSize: nat := 100

  /** A read line that is parsed: once stripped, neither blank nor a `#` comment. */
  predicate Kept(line: string)
  {
    var t := Text.Strip(line);
    t != "" && t[0] != '#'
  }

  /** The entry of a kept line: the stripped line, parsed. */
  function EntryOf(line: string, logType: string, now: string): LogEntry
  {
    ParseLogLine(Text.Strip(line), logType, now)
  }

  /** The entries for a run of read lines: one per kept line, in order. */
  function ParsedLines(lines: seq<string>, logType: string, now: string): (r: seq<LogEntry>)
    ensures |r| <= |lines|
    decreases |lines|
  {
    if |lines| == 0 then []
    else
      var last := lines[|lines| - 1];
      ParsedLines(lines[..|lines| - 1], logType, now) + (if Kept(last) then [EntryOf(last, logType, now)] else [])
  }

  /** The entry added when lines were read but none was parsed. */
  function SummaryEntry(total: nat, logType: string, now: string): LogEntry
  {
    LogEntry(DefaultLevel, now, "Log parsing completed - " + Text.NatToString(total) + " total lines in file", logType)
  }

  /** The entries of a file's lines: those of the last hundred, else the one summary entry. */
  function FileEntries(lines: seq<string>, logType: string, now: string): seq<LogEntry>
  {
    var parsed := ParsedLines(Seqs.LastN(lines, WindowSize), logType, now);
    if |lines| == 0 then [] else parsed + (if |parsed| == 0 then [SummaryEntry(|lines|, logType, now)] else [])
  }

  /**
   * `parse_log_file` once the file is read: nothing for a missing or empty
   * file; else the entries of the last hundred lines, followed by one summary
   * entry when there are none.
   */
  method ParseLogFile(fileExists: bool, lines: seq<string>, logType: string, now: string) returns (logs: seq<LogEntry>)
    ensures logs == if fileExists then FileEntries(lines, logType, now) else []
  {
    logs := [];
    if !fileExists || |lines| == 0 {
      return;
    }
    var parsedCount;
    logs, parsedCount := ParseLines(Seqs.LastN(lines, WindowSize), logType, now);
    if parsedCount == 0 {
      logs := logs + [SummaryEntry(|lines|, logType, now)];
    }
  }

  /** The loop of `parse_log_file` over the recent lines, counting what it parses. */
  method ParseLines(recent: seq<string>, logType: string, now: string) returns (logs: seq<LogEntry>, parsedCount: nat)
    ensures logs == ParsedLines(recent, logType, now)
    ensures parsedCount == |logs|
  {
    logs, parsedCount := [], 0;
    for i := 0 to |recent|
      invariant logs == ParsedLines(recent[..i], logType, now)
      invariant parsedCount == |logs|
    {
      assert recent[..i + 1][..i] == recent[..i];
      if Kept(recent[i]) {
        logs := logs + [EntryOf(recent[i], logType, now)];
        parsedCount := parsedCount + 1;
      }
    }
    assert recent[..|recent|] == recent;
  }

  /** One entry per kept line: as many entries as kept lines. */
  lemma {:induction false} ParsedLinesCount(lines: seq<string>, logType: string, now: string)
    ensures |ParsedLines(lines, logType, now)| == Seqs.Count(lines, Kept)
    decreases |lines|
  {
    if |lines| > 0 {
      ParsedLinesCount(lines[..|lines| - 1], logType, now);
    }
  }

  /** Each entry is the parse of a kept line, in line order. */
  lemma {:induction false} ParsedLinesFrom(lines: seq<string>, logType: string, now: string, k: nat)
    requires k < |ParsedLines(lines, logType, now)|
    ensures exists i :: 0 <= i < |lines| && Kept(lines[i]) && ParsedLines(lines, logType, now)[k] == EntryOf(lines[i], logType, now)
    decreases |lines|
  {
    var init := lines[..|lines| - 1];
    if k < |ParsedLines(init, logType, now)| {
      ParsedLinesFrom(init, logType, now, k);
      var i :| 0 <= i < |init| && Kept(init[i]) && ParsedLines(init, logType, now)[k] == EntryOf(init[i], logType, now);
      assert lines[i] == init[i];
    } else {
      assert Kept(lines[|lines| - 1]);
    }
  }

  /**
   * A file with lines always yields at least one and at most a hundred
   * entries: the summary entry alone when none of the last hundred lines is
   * kept, else one entry per kept line and no summary.
   */
  lemma FileEntriesBounds(lines: seq<string>, logType: string, now: string)
    requires |lines| > 0
    ensures 1 <= |FileEntries(lines, logType, now)| <= WindowSize
    ensures Seqs.Count(Seqs.LastN(lines, WindowSize), Kept) == 0
            ==> FileEntries(lines, logType, now) == [SummaryEntry(|lines|, logType, now)]
    ensures Seqs.Count(Seqs.LastN(lines, WindowSize), Kept) > 0
            ==> FileEntries(lines, logType, now) == ParsedLines(Seqs.LastN(lines, WindowSize), logType, now)
  {
    var recent := Seqs.LastN(lines, WindowSize);
    ParsedLinesCount(recent, logType, now);
    assert |ParsedLines(recent, logType, now)| <= |recent| <= WindowSize;
  }

  // ------------------------------------------------------------ statistics

  /** The counters of `get_log_statistics`. */
  datatype LogStats = LogStats(totalEntries: nat, errorCount: nat, loginAttempts: nat,
                               userActivities: nat, recentErrors: nat, systemEvents: nat)

  const ErrorLevel: string := "ERROR"

  predicate IsError(e: LogEntry) { e.level == ErrorLevel }

  /** The message mentions `word`, ignoring letter case. */
  predicate Mentions(e: LogEntry, word: string) { Text.Contains(Text.Lower(e.message), word) }

  /**
   * `get_log_statistics`. Whether an error's timestamp parses and lies within
   * the last day is the parameter `recent`.
   */
  method GetLogStatistics(entries: seq<LogEntry>, recent: string -> bool) returns (stats: LogStats)
    ensures stats.totalEntries == |entries|
    ensures stats.errorCount == Seqs.Count(entries, IsError)
    ensures stats.loginAttempts == Seqs.Count(entries, e => Mentions(e, "login"))
    ensures stats.userActivities == Seqs.Count(entries, e => Mentions(e, "user"))
    ensures stats.systemEvents == Seqs.Count(entries, e => Mentions(e, "system"))
    ensures stats.recentErrors == Seqs.Count(entries, e => IsRecentError(e, recent))
  {
    var errors, logins, users, system := 0, 0, 0, 0;
    for i := 0 to |entries|
      invariant errors == Seqs.Count(entries[..i], IsError)
      invariant logins == Seqs.Count(entries[..i], e => Mentions(e, "login"))
      invariant users == Seqs.Count(entries[..i], e => Mentions(e, "user"))
      invariant system == Seqs.Count(entries[..i], e => Mentions(e, "system"))
    {
      Seqs.CountStep(entries, i, IsError);
      Seqs.CountStep(entries, i, e => Mentions(e, "login"));
      Seqs.CountStep(entries, i, e => Mentions(e, "user"));
      Seqs.CountStep(entries, i, e => Mentions(e, "system"));
      var e := entries[i];
      if IsError(e) { errors := errors + 1; }
      if Mentions(e, "login") { logins := logins + 1; }
      if Mentions(e, "user") { users := users + 1; }
      if Mentions(e, "system") { system := system + 1; }
    }
    var recentErrors := 0;
    for i := 0 to |entries|
      invariant recentErrors == Seqs.Count(entries[..i], e => IsRecentError(e, recent))
    {
      Seqs.CountStep(entries, i, e => IsRecentError(e, recent));
      if IsRecentError(entries[i], recent) {
        recentErrors := recentErrors + 1;
      }
    }
    assert entries[..|entries|] == entries;
    stats := LogStats(|entries|, errors, logins, users, recentErrors, system);
  }

  /** An error entry with a non-empty timestamp that falls within the last day. */
  predicate IsRecentError(e: LogEntry, recent: string -> bool)
  {
    IsError(e) && e.timestamp != "" && recent(e.timestamp)
  }

  /** Every counter is at most the number of entries, and recent errors are among the errors. */
  lemma StatisticsBounds(entries: seq<LogEntry>, recent: string -> bool)
    ensures Seqs.Count(entries, e => IsRecentError(e, recent)) <= Seqs.Count(entries, IsError) <= |entries|
  {
    Seqs.CountMonotone(entries, e => IsRecentError(e, recent), IsError);
  }

  /** The statistics of entries, as a function of them. */
  function StatsOf(entries: seq<LogEntry>, recent: string -> bool): LogStats
  {
    LogStats(|entries|, Seqs.Count(entries, IsError), Seqs.Count(entries, e => Mentions(e, "login")),
             Seqs.Count(entries, e => Mentions(e, "user")), Seqs.Count(entries, e => IsRecentError(e, recent)),
             Seqs.Count(entries, e => Mentions(e, "system")))
  }

  // ------------------------------------------------------------ overview

  /**
   * `get_system_logs_overview`: the entry totals of every existing log are
   * added; login and user counts come from the activity log, error counts from
   * the error log and system events from the debug log. A missing file is
   * `None`.
   */
  function Overview(activity: Option<seq<LogEntry>>, error: Option<seq<LogEntry>>, debug: Option<seq<LogEntry>>,
                    recent: string -> bool): LogStats
  {
    var a := if activity.Some? then StatsOf(activity.value, recent) else LogStats(0, 0, 0, 0, 0, 0);
    var e := if error.Some? then StatsOf(error.value, recent) else LogStats(0, 0, 0, 0, 0, 0);
    var d := if debug.Some? then StatsOf(debug.value, recent) else LogStats(0, 0, 0, 0, 0, 0);
    LogStats(a.totalEntries + e.totalEntries + d.totalEntries, e.errorCount, a.loginAttempts,
             a.userActivities, e.recentErrors, d.systemEvents)
  }

  /** Length of an optional log: zero when the file is missing. */
  function SizeOf(log: Option<seq<LogEntry>>): nat { if log.Some? then |log.value| else 0 }

  /**
   * The overview's total is the number of entries over the three files; each
   * other counter depends on one file only, so changing the other two files
   * leaves it unchanged.
   */
  lemma OverviewSources(activity: Option<seq<LogEntry>>, error: Option<seq<LogEntry>>, debug: Option<seq<LogEntry>>,
                        error2: Option<seq<LogEntry>>, debug2: Option<seq<LogEntry>>, activity2: Option<seq<LogEntry>>,
                        recent: string -> bool)
    ensures Overview(activity, error, debug, recent).totalEntries == SizeOf(activity) + SizeOf(error) + SizeOf(debug)
    ensures Overview(activity, error, debug, recent).loginAttempts == Overview(activity, error2, debug2, recent).loginAttempts
    ensures Overview(activity, error, debug, recent).userActivities == Overview(activity, error2, debug2, recent).userActivities
    ensures Overview(activity, error, debug, recent).errorCount == Overview(activity2, error, debug2, recent).errorCount
    ensures Overview(activity, error, debug, recent).recentErrors == Overview(activity2, error, debug2, recent).recentErrors
    ensures Overview(activity, error, debug, recent).systemEvents == Overview(activity2, error2, debug, recent).systemEvents
  {
  }
}
